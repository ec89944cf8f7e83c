/** Turning a class name into a regular expression that matches it literally: JavaScript
    `s.replace(/[.*+?^${}()|[\]\\]/g, '\\$&')` and Python `re.escape(s)` put a backslash before
    every character that would otherwise mean something to the regex engine. A regex made only
    of ordinary characters and backslash-escaped special characters matches exactly the text
    obtained by dropping those backslashes, which is what `Unescape` computes. The rule tables
    of the scripts are written as `Literal` class names. For the scripts that escape their keys,
    `EscapeRoundTrip` shows that the escaped regex stands for exactly that name. The hand-escaped
    sources of update-colors.js and apply-colors.py have the shape `prefix\[body\]`, which
    `EscapedBrackets` covers for every prefix and body (`\/` in a JavaScript regex literal only
    keeps the slash from ending the literal). */
module RegexEscape {
  import opened Rewrite

  /** Characters escaped by the JavaScript idiom used in the scripts. */
  predicate IsJsSpecial(c: char) {
    c in {'.', '*', '+', '?', '^', '$', '{', '}', '(', ')', '|', '[', ']', '\\'}
  }

  /** Characters escaped by Python's `re.escape` (Python 3.7 and later). */
  predicate IsPySpecial(c: char) {
    c in {'(', ')', '[', ']', '{', '}', '?', '*', '+', '-', '|', '^', '$', '\\', '.', '&', '~', '#',
          ' ', '\t', '\n', '\r', '\U{000B}', '\U{000C}'}
  }

  predicate IsSpecial(d: Dialect, c: char) {
    match d
    case Js => IsJsSpecial(c)
    case Py => IsPySpecial(c)
  }

  function Escape(s: string, d: Dialect): (r: string)
    ensures |s| <= |r| <= 2 * |s|
    decreases |s|
  {
    if s == [] then []
    else (if IsSpecial(d, s[0]) then ['\\', s[0]] else [s[0]]) + Escape(s[1..], d)
  }

  /** The text a regex of ordinary characters and `\c` escapes matches, where each `c` is a
      special character (see `OnlyLiteral`): each `\c` stands for `c`. Escapes such as `\d` or
      `\s` are character classes, not literals, and `OnlyLiteral` refuses them. */
  function Unescape(r: string): (s: string)
    ensures |s| <= |r|
    decreases |r|
  {
    if r == [] then []
    else if r[0] == '\\' && |r| >= 2 then [r[1]] + Unescape(r[2..])
    else [r[0]] + Unescape(r[1..])
  }

  /** Every special character of `r` is escaped, and every backslash escapes a special
      character: the regex has no operator and no escape class such as `\d` in it. */
  predicate OnlyLiteral(r: string, d: Dialect)
    decreases |r|
  {
    if r == [] then true
    else if r[0] == '\\' then |r| >= 2 && IsSpecial(d, r[1]) && OnlyLiteral(r[2..], d)
    else !IsSpecial(d, r[0]) && OnlyLiteral(r[1..], d)
  }

  /** Escaping leaves no regex operator, and the escaped regex matches exactly the original text. */
  lemma {:induction false} EscapeRoundTrip(s: string, d: Dialect)
    ensures OnlyLiteral(Escape(s, d), d)
    ensures Unescape(Escape(s, d)) == s
    decreases |s|
  {
    if s != [] {
      EscapeRoundTrip(s[1..], d);
      var rest := Escape(s[1..], d);
      if IsSpecial(d, s[0]) {
        assert Escape(s, d) == ['\\', s[0]] + rest;
        assert (['\\', s[0]] + rest)[2..] == rest;
      } else {
        assert Escape(s, d) == [s[0]] + rest;
        assert ([s[0]] + rest)[1..] == rest;
      }
    }
  }

  /** Ordinary characters at the front of a regex stand for themselves. */
  lemma {:induction false} PlainThenRest(a: string, b: string, d: Dialect)
    requires forall i :: 0 <= i < |a| ==> a[i] != '\\' && !IsSpecial(d, a[i])
    ensures Unescape(a + b) == a + Unescape(b)
    ensures OnlyLiteral(a + b, d) == OnlyLiteral(b, d)
    decreases |a|
  {
    if a == [] {
      assert a + b == b;
    } else {
      assert (a + b)[1..] == a[1..] + b;
      PlainThenRest(a[1..], b, d);
    }
  }

  /** An escaped character at the front of a regex stands for itself. */
  lemma EscapedThenRest(c: char, b: string, d: Dialect)
    ensures Unescape(['\\', c] + b) == [c] + Unescape(b)
    ensures OnlyLiteral(['\\', c] + b, d) == (IsSpecial(d, c) && OnlyLiteral(b, d))
  {
    assert (['\\', c] + b)[2..] == b;
  }

  /** A regex `<prefix>\[<body>\]` whose prefix and body hold no special character, such as
      `bg-\[#0E0E0E\]` in apply-colors.py, has no operator left in it and matches exactly the
      class name with plain brackets, `bg-[#0E0E0E]`. For a Python pattern the lemma is taken
      with `Js`: that set is exactly the metacharacters of Python's `re` outside a character
      class, whereas the `Py` set is what `re.escape` escapes and also holds `-` and `#`, which
      are plain characters there. */
  lemma EscapedBrackets(prefix: string, body: string, d: Dialect)
    requires forall i :: 0 <= i < |prefix| ==> prefix[i] != '\\' && !IsSpecial(d, prefix[i])
    requires forall i :: 0 <= i < |body| ==> body[i] != '\\' && !IsSpecial(d, body[i])
    ensures OnlyLiteral(prefix + "\\[" + body + "\\]", d)
    ensures Unescape(prefix + "\\[" + body + "\\]") == prefix + "[" + body + "]"
  {
    var close := ['\\', ']'];
    assert IsSpecial(d, '[') && IsSpecial(d, ']');
    EscapedThenRest(']', [], d);
    assert close + [] == close;
    PlainThenRest(body, close, d);
    EscapedThenRest('[', body + close, d);
    PlainThenRest(prefix, ['\\', '['] + (body + close), d);
    assert prefix + "\\[" + body + "\\]" == prefix + (['\\', '['] + (body + close));
    assert prefix + (['['] + (body + "]")) == prefix + "[" + body + "]";
  }
}
