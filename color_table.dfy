/** The 35-rule table shared by update-colors.js (lines 16-67) and apply-colors.py (lines 17-68),
    grouped as the scripts' comments group it. The two copies differ in one rule only: the
    `text-white` rule is the plain class name in JavaScript and `text-white(?!\S)` in Python.
    Each regex is read as the class name it matches (`\[`, `\]` and `\/` stand for the
    characters themselves). */
module ColorTable {
  import opened Strings
  import opened Rewrite
  import opened Absence
  import opened Engine
  import opened Ordering
  import ClassOverlaps

  /** Background colors, most specific first (rules 0-6). */
  const Backgrounds: seq<Rule> := [
    Lit("bg-[#000000]", "bg-background"),
    Lit("bg-[#000]", "bg-background"),
    Lit("bg-[#010101]", "bg-background"),
    Lit("bg-[#0E0E0E]", "bg-background"),
    Lit("bg-[#0B0B0B]", "bg-background"),
    Lit("bg-black", "bg-background"),
    Lit("bg-dark-background", "bg-background")
  ]

  /** Rules 7-11. */
  const Cards: seq<Rule> := [
    Lit("bg-[#1a1a1a]", "bg-card"),
    Lit("bg-[#1f1f1f]", "bg-card"),
    Lit("bg-[#151515]", "bg-card"),
    Lit("bg-gray-900", "bg-card"),
    Lit("bg-gray-800", "bg-card")
  ]

  /** Rules 12-14. */
  const MutedBackgrounds: seq<Rule> := [
    Lit("bg-[#ffffff]/10", "bg-muted"),
    Lit("bg-white/5", "bg-muted"),
    Lit("bg-white/10", "bg-muted")
  ]

  /** Text colors before the `text-white` rule (rules 15-16). */
  const BrightTexts: seq<Rule> := [
    Lit("text-[#FFFFFF]", "text-foreground"),
    Lit("text-[#FFF]", "text-foreground")
  ]

  /** Text colors after the `text-white` rule (rules 18-19). */
  const OtherForegroundTexts: seq<Rule> := [
    Lit("text-dark-foreground", "text-foreground"),
    Lit("text-[#f5f5f5]", "text-foreground")
  ]

  /** Rules 20-23. */
  const MutedTexts: seq<Rule> := [
    Lit("text-dark-muted-foreground", "text-muted-foreground"),
    Lit("text-gray-400", "text-muted-foreground"),
    Lit("text-gray-500", "text-muted-foreground"),
    Lit("text-[#B3B3B3]", "text-muted-foreground")
  ]

  /** Rules 24-25. */
  const AccentTexts: seq<Rule> := [
    Lit("text-dark-primary", "text-emerald-500"),
    Lit("text-[#F3CF1A]", "text-emerald-500")
  ]

  /** Borders (rules 26-30). */
  const Borders: seq<Rule> := [
    Lit("border-[#ffffff]/10", "border-border"),
    Lit("border-white/5", "border-border"),
    Lit("border-white/10", "border-border"),
    Lit("border-white/20", "border-border"),
    Lit("border-gray-700", "border-border")
  ]

  /** Buttons and interactive elements (rule 31). */
  const Buttons: seq<Rule> := [
    Lit("bg-dark-primary", "bg-emerald-600")
  ]

  /** Hover states (rule 32). */
  const Hovers: seq<Rule> := [
    Lit("hover:bg-white/10", "hover:bg-accent")
  ]

  /** Rings and shadows (rules 33-34). */
  const Rings: seq<Rule> := [
    Lit("ring-white/5", "ring-border"),
    Lit("ring-white/10", "ring-border")
  ]

  /** The two spellings of the `text-white` rule's pattern. */
  predicate TextWhitePattern(tw: Pattern) {
    tw == Literal("text-white") || tw == NotBeforeNonSpace("text-white")
  }

  /** Rules 0-16: everything before the `text-white` rule. */
  const Before: seq<Rule> := Backgrounds + Cards + MutedBackgrounds + BrightTexts

  /** Rules 18-34: everything after it. */
  const After: seq<Rule> := OtherForegroundTexts + MutedTexts + AccentTexts + Borders + Buttons + Hovers + Rings

  /** The table in order, with `tw` as the pattern of rule 17. */
  function Table(tw: Pattern): seq<Rule> {
    Before + [Rule(tw, "text-foreground")] + After
  }

  lemma TableValid(tw: Pattern)
    requires TextWhitePattern(tw)
    ensures ValidRules(Before) && ValidRules(After)
    ensures ValidRules(Table(tw)) && |Table(tw)| == 35
  {
    assert |Before| == 17 && |After| == 17;
  }

  /** The rules the order facts below are about, at their positions. */
  lemma TableFacts(tw: Pattern)
    requires TextWhitePattern(tw)
    ensures ValidRules(Table(tw)) && |Table(tw)| == 35
    ensures Table(tw)[13] == Lit("bg-white/5", "bg-muted")
    ensures Table(tw)[14] == Lit("bg-white/10", "bg-muted")
    ensures Table(tw)[17] == Rule(tw, "text-foreground")
    ensures Table(tw)[32] == Lit("hover:bg-white/10", "hover:bg-accent")
  {
    TableValid(tw);
    assert Before[13] == MutedBackgrounds[1] && Before[14] == MutedBackgrounds[2];
    assert After[14] == Hovers[0];
  }

  /** The JavaScript and Python copies of the table agree everywhere but rule 17. */
  lemma OnlyTextWhiteDiffers(tw1: Pattern, tw2: Pattern)
    requires TextWhitePattern(tw1) && TextWhitePattern(tw2)
    ensures |Table(tw1)| == |Table(tw2)| == 35
    ensures forall k :: 0 <= k < 35 && k != 17 ==> Table(tw1)[k] == Table(tw2)[k]
  {
    TableValid(tw1);
    TableValid(tw2);
  }

  /** None of the replacements of rules 14 to 31 can recreate a `bg-white/10`. */
  lemma BgWhiteStaysOut(tw: Pattern)
    requires TextWhitePattern(tw)
    ensures forall k :: 14 <= k < 32 ==> NoOverlap("bg-white/10", Table(tw)[k].replacement)
  {
    ClassOverlaps.BgWhiteSlash10VsBgMuted();
    ClassOverlaps.BgWhiteSlash10VsTextForeground();
    ClassOverlaps.BgWhiteSlash10VsTextMutedForeground();
    ClassOverlaps.BgWhiteSlash10VsTextEmerald500();
    ClassOverlaps.BgWhiteSlash10VsBorderBorder();
    ClassOverlaps.BgWhiteSlash10VsBgEmerald600();
  }

  /** `hover:bg-white/10` contains `bg-white/10`. */
  lemma HoverHasBgWhite()
    ensures Contains("hover:bg-white/10", "bg-white/10")
  {
    ContainsSuffix("hover:", "bg-white/10");
    assert "hover:" + "bg-white/10" == "hover:bg-white/10";
  }

  /** The `hover:bg-white/10` rule (32) never matches: rule 14 has already turned every
      `bg-white/10` into `bg-muted`, and no rule in between brings one back. */
  lemma HoverBgWhiteNeverFires(s: string, tw: Pattern)
    requires TextWhitePattern(tw)
    ensures ValidRules(Table(tw))
    ensures Counts(s, Table(tw))[32] == 0
  {
    TableFacts(tw);
    BgWhiteStaysOut(tw);
    HoverHasBgWhite();
    NeverFires(s, Table(tw), 14, 32, "bg-white/10", "hover:bg-white/10");
  }

  /** Rule 14 rewrites the `bg-white/10` inside `hover:bg-white/10`, so the text rule 32
      would have matched reads `hover:bg-muted` from then on. */
  lemma BgWhiteRuleInsideHover(s: string)
    requires s == "hover:bg-white/10"
    ensures Replace(s, Literal("bg-white/10"), "bg-muted") == "hover:bg-muted"
    ensures Count(s, Literal("bg-white/10")) == 1
  {
    var u, w, r := "hover:", "bg-white/10", "bg-muted";
    assert u + w == s;
    assert u + r == "hover:bg-muted";
    MatchAfterPrefix(u, w, r);
  }

  /** Rule 13 (`bg-white/5`) also matches the start of `bg-white/50`, leaving `bg-muted0`. */
  lemma BgWhite5RuleOnPrefix(s: string)
    requires s == "bg-white/50"
    ensures Replace(s, Literal("bg-white/5"), "bg-muted") == "bg-muted0"
    ensures Count(s, Literal("bg-white/5")) == 1
  {
    var w, v, r := "bg-white/5", "0", "bg-muted";
    assert w + v == s;
    assert r + v == "bg-muted0";
    MatchAtStart(w, v, r);
    ShortUnchanged(v, w, r);
  }
}
