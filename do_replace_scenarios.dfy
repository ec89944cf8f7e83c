/** do-replace-scenarios.js: twelve text and ring class rules run in order over one page,
    adding each rule's match count to a running total. */
module DoReplaceScenarios {
  import opened Strings
  import opened Rewrite
  import opened Absence
  import opened Engine
  import opened Ordering
  import ClassOverlaps

  /** The table, in the script's order. */
  const Table: seq<Rule> := [
    Lit("text-gray-400", "text-muted-foreground"),
    Lit("text-gray-300", "text-foreground"),
    Lit("text-gray-500", "text-muted-foreground"),
    Lit("text-gray-600", "text-muted-foreground"),
    Lit("text-dark-foreground", "text-foreground"),
    Lit("text-dark-primary", "text-foreground"),
    Lit("placeholder-gray-500", "placeholder:text-muted-foreground"),
    Lit("hover:text-dark-foreground", "hover:text-foreground"),
    Lit("hover:text-dark-primary", "hover:text-foreground"),
    Lit("hover:ring-dark-primary/20", "hover:ring-foreground/20"),
    Lit("focus:ring-dark-primary/50", "focus:ring-foreground/50"),
    Lit("ring-dark-primary/20", "ring-foreground/20")
  ]

  /** The script: the page text after all rules and the total it reports. */
  method Run(content: string) returns (result: string, total: nat)
    ensures result == ApplyRules(content, Table)
    ensures total == Sum(Counts(content, Table))
  {
    result, total := ApplyCounting(content, Table);
  }

  lemma TableValid()
    ensures ValidRules(Table)
  {
  }

  /** The replacements of rules 4 to 6 cannot recreate `text-dark-foreground`. */
  lemma TextDarkForegroundStaysOut()
    ensures forall k :: 4 <= k < 7 ==> NoOverlap("text-dark-foreground", Table[k].replacement)
  {
    ClassOverlaps.TextDarkForegroundVsTextForeground();
    ClassOverlaps.TextDarkForegroundVsPlaceholderTextMutedForeground();
  }

  /** The replacements of rules 5 to 7 cannot recreate `text-dark-primary`. */
  lemma TextDarkPrimaryStaysOut()
    ensures forall k :: 5 <= k < 8 ==> NoOverlap("text-dark-primary", Table[k].replacement)
  {
    ClassOverlaps.TextDarkPrimaryVsTextForeground();
    ClassOverlaps.TextDarkPrimaryVsPlaceholderTextMutedForeground();
    ClassOverlaps.TextDarkPrimaryVsHoverTextForeground();
  }

  /** `hover:text-dark-foreground` contains `text-dark-foreground`. */
  lemma HoverHasTextDarkForeground()
    ensures Contains("hover:text-dark-foreground", "text-dark-foreground")
  {
    ContainsSuffix("hover:", "text-dark-foreground");
    assert "hover:" + "text-dark-foreground" == "hover:text-dark-foreground";
  }

  /** The `hover:text-dark-foreground` rule always counts 0: the general `text-dark-foreground`
      rule before it has already turned every such name into `hover:text-foreground`. */
  lemma HoverTextDarkForegroundNeverFires(s: string)
    ensures Counts(s, Table)[7] == 0
  {
    TableValid();
    TextDarkForegroundStaysOut();
    HoverHasTextDarkForeground();
    NeverFires(s, Table, 4, 7, "text-dark-foreground", "hover:text-dark-foreground");
  }

  /** `hover:text-dark-primary` contains `text-dark-primary`. */
  lemma HoverHasTextDarkPrimary()
    ensures Contains("hover:text-dark-primary", "text-dark-primary")
  {
    ContainsSuffix("hover:", "text-dark-primary");
    assert "hover:" + "text-dark-primary" == "hover:text-dark-primary";
  }

  /** The `hover:text-dark-primary` rule always counts 0, for the same reason. */
  lemma HoverTextDarkPrimaryNeverFires(s: string)
    ensures Counts(s, Table)[8] == 0
  {
    TableValid();
    TextDarkPrimaryStaysOut();
    HoverHasTextDarkPrimary();
    NeverFires(s, Table, 5, 8, "text-dark-primary", "hover:text-dark-primary");
  }

  /** The replacements of rules 9 and 10 cannot recreate `hover:ring-dark-primary/20`. */
  lemma HoverRingStaysOut()
    ensures forall k :: 9 <= k < 11 ==> NoOverlap("hover:ring-dark-primary/20", Table[k].replacement)
  {
    ClassOverlaps.HoverRingDarkPrimarySlash20VsHoverRingForegroundSlash20();
    ClassOverlaps.HoverRingDarkPrimarySlash20VsFocusRingForegroundSlash50();
  }

  /** `hover:ring-dark-primary/20` is consumed by its own rule: the general
      `ring-dark-primary/20` rule never sees it. */
  lemma HoverRingConsumedFirst(s: string)
    ensures !Contains(ApplyRules(s, Table[..11]), "hover:ring-dark-primary/20")
  {
    TableValid();
    HoverRingStaysOut();
    RemovedAt(s, Table, 9, "hover:ring-dark-primary/20");
    AbsentThrough(s, Table, 10, 11, "hover:ring-dark-primary/20");
  }

  /** `placeholder-gray-500` does not contain `text-gray-500`, so rule 2 cannot touch it. */
  lemma PlaceholderNotATextClass()
    ensures !Contains("placeholder-gray-500", "text-gray-500")
  {
    AbsentByMissingChar("placeholder-gray-500", "text-gray-500", 't');
  }

  /** The text rules before rule 6 all contain a `t`: a text without one passes them unchanged. */
  lemma SkipsTextRules(s: string)
    requires 't' !in s
    ensures ApplyRules(s, Table[..6]) == s
    ensures forall i :: 0 <= i < 6 ==> Counts(s, Table)[i] == 0
  {
    TableValid();
    assert Table[..0] == [];
    forall i | 0 <= i < 6 ensures !Contains(s, Table[i].pattern.text) {
      AbsentByMissingChar(s, Table[i].pattern.text, 't');
    }
    UntouchedThrough(s, Table, 0, 6);
  }

  /** The rules after rule 6 all contain a `k`: a text without one there passes them unchanged. */
  lemma SkipsLaterRules(s: string)
    requires 'k' !in ApplyRules(s, Table[..7])
    ensures ApplyRules(s, Table) == ApplyRules(s, Table[..7])
    ensures forall i :: 7 <= i < 12 ==> Counts(s, Table)[i] == 0
  {
    TableValid();
    var t := ApplyRules(s, Table[..7]);
    forall i | 7 <= i < 12 ensures !Contains(t, Table[i].pattern.text) {
      AbsentByMissingChar(t, Table[i].pattern.text, 'k');
    }
    UntouchedThrough(s, Table, 7, 12);
    assert Table[..12] == Table;
  }

  /** The characters the skip lemmas look for are missing from the placeholder class before
      and after its rule. */
  lemma PlaceholderSpelling()
    ensures 't' !in "placeholder-gray-500"
    ensures 'k' !in "placeholder:text-muted-foreground"
  {
  }

  /** Rule 6 turns the whole of `placeholder-gray-500` into `placeholder:text-muted-foreground`. */
  lemma PlaceholderOwnRule(s: string)
    requires s == "placeholder-gray-500"
    ensures ApplyRules(s, Table[..7]) == "placeholder:text-muted-foreground"
    ensures Counts(s, Table)[6] == 1
  {
    TableValid();
    PlaceholderSpelling();
    SkipsTextRules(s);
    ApplyRulesStep(s, Table, 6);
    WholeMatch(s, "placeholder:text-muted-foreground");
    CountsAt(s, Table, 6);
  }

  /** `placeholder-gray-500` is left alone by the text rules before it, rewritten by its own
      rule, and left alone by the rules after it. */
  lemma PlaceholderRewrittenOnlyByItsRule(s: string)
    requires s == "placeholder-gray-500"
    ensures ApplyRules(s, Table) == "placeholder:text-muted-foreground"
    ensures forall i :: 0 <= i < |Table| ==> Counts(s, Table)[i] == if i == 6 then 1 else 0
  {
    TableValid();
    PlaceholderSpelling();
    SkipsTextRules(s);
    PlaceholderOwnRule(s);
    SkipsLaterRules(s);
  }
}
