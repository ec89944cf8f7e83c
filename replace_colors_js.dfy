/** replace-colors.js: the rules of do-replace.js with the general `bg-[#ffffff]/10` rule
    placed before the `hover:` rule that contains it. Every rule's `count` field is set, and
    the report's total is a reduce over the fields once the loop is done. */
module ReplaceColorsJs {
  import opened Strings
  import opened Rewrite
  import opened Absence
  import opened Engine
  import opened Ordering
  import ClassOverlaps
  import DoReplace

  /** The `replacements` list, in the script's order. */
  const Table: seq<Rule> := [
    Lit("bg-[#0E0E0E]", "bg-card"),
    Lit("border-white/10", "border-border"),
    Lit("border-[#ffffff]/20", "border-foreground/20"),
    Lit("border-[#ffffff]/40", "border-foreground/40"),
    Lit("border-[#ffffff]/50", "border-foreground/50"),
    Lit("bg-[#ffffff]/10", "bg-muted"),
    Lit("hover:bg-[#ffffff]/10", "hover:bg-muted"),
    Lit("hover:shadow-[#ffffff]/10", "hover:shadow-foreground/10"),
    Lit("shadow-[#ffffff]/20", "shadow-foreground/20"),
    Lit("ring-white/10", "ring-border")
  ]

  lemma TableValid()
    ensures ValidRules(Table)
  {
  }

  /** The script: the new text, every rule's `count` field (zeros included, in table order)
      and the reported total, the sum of the fields. */
  method Run(content: string) returns (result: string, counts: seq<nat>, total: nat)
    ensures result == ApplyRules(content, Table)
    ensures counts == Counts(content, Table)
    ensures total == Sum(counts)
  {
    TableValid();
    var fields := new nat[|Table|](_ => 0);
    var running;
    result, running := ApplyCountingEach(content, Table, fields);
    counts := fields[..];
    total := Sum(counts);
  }

  /** `hover:bg-[#ffffff]/10` contains `bg-[#ffffff]/10`. */
  lemma HoverHasBgFfffff()
    ensures Contains("hover:bg-[#ffffff]/10", "bg-[#ffffff]/10")
  {
    ContainsSuffix("hover:", "bg-[#ffffff]/10");
    assert "hover:" + "bg-[#ffffff]/10" == "hover:bg-[#ffffff]/10";
  }

  /** The `hover:bg-[#ffffff]/10` rule always records 0: the general rule just before it has
      already turned every such name into `hover:bg-muted`. */
  lemma HoverBgNeverCounts(s: string)
    ensures Counts(s, Table)[6] == 0
  {
    TableValid();
    ClassOverlaps.BgFfffffSlash10VsBgMuted();
    HoverHasBgFfffff();
    NeverFires(s, Table, 5, 6, "bg-[#ffffff]/10", "hover:bg-[#ffffff]/10");
  }

  /** Rules 0 to 4 contain an `E` (rule 0) or a `d` (the border rules). */
  lemma SkipsFirstRules(s: string)
    requires 'E' !in s && 'd' !in s
    ensures ApplyRules(s, Table[..5]) == s
    ensures forall i :: 0 <= i < 5 ==> Counts(s, Table)[i] == 0
  {
    TableValid();
    assert Table[..0] == [];
    forall i | 0 <= i < 5 ensures !Contains(s, Table[i].pattern.text) {
      AbsentByMissingChar(s, Table[i].pattern.text, if i == 0 then 'E' else 'd');
    }
    UntouchedThrough(s, Table, 0, 5);
  }

  /** Rules 6 to 9 all contain a `/`. */
  lemma SkipsLastRules(s: string)
    requires '/' !in ApplyRules(s, Table[..6])
    ensures ApplyRules(s, Table) == ApplyRules(s, Table[..6])
    ensures forall i :: 6 <= i < |Table| ==> Counts(s, Table)[i] == 0
  {
    TableValid();
    var t := ApplyRules(s, Table[..6]);
    forall i | 6 <= i < 10 ensures !Contains(t, Table[i].pattern.text) {
      AbsentByMissingChar(t, Table[i].pattern.text, '/');
    }
    UntouchedThrough(s, Table, 6, 10);
    assert Table[..10] == Table;
  }

  lemma HoverSpelling()
    ensures "hover:" + "bg-[#ffffff]/10" == "hover:bg-[#ffffff]/10"
    ensures "hover:" + "bg-muted" == "hover:bg-muted"
  {
  }

  /** The general rule rewrites the `bg-[#ffffff]/10` inside `hover:bg-[#ffffff]/10`. */
  lemma GeneralRuleInsideHover(s: string)
    requires s == "hover:bg-[#ffffff]/10"
    ensures Replace(s, Table[5].pattern, Table[5].replacement) == "hover:bg-muted"
    ensures Count(s, Table[5].pattern) == 1
  {
    var u, w, r := "hover:", "bg-[#ffffff]/10", "bg-muted";
    HoverSpelling();
    assert Table[5] == Lit(w, r);
    MatchAfterPrefix(u, w, r);
  }

  /** The characters the skip lemmas look for are missing from the hover class before and
      after the general rule. */
  lemma HoverBgChars()
    ensures 'E' !in "hover:bg-[#ffffff]/10" && 'd' !in "hover:bg-[#ffffff]/10"
    ensures '/' !in "hover:bg-muted"
  {
  }

  /** Rules 0 to 5 on `hover:bg-[#ffffff]/10`: only rule 5 matches. */
  lemma HoverBgThroughGeneralRule(s: string)
    requires s == "hover:bg-[#ffffff]/10"
    ensures ApplyRules(s, Table[..6]) == "hover:bg-muted"
    ensures forall i :: 0 <= i < 6 ==> Counts(s, Table)[i] == if i == 5 then 1 else 0
  {
    TableValid();
    HoverBgChars();
    SkipsFirstRules(s);
    ApplyRulesStep(s, Table, 5);
    GeneralRuleInsideHover(s);
    CountsAt(s, Table, 5);
  }

  /** `hover:bg-[#ffffff]/10` is rewritten by the general rule, not by its own, and ends as
      `hover:bg-muted`. */
  lemma HoverBgRewrittenByGeneralRule(s: string)
    requires s == "hover:bg-[#ffffff]/10"
    ensures ApplyRules(s, Table) == "hover:bg-muted"
    ensures forall i :: 0 <= i < |Table| ==> Counts(s, Table)[i] == if i == 5 then 1 else 0
  {
    HoverBgThroughGeneralRule(s);
    HoverBgChars();
    SkipsLastRules(s);
  }

  /** Both orders leave `hover:bg-[#ffffff]/10` as `hover:bg-muted`; only the rule credited
      with the change differs. */
  lemma HoverBgSameEndText(s: string)
    requires s == "hover:bg-[#ffffff]/10"
    ensures ApplyRules(s, Table) == ApplyRules(s, DoReplace.Table) == "hover:bg-muted"
    ensures Counts(s, Table)[6] == 0 && Counts(s, DoReplace.Table)[0] == 1
  {
    HoverBgRewrittenByGeneralRule(s);
    DoReplace.HoverBgExample(s);
  }
}
