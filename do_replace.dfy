/** do-replace.js: ten rules, specific ones first, each escaped into a global regex; every
    rule's `count` field is set to its number of matches (zero included) just before the rule
    replaces them, and the total of all counts is reported. */
module DoReplace {
  import opened Strings
  import opened Rewrite
  import opened Absence
  import opened Engine
  import opened Ordering
  import ClassOverlaps

  /** The `replacements` list, in the script's order: the hover and shadow rules come before
      the general rules they contain. */
  const Table: seq<Rule> := [
    Lit("hover:bg-[#ffffff]/10", "hover:bg-muted"),
    Lit("hover:shadow-[#ffffff]/10", "hover:shadow-foreground/10"),
    Lit("shadow-[#ffffff]/20", "shadow-foreground/20"),
    Lit("bg-[#0E0E0E]", "bg-card"),
    Lit("border-[#ffffff]/50", "border-foreground/50"),
    Lit("border-[#ffffff]/40", "border-foreground/40"),
    Lit("border-[#ffffff]/20", "border-foreground/20"),
    Lit("border-white/10", "border-border"),
    Lit("bg-[#ffffff]/10", "bg-muted"),
    Lit("ring-white/10", "ring-border")
  ]

  lemma TableValid()
    ensures ValidRules(Table)
  {
  }

  /** The script: the new text, the `count` field of every rule in table order, and the total,
      which is the sum of all the counts. */
  method Run(content: string) returns (result: string, counts: seq<nat>, total: nat)
    ensures result == ApplyRules(content, Table)
    ensures counts == Counts(content, Table)
    ensures total == Sum(counts)
  {
    TableValid();
    var fields := new nat[|Table|](_ => 0);
    result, total := ApplyCountingEach(content, Table, fields);
    counts := fields[..];
  }

  /** The replacements of rules 0 to 7 cannot recreate `hover:bg-[#ffffff]/10`. */
  lemma HoverBgStaysOut()
    ensures forall k :: 0 <= k < 8 ==> NoOverlap("hover:bg-[#ffffff]/10", Table[k].replacement)
  {
    ClassOverlaps.HoverBgFfffffSlash10VsHoverBgMuted();
    ClassOverlaps.HoverBgFfffffSlash10VsHoverShadowForegroundSlash10();
    ClassOverlaps.HoverBgFfffffSlash10VsShadowForegroundSlash20();
    ClassOverlaps.HoverBgFfffffSlash10VsBgCard();
    ClassOverlaps.HoverBgFfffffSlash10VsBorderForegroundSlash50();
    ClassOverlaps.HoverBgFfffffSlash10VsBorderForegroundSlash40();
    ClassOverlaps.HoverBgFfffffSlash10VsBorderForegroundSlash20();
    ClassOverlaps.HoverBgFfffffSlash10VsBorderBorder();
  }

  /** The hover rule counts the hover occurrences of the input itself, and the general
      `bg-[#ffffff]/10` rule never sees a `hover:bg-[#ffffff]/10`. */
  lemma HoverHandledFirst(s: string)
    ensures Counts(s, Table)[0] == Count(s, Literal("hover:bg-[#ffffff]/10"))
    ensures !Contains(ApplyRules(s, Table[..8]), "hover:bg-[#ffffff]/10")
  {
    TableValid();
    assert Table[..0] == [];
    CountsAt(s, Table, 0);
    HoverBgStaysOut();
    RemovedAt(s, Table, 0, "hover:bg-[#ffffff]/10");
    AbsentThrough(s, Table, 1, 8, "hover:bg-[#ffffff]/10");
  }

  /** Rules 1 to 9 all contain a `/` except rule 3, which contains a `#`: a text with neither
      after rule 0 passes them unchanged. */
  lemma SkipsLaterRules(s: string)
    requires '/' !in ApplyRules(s, Table[..1]) && '#' !in ApplyRules(s, Table[..1])
    ensures ApplyRules(s, Table) == ApplyRules(s, Table[..1])
    ensures forall i :: 1 <= i < |Table| ==> Counts(s, Table)[i] == 0
  {
    TableValid();
    var t := ApplyRules(s, Table[..1]);
    forall i | 1 <= i < 10 ensures !Contains(t, Table[i].pattern.text) {
      AbsentByMissingChar(t, Table[i].pattern.text, if i == 3 then '#' else '/');
    }
    UntouchedThrough(s, Table, 1, 10);
    assert Table[..10] == Table;
  }

  /** `hover:bg-muted` has neither a `/` nor a `#`. */
  lemma HoverBgMutedChars()
    ensures '/' !in "hover:bg-muted" && '#' !in "hover:bg-muted"
  {
  }

  /** `hover:bg-[#ffffff]/10` becomes `hover:bg-muted`, counted once, by the hover rule. */
  lemma HoverBgExample(s: string)
    requires s == "hover:bg-[#ffffff]/10"
    ensures ApplyRules(s, Table) == "hover:bg-muted"
    ensures forall i :: 0 <= i < |Table| ==> Counts(s, Table)[i] == if i == 0 then 1 else 0
  {
    TableValid();
    assert Table[..0] == [];
    ApplyRulesStep(s, Table, 0);
    WholeMatch(s, "hover:bg-muted");
    CountsAt(s, Table, 0);
    HoverBgMutedChars();
    SkipsLaterRules(s);
  }
}
