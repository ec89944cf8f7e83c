/** replace-colors-scenarios.py: the same twelve text and ring rules as do-replace-scenarios.js,
    applied with plain `str.replace` in list order, keeping no counts. */
module ReplaceColorsScenariosPy {
  import opened Rewrite
  import opened Engine
  import DoReplaceScenarios

  /** The list of (old, new) pairs, in the script's order. */
  const Table: seq<Rule> := [
    Lit("text-gray-400", "text-muted-foreground"),
    Lit("text-gray-300", "text-foreground"),
    Lit("text-gray-500", "text-muted-foreground"),
    Lit("text-gray-600", "text-muted-foreground"),
    Lit("text-dark-foreground", "text-foreground"),
    Lit("text-dark-primary", "text-foreground"),
    Lit("placeholder-gray-500", "placeholder:text-muted-foreground"),
    Lit("hover:text-dark-foreground", "hover:text-foreground"),
    Lit("hover:text-dark-primary", "hover:text-foreground"),
    Lit("hover:ring-dark-primary/20", "hover:ring-foreground/20"),
    Lit("focus:ring-dark-primary/50", "focus:ring-foreground/50"),
    Lit("ring-dark-primary/20", "ring-foreground/20")
  ]

  /** The script: each pair replaces all occurrences in the result of the pairs before it. */
  method Run(content: string) returns (result: string)
    ensures result == ApplyRules(content, Table)
  {
    DoReplaceScenarios.TableValid();
    result := ApplyAll(content, Table);
  }

  /** The list is do-replace-scenarios.js's table, pair for pair and in the same order, so the
      two scripts leave the same text. */
  lemma SameTableAsDoReplaceScenarios(s: string)
    ensures Table == DoReplaceScenarios.Table
    ensures ApplyRules(s, Table) == ApplyRules(s, DoReplaceScenarios.Table)
  {
  }

  /** The two `hover:text-dark-*` pairs change nothing: the general `text-dark-*` pairs before
      them have already rewritten every such name. */
  lemma HoverPairsAreNoOps(s: string)
    ensures ApplyRules(s, Table[..8]) == ApplyRules(s, Table[..7])
    ensures ApplyRules(s, Table[..9]) == ApplyRules(s, Table[..8])
  {
    DoReplaceScenarios.TableValid();
    DoReplaceScenarios.HoverTextDarkForegroundNeverFires(s);
    DoReplaceScenarios.HoverTextDarkPrimaryNeverFires(s);
    ZeroCountNoChange(s, Table, 7);
    ZeroCountNoChange(s, Table, 8);
  }
}
