/** replace-colors-scenarios.js: twelve chained global replacements written out one per line.
    The regex literals contain no operator (the only escape is `\/`, a plain slash), so each
    line replaces a class name taken literally. */
module ReplaceColorsScenariosJs {
  import opened Strings
  import opened Rewrite
  import opened Engine
  import DoReplaceScenarios
  import ReplaceColorsScenariosPy

  /** The script, line by line: it computes the same text as replace-colors-scenarios.py. */
  method Run(content: string) returns (result: string)
    ensures result == ApplyRules(content, ReplaceColorsScenariosPy.Table)
  {
    ghost var t := ReplaceColorsScenariosPy.Table;
    DoReplaceScenarios.TableValid();
    assert t[..0] == [];
    result := content;
    result := Replace(result, Literal("text-gray-400"), "text-muted-foreground");
    ApplyRulesStep(content, t, 0);
    result := Replace(result, Literal("text-gray-300"), "text-foreground");
    ApplyRulesStep(content, t, 1);
    result := Replace(result, Literal("text-gray-500"), "text-muted-foreground");
    ApplyRulesStep(content, t, 2);
    result := Replace(result, Literal("text-gray-600"), "text-muted-foreground");
    ApplyRulesStep(content, t, 3);
    result := Replace(result, Literal("text-dark-foreground"), "text-foreground");
    ApplyRulesStep(content, t, 4);
    result := Replace(result, Literal("text-dark-primary"), "text-foreground");
    ApplyRulesStep(content, t, 5);
    result := Replace(result, Literal("placeholder-gray-500"), "placeholder:text-muted-foreground");
    ApplyRulesStep(content, t, 6);
    result := Replace(result, Literal("hover:text-dark-foreground"), "hover:text-foreground");
    ApplyRulesStep(content, t, 7);
    result := Replace(result, Literal("hover:text-dark-primary"), "hover:text-foreground");
    ApplyRulesStep(content, t, 8);
    result := Replace(result, Literal("hover:ring-dark-primary/20"), "hover:ring-foreground/20");
    ApplyRulesStep(content, t, 9);
    result := Replace(result, Literal("focus:ring-dark-primary/50"), "focus:ring-foreground/50");
    ApplyRulesStep(content, t, 10);
    result := Replace(result, Literal("ring-dark-primary/20"), "ring-foreground/20");
    ApplyRulesStep(content, t, 11);
    assert t[..12] == t;
  }

  /** The `hover:text-dark-foreground` line can never match: the `text-dark-foreground` line
      before it has rewritten every occurrence, and nothing in between brings one back. */
  lemma HoverTextDarkForegroundLineNeverMatches(s: string)
    ensures Count(ApplyRules(s, ReplaceColorsScenariosPy.Table[..7]), Literal("hover:text-dark-foreground")) == 0
  {
    DoReplaceScenarios.TableValid();
    DoReplaceScenarios.HoverTextDarkForegroundNeverFires(s);
    CountsAt(s, DoReplaceScenarios.Table, 7);
  }
}
