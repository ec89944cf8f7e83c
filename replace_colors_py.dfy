/** replace-colors.py: the rules of do-replace.js in the same order; each class name goes
    through `re.escape`, is counted with `findall` on the current text and replaced with
    `re.sub`, and the counts are added up. */
module ReplaceColorsPy {
  import opened Rewrite
  import opened Engine
  import DoReplace

  /** The `replacements` list, in the script's order. */
  const Table: seq<Rule> := [
    Lit("hover:bg-[#ffffff]/10", "hover:bg-muted"),
    Lit("hover:shadow-[#ffffff]/10", "hover:shadow-foreground/10"),
    Lit("shadow-[#ffffff]/20", "shadow-foreground/20"),
    Lit("bg-[#0E0E0E]", "bg-card"),
    Lit("border-[#ffffff]/50", "border-foreground/50"),
    Lit("border-[#ffffff]/40", "border-foreground/40"),
    Lit("border-[#ffffff]/20", "border-foreground/20"),
    Lit("border-white/10", "border-border"),
    Lit("bg-[#ffffff]/10", "bg-muted"),
    Lit("ring-white/10", "ring-border")
  ]

  /** The script: the new text and the total of the counts. */
  method Run(content: string) returns (result: string, total: nat)
    ensures result == ApplyRules(content, Table)
    ensures total == Sum(Counts(content, Table))
  {
    DoReplace.TableValid();
    result, total := ApplyCounting(content, Table);
  }

  /** The list is do-replace.js's, so on the same input both scripts leave the same text and
      find the same count for every rule. */
  lemma SameAsDoReplace(s: string)
    ensures Table == DoReplace.Table
    ensures ApplyRules(s, Table) == ApplyRules(s, DoReplace.Table)
    ensures Counts(s, Table) == Counts(s, DoReplace.Table)
  {
  }
}
