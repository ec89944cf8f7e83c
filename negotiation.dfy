/** The negotiation assistant of src/pages/Negotiation_old_backup.jsx: how `callGemini` turns a
    model reply into the response shown and, for a real answer, a new history entry put first; how
    `analyzePowerDynamics` falls back to an even 50/50 reading when the call, the pattern or the
    parse fails, and stores an object without positions when the parse succeeds on `{}`; and the
    reset a tab click performs. The API key, the model's reply, the parse of its JSON and today's date are
    parameters. */
module Negotiation {
  import opened Strings

  datatype Tab = Tab(key: string, title: string)

  const Tabs: seq<Tab> := [
    Tab("counter", "Counter-Proposal"), Tab("playbook", "Playbook"), Tab("email", "Email Draft"),
    Tab("power", "Power Analysis"), Tab("winwin", "Win-Win"), Tab("history", "History")]

  /** `TABS.find(tab => tab.key === key)?.label`. */
  function FindLabel(tabs: seq<Tab>, key: string): (r: Option<string>)
    ensures r.Some? <==> exists i :: 0 <= i < |tabs| && tabs[i].key == key
    ensures r.Some? ==> exists i :: 0 <= i < |tabs| && tabs[i].key == key && tabs[i].title == r.value
    decreases |tabs|
  {
    if tabs == [] then None
    else if tabs[0].key == key then Some(tabs[0].title)
    else
      var r := FindLabel(tabs[1..], key);
      assert forall i :: 1 <= i < |tabs| ==> tabs[i] == tabs[1..][i - 1];
      r
  }

  datatype HistoryEntry = HistoryEntry(id: int, date: string, kind: string, outcome: string, details: string)

  /** Ids are 1 .. the number of entries, each used once. */
  predicate IdsValid(history: seq<HistoryEntry>) {
    (forall i :: 0 <= i < |history| ==> 1 <= history[i].id <= |history|) &&
    (forall i, j :: 0 <= i < j < |history| ==> history[i].id != history[j].id)
  }

  /** Putting an entry numbered one past the length in front keeps the ids valid. */
  lemma PrependKeepsIdsValid(history: seq<HistoryEntry>, e: HistoryEntry)
    requires IdsValid(history) && e.id == |history| + 1
    ensures IdsValid([e] + history)
  {
    var h := [e] + history;
    assert forall i :: 1 <= i < |h| ==> h[i] == history[i - 1];
  }

  const Placeholder: string := "No response generated."

  /** The response text: the model's text, or the placeholder when it gave none. */
  function ResponseText(text: string): (r: string)
    ensures r != ""
    ensures r == Placeholder <==> text == "" || text == Placeholder
  {
    if text != "" then text else Placeholder
  }

  /** `typeLabel || TABS.find(...)?.label || 'Unknown'`. */
  function EntryKind(typeLabel: Option<string>, activeTab: string): (k: string)
    ensures typeLabel.Some? && typeLabel.value != "" ==> k == typeLabel.value
  {
    if typeLabel.Some? && typeLabel.value != "" then typeLabel.value
    else
      var found := FindLabel(Tabs, activeTab);
      if found.Some? && found.value != "" then found.value else "Unknown"
  }

  /** Without a type label, the kind is the active tab's label, and "Unknown" only for a key no
      tab has. */
  lemma EntryKindFromTab(activeTab: string)
    ensures EntryKind(None, activeTab) == "Unknown" <==> forall i :: 0 <= i < |Tabs| ==> Tabs[i].key != activeTab
  {
    var found := FindLabel(Tabs, activeTab);
    if found.Some? {
      var i :| 0 <= i < |Tabs| && Tabs[i].key == activeTab && Tabs[i].title == found.value;
      TabTitlesKnown(i);
    }
  }

  /** No tab is titled "" or "Unknown". */
  lemma TabTitlesKnown(i: int)
    requires 0 <= i < |Tabs|
    ensures Tabs[i].title != "" && Tabs[i].title != "Unknown"
  {
    var t := Tabs[i].title;
    assert t[0] != 'U' || |t| != 7 by {
      assert t in ["Counter-Proposal", "Playbook", "Email Draft", "Power Analysis", "Win-Win", "History"];
    }
  }

  /** `((details ?? inputClause) || '').substring(0, 50) + '...'`. */
  function EntryDetails(details: Option<string>, inputClause: string): string {
    var source := if details.Some? then details.value else inputClause;
    Prefix(source, 50) + "..."
  }

  /** The details are the first 50 characters of their source followed by "...". */
  lemma EntryDetailsShape(details: Option<string>, inputClause: string)
    ensures var source := if details.Some? then details.value else inputClause;
      var r := EntryDetails(details, inputClause);
      |r| == Min(50, |source|) + 3 && |r| <= 53 &&
      StartsWith(source, r[..|r| - 3]) && r[|r| - 3..] == "..."
  {
    var source := if details.Some? then details.value else inputClause;
    var r := EntryDetails(details, inputClause);
    assert r[..|r| - 3] == Prefix(source, 50);
  }

  /** What the model call produced: a (possibly empty) text, or the error it threw. */
  datatype Reply = Answered(text: string) | Failed(message: string)

  /** One side's strength and the reason given for it. */
  datatype Position = Position(strength: int, reasoning: string)

  datatype PowerResult = PowerResult(ours: Position, theirs: Position, recommendations: seq<string>)

  /** The even reading shown when the analysis fails. */
  function Fallback(reason: string, advice: string): (r: PowerResult)
    ensures r.ours.strength == 50 && r.theirs.strength == 50
    ensures r.ours.reasoning == reason && r.theirs.reasoning == reason
  {
    PowerResult(Position(50, reason), Position(50, reason), [advice])
  }

  /** What `JSON.parse` made of the matched span: it threw, it gave an object with both
      positions, or it gave an object without them (such as `{}`). */
  datatype Parsed = ParseThrew | WellFormed(result: PowerResult) | IllShaped

  /** The reply to the power analysis: the error the call threw, or a text together with what
      `JSON.parse` made of its brace span. */
  datatype PowerReply = PowerFailed(message: string) | PowerAnswered(text: string, parsed: Parsed)

  /** What `setPowerAnalysisResult` stores: a result with both positions, or a parsed object
      without them, on which the render's `powerAnalysisResult.ourPosition.strength` throws. */
  datatype Stored = Shown(result: PowerResult) | Shapeless

  /** `text || '{}'`: the text the brace pattern is run on. */
  function ReplyText(text: string): (t: string)
    ensures t != ""
  {
    if text != "" then text else "{}"
  }

  /** `/\{[\s\S]*\}/` matches: some '{' comes before some '}'. */
  predicate HasBraceSpan(t: string) {
    exists i, j :: 0 <= i < j < |t| && t[i] == '{' && t[j] == '}'
  }

  /** An empty reply is read as "{}", which the pattern matches. */
  lemma EmptyReplyHasBraceSpan()
    ensures HasBraceSpan(ReplyText(""))
  {
    assert "{}"[0] == '{' && "{}"[1] == '}';
  }

  /** The parse of the brace span: the text "{}" is its own span and parses to the empty
      object; the parse of any other span is the parameter. */
  function ParseOf(t: string, parsed: Parsed): Parsed {
    if t == "{}" then IllShaped else parsed
  }

  /** What the handler stores for a reply, as written: the fallbacks for a failed call, for a
      text without a brace span and for a span that does not parse, and otherwise whatever the
      parse gave. */
  function PowerOutcome(reply: PowerReply): Stored {
    match reply
    case PowerFailed(message) => Shown(Fallback("API error: " + message, "Please check your API key and connection."))
    case PowerAnswered(text, parsed) =>
      var t := ReplyText(text);
      if !HasBraceSpan(t) then Shown(Fallback("Could not parse analysis", "Please try again with more context."))
      else
        match ParseOf(t, parsed)
        case ParseThrew => Shown(Fallback("Analysis error", "Please try again with a different description."))
        case WellFormed(r) => Shown(r)
        case IllShaped => Shapeless
  }

  /** The reply had no usable analysis in it. */
  predicate IsFailure(reply: PowerReply) {
    !(reply.PowerAnswered? && HasBraceSpan(ReplyText(reply.text)) &&
      ParseOf(ReplyText(reply.text), reply.parsed).WellFormed?)
  }

  /** As written, a failure is shown as an even reading or stored without positions. */
  lemma FailureIsEvenOrShapeless(reply: PowerReply)
    requires IsFailure(reply)
    ensures PowerOutcome(reply).Shown? ==>
      PowerOutcome(reply).result.ours.strength == 50 && PowerOutcome(reply).result.theirs.strength == 50
    ensures PowerOutcome(reply).Shapeless? <==>
      reply.PowerAnswered? && HasBraceSpan(ReplyText(reply.text)) && ParseOf(ReplyText(reply.text), reply.parsed).IllShaped?
  {
  }

  /** As written, a reply with no text, whatever else it carries, is stored as the empty object
      `{}`: no positions, no 50/50 reading, and the render of the result throws. */
  lemma EmptyReplyStoresShapeless(parsed: Parsed)
    ensures PowerOutcome(PowerAnswered("", parsed)) == Shapeless
  {
    EmptyReplyHasBraceSpan();
  }

  /** The evidently intended outcome: a parsed object without positions is treated like a span
      that does not parse. */
  function IntendedOutcome(reply: PowerReply): PowerResult {
    match PowerOutcome(reply)
    case Shown(r) => r
    case Shapeless => Fallback("Analysis error", "Please try again with a different description.")
  }

  /** The intended outcome differs from the code only where the code stores a shapeless object. */
  lemma IntendedAgreesWithCode(reply: PowerReply)
    ensures PowerOutcome(reply).Shown? ==> IntendedOutcome(reply) == PowerOutcome(reply).result
    ensures PowerOutcome(reply).Shapeless? ==> IntendedOutcome(reply).ours.reasoning == "Analysis error"
  {
  }

  /** With the intended outcome, whatever goes wrong (the call, the pattern, the parse or the
      shape of what was parsed), both sides are shown at 50 with one reason. */
  lemma EveryFailureIsEven(reply: PowerReply)
    requires IsFailure(reply)
    ensures IntendedOutcome(reply).ours.strength == 50 && IntendedOutcome(reply).theirs.strength == 50
    ensures IntendedOutcome(reply).ours.reasoning == IntendedOutcome(reply).theirs.reasoning
  {
  }

  /** The page state that the handlers change. */
  class NegotiationPage {
    var activeTab: string
    var inputClause: string
    var aiResponse: string
    var loading: bool
    var history: seq<HistoryEntry>
    var powerAnalysisInput: string
    var powerAnalysisResult: Option<Stored>

    predicate Valid()
      reads this
    {
      IdsValid(history)
    }

    /** The page starts on the Counter-Proposal tab with a history numbered 1 .. n. */
    constructor (initialHistory: seq<HistoryEntry>)
      requires IdsValid(initialHistory)
      ensures Valid()
      ensures activeTab == "counter" && inputClause == "" && aiResponse == "" && !loading
      ensures history == initialHistory && powerAnalysisInput == "" && powerAnalysisResult == None
    {
      activeTab := "counter";
      inputClause := "";
      aiResponse := "";
      loading := false;
      history := initialHistory;
      powerAnalysisInput := "";
      powerAnalysisResult := None;
    }

    /** `callGemini`. `added` says whether a history entry was made. */
    method CallGemini(apiKey: string, reply: Reply, details: Option<string>, typeLabel: Option<string>, today: string)
      returns (added: bool)
      requires Valid()
      modifies this
      ensures Valid()
      ensures apiKey == "" ==> aiResponse == "Error: API key not found"
      ensures apiKey != "" && reply.Failed? ==> aiResponse == "Error: " + reply.message
      ensures apiKey != "" && reply.Answered? ==> aiResponse == ResponseText(reply.text)
      ensures added <==> apiKey != "" && reply.Answered? && ResponseText(reply.text) != Placeholder
      ensures !added ==> history == old(history)
      ensures added ==> (history ==
        [HistoryEntry(|old(history)| + 1, today, EntryKind(typeLabel, activeTab), "Generated",
                      EntryDetails(details, inputClause))] + old(history))
      ensures !loading && activeTab == old(activeTab) && inputClause == old(inputClause)
      ensures powerAnalysisInput == old(powerAnalysisInput) && powerAnalysisResult == old(powerAnalysisResult)
    {
      loading := true;
      aiResponse := "";
      added := false;
      if apiKey == "" {
        aiResponse := "Error: API key not found";
      } else {
        match reply {
          case Failed(message) =>
            aiResponse := "Error: " + message;
          case Answered(text) =>
            var responseText := ResponseText(text);
            aiResponse := responseText;
            if responseText != Placeholder {
              var entry := HistoryEntry(|history| + 1, today, EntryKind(typeLabel, activeTab), "Generated",
                                        EntryDetails(details, inputClause));
              PrependKeepsIdsValid(history, entry);
              history := [entry] + history;
              added := true;
            }
        }
      }
      loading := false;
    }

    /** `analyzePowerDynamics`: nothing happens for an empty input; otherwise what the reply
        yields is stored. */
    method AnalyzePower(reply: PowerReply)
      modifies this
      ensures powerAnalysisInput == "" ==> powerAnalysisResult == old(powerAnalysisResult) && loading == old(loading)
      ensures powerAnalysisInput != "" ==> powerAnalysisResult == Some(PowerOutcome(reply)) && !loading
      ensures powerAnalysisInput != "" && PowerOutcome(reply).Shown? ==>
        powerAnalysisResult == Some(Shown(IntendedOutcome(reply)))
      ensures powerAnalysisInput != "" && reply.PowerAnswered? && reply.text == "" ==> powerAnalysisResult == Some(Shapeless)
      ensures history == old(history) && aiResponse == old(aiResponse) && activeTab == old(activeTab)
      ensures inputClause == old(inputClause) && powerAnalysisInput == old(powerAnalysisInput)
    {
      if powerAnalysisInput == "" {
        return;
      }
      loading := true;
      match reply {
        case PowerFailed(message) =>
          powerAnalysisResult := Some(Shown(Fallback("API error: " + message, "Please check your API key and connection.")));
        case PowerAnswered(text, parsed) =>
          var responseText := if text != "" then text else "{}";
          if !HasBraceSpan(responseText) {
            powerAnalysisResult := Some(Shown(Fallback("Could not parse analysis", "Please try again with more context.")));
          } else {
            match ParseOf(responseText, parsed) {
              case ParseThrew =>
                powerAnalysisResult := Some(Shown(Fallback("Analysis error", "Please try again with a different description.")));
              case WellFormed(r) =>
                powerAnalysisResult := Some(Shown(r));
              case IllShaped =>
                powerAnalysisResult := Some(Shapeless);
            }
          }
      }
      if reply.PowerAnswered? && reply.text == "" {
        EmptyReplyStoresShapeless(reply.parsed);
      }
      loading := false;
    }

    /** A tab click: the new tab, with the response, the clause input and the power analysis
        cleared. */
    method SwitchTab(key: string)
      modifies this
      ensures activeTab == key && aiResponse == "" && inputClause == "" && powerAnalysisResult == None
      ensures history == old(history) && loading == old(loading) && powerAnalysisInput == old(powerAnalysisInput)
    {
      activeTab := key;
      aiResponse := "";
      inputClause := "";
      powerAnalysisResult := None;
    }
  }
}
