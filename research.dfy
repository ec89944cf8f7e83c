/** The result handling of the Research page (src/pages/Research.jsx): CourtListener records are
    turned into result cards (`extractTitle`, `extractUrl`, `formatResults`), a blank query is
    refused before any fetch, and on-demand summaries update one card at a time. A record is a
    map from field names to text; a missing field and an empty one are both falsy for `||`. */
module Research {
  import opened Strings

  type Item = map<string, string>

  /** The field's text, "" when it is missing. */
  function Field(item: Item, key: string): string {
    if key in item then item[key] else ""
  }

  /** `item[k0] || item[k1] || ... || fallback`. */
  function FirstSet(item: Item, keys: seq<string>, fallback: string): (r: string)
    ensures fallback != "" ==> r != ""
    decreases |keys|
  {
    if keys == [] then fallback
    else if Field(item, keys[0]) != "" then Field(item, keys[0])
    else FirstSet(item, keys[1..], fallback)
  }

  /** The chain stops at the first key whose field is set. */
  lemma {:induction false} FirstSetPicksFirst(item: Item, keys: seq<string>, fallback: string, i: int)
    requires 0 <= i < |keys| && Field(item, keys[i]) != ""
    requires forall j :: 0 <= j < i ==> Field(item, keys[j]) == ""
    ensures FirstSet(item, keys, fallback) == Field(item, keys[i])
    decreases i
  {
    if i > 0 {
      assert Field(item, keys[0]) == "";
      FirstSetPicksFirst(item, keys[1..], fallback, i - 1);
    }
  }

  /** The fallback is used when none of the fields is set; when one is, the result is the text
      of a set field. */
  lemma {:induction false} FirstSetFallback(item: Item, keys: seq<string>, fallback: string)
    ensures (forall j :: 0 <= j < |keys| ==> Field(item, keys[j]) == "") ==>
      FirstSet(item, keys, fallback) == fallback
    ensures (exists j :: 0 <= j < |keys| && Field(item, keys[j]) != "") ==>
      exists j :: 0 <= j < |keys| && Field(item, keys[j]) != "" && FirstSet(item, keys, fallback) == Field(item, keys[j])
    decreases |keys|
  {
    if keys != [] {
      FirstSetFallback(item, keys[1..], fallback);
      if Field(item, keys[0]) == "" {
        if exists j :: 0 <= j < |keys| && Field(item, keys[j]) != "" {
          var j :| 0 <= j < |keys| && Field(item, keys[j]) != "";
          assert keys[1..][j - 1] == keys[j];
          var k :| 0 <= k < |keys[1..]| && Field(item, keys[1..][k]) != "" && FirstSet(item, keys[1..], fallback) == Field(item, keys[1..][k]);
          assert keys[k + 1] == keys[1..][k];
        }
        if forall j :: 0 <= j < |keys| ==> Field(item, keys[j]) == "" {
          assert forall j :: 0 <= j < |keys[1..]| ==> keys[1..][j] == keys[j + 1];
        }
      }
    }
  }

  predicate IsCaseType(apiType: string) {
    apiType == "search" || apiType == "opinions" || apiType == "clusters"
  }

  /** The fields `extractTitle` tries, in order, for each API type. */
  function TitleKeys(apiType: string): seq<string> {
    if apiType == "people" then ["name"]
    else if IsCaseType(apiType) then ["caseName", "case_name", "name", "title"]
    else if apiType == "dockets" then ["case_name", "name", "title"]
    else if apiType == "courts" then ["full_name", "name"]
    else if apiType == "audio" then ["case_name", "name", "title"]
    else ["name", "title", "caseName"]
  }

  function TitleFallback(apiType: string): string {
    if IsCaseType(apiType) then "Untitled Case" else "Untitled"
  }

  function ExtractTitle(item: Item, apiType: string): (title: string)
    ensures title != ""
  {
    FirstSet(item, TitleKeys(apiType), TitleFallback(apiType))
  }

  /** People are titled by their name, else "Untitled". */
  lemma PeopleTitle(item: Item)
    ensures ExtractTitle(item, "people") == if Field(item, "name") != "" then Field(item, "name") else "Untitled"
  {
    var keys: seq<string> := ["name"];
    assert TitleKeys("people") == keys && TitleFallback("people") == "Untitled";
    assert keys[1..] == [];
  }

  /** For case searches the title is the first of caseName, case_name, name and title that is
      set. */
  lemma CaseTitle(item: Item, apiType: string, i: int)
    requires IsCaseType(apiType)
    requires 0 <= i < 4 && Field(item, TitleKeys(apiType)[i]) != ""
    requires forall j :: 0 <= j < i ==> Field(item, TitleKeys(apiType)[j]) == ""
    ensures ExtractTitle(item, apiType) == Field(item, TitleKeys(apiType)[i])
  {
    FirstSetPicksFirst(item, TitleKeys(apiType), "Untitled Case", i);
  }

  /** ... and "Untitled Case" when none of them is. */
  lemma CaseTitleUntitled(item: Item, apiType: string)
    requires IsCaseType(apiType)
    requires forall j :: 0 <= j < 4 ==> Field(item, TitleKeys(apiType)[j]) == ""
    ensures ExtractTitle(item, apiType) == "Untitled Case"
  {
    FirstSetFallback(item, TitleKeys(apiType), "Untitled Case");
  }

  const CourtListener: string := "https://www.courtlistener.com"

  /** A URL starting with "http" is kept; anything else is a path on CourtListener. */
  function Absolute(u: string): (r: string)
    ensures StartsWith(r, "http")
  {
    if StartsWith(u, "http") then u else CourtListener + u
  }

  /** `extractUrl`: `absolute_url` first, then `url`, else null. */
  function ExtractUrl(item: Item): Option<string> {
    if Field(item, "absolute_url") != "" then Some(Absolute(Field(item, "absolute_url")))
    else if Field(item, "url") != "" then Some(Absolute(Field(item, "url")))
    else None
  }

  /** The URL is null exactly when neither field is set; otherwise it starts with "http", ends
      with the field it came from, and `absolute_url` wins over `url`. */
  lemma UrlFacts(item: Item)
    ensures ExtractUrl(item).None? <==> Field(item, "absolute_url") == "" && Field(item, "url") == ""
    ensures ExtractUrl(item).Some? ==> StartsWith(ExtractUrl(item).value, "http")
    ensures Field(item, "absolute_url") != "" ==> EndsWith(ExtractUrl(item).value, Field(item, "absolute_url"))
    ensures Field(item, "absolute_url") == "" && Field(item, "url") != "" ==>
      EndsWith(ExtractUrl(item).value, Field(item, "url"))
  {
    AbsoluteEndsWith(Field(item, "absolute_url"));
    AbsoluteEndsWith(Field(item, "url"));
  }

  predicate EndsWith(s: string, t: string) {
    |t| <= |s| && s[|s| - |t|..] == t
  }

  /** The prefix is only ever added in front: the original URL is the end of the result. */
  lemma AbsoluteEndsWith(u: string)
    ensures EndsWith(Absolute(u), u)
    ensures StartsWith(u, "http") <==> Absolute(u) == u
  {
    var r := Absolute(u);
    if !StartsWith(u, "http") {
      assert r[|r| - |u|..] == u;
      assert r != u by {
        assert |r| > |u|;
      }
    }
  }

  /** One result card. `url` is `None` for a JavaScript null. */
  datatype Card = Card(title: string, summary: string, citation: string, court: string, date: string,
                       url: Option<string>, kind: string, raw: Item, summarizing: bool)

  /** The summary line of a person: their title, else "<position> in <school>". */
  function PersonSummary(item: Item): string {
    FirstSet(item, ["title"], FirstSet(item, ["position_title"], "Professional") + " in " +
                              FirstSet(item, ["school_name"], "Legal Field"))
  }

  /** The card `formatResults` builds for one record. */
  function FormatItem(item: Item, apiType: string): Card {
    var title := ExtractTitle(item, apiType);
    if IsCaseType(apiType) then
      Card(title, FirstSet(item, ["summary", "snippet"], ""), Field(item, "citation"),
           Field(item, "court_name"), FirstSet(item, ["date_filed", "date"], ""), ExtractUrl(item),
           apiType, item, false)
    else if apiType == "people" then
      Card(title, PersonSummary(item), Field(item, "id"), "", "", ExtractUrl(item), apiType, item, false)
    else if apiType == "dockets" then
      Card(title, Field(item, "docket_number"), Field(item, "id"), Field(item, "court_name"),
           Field(item, "date_filed"), ExtractUrl(item), apiType, item, false)
    else if apiType == "courts" then
      Card(title, Field(item, "full_name"), Field(item, "id"), "", "", ExtractUrl(item), apiType, item, false)
    else if apiType == "audio" then
      Card(title, Field(item, "description"), Field(item, "id"), "", Field(item, "date_heard"),
           ExtractUrl(item), apiType, item, false)
    else
      Card(title, "", "", "", "", Some(""), apiType, item, false)
  }

  /** `apiResults.map(...)`: one card per record, in order. */
  function FormatResults(items: seq<Item>, apiType: string): (cards: seq<Card>)
    ensures |cards| == |items|
    ensures forall i :: 0 <= i < |items| ==> cards[i] == FormatItem(items[i], apiType)
  {
    seq(|items|, i requires 0 <= i < |items| => FormatItem(items[i], apiType))
  }

  /** Every card carries the requested type, its own record and title, and is not being
      summarised. */
  lemma CardsFollowRecords(items: seq<Item>, apiType: string)
    ensures forall i :: 0 <= i < |items| ==>
      var c := FormatResults(items, apiType)[i];
      c.kind == apiType && c.raw == items[i] && !c.summarizing &&
      c.title == ExtractTitle(items[i], apiType) && c.title != ""
  {
  }

  /** What the CourtListener fetch gave back. */
  datatype Fetch = Fetched(items: seq<Item>) | FetchFailed(message: string)

  /** What the summary request gave back: a text (possibly empty) or an exception. */
  datatype SummaryReply = Answered(text: string) | SummaryFailed

  /** The card at `idx` marked as being summarised; the others as they were. */
  function MarkSummarizing(cards: seq<Card>, idx: int): (r: seq<Card>)
    ensures |r| == |cards|
  {
    seq(|cards|, i requires 0 <= i < |cards| => if i == idx then cards[i].(summarizing := true) else cards[i])
  }

  /** The summary text stored for a reply. */
  function SummaryText(reply: SummaryReply): (s: string)
    ensures s != ""
  {
    match reply
    case Answered(text) => if text != "" then text else "Could not generate summary"
    case SummaryFailed => "Summarization failed"
  }

  /** The card at `idx` with its summary in place; the others as they were. */
  function StoreSummary(cards: seq<Card>, idx: int, reply: SummaryReply): (r: seq<Card>)
    ensures |r| == |cards|
  {
    seq(|cards|, i requires 0 <= i < |cards| =>
      if i == idx then cards[i].(summary := SummaryText(reply), summarizing := false) else cards[i])
  }

  /** A summary round changes the card at `idx` only, and there only its summary, which ends
      as the reply's text; an index outside the list changes nothing. */
  lemma SummaryTouchesOneCard(cards: seq<Card>, idx: int, reply: SummaryReply)
    ensures forall i :: 0 <= i < |cards| && i != idx ==> StoreSummary(MarkSummarizing(cards, idx), idx, reply)[i] == cards[i]
    ensures 0 <= idx < |cards| ==>
      StoreSummary(MarkSummarizing(cards, idx), idx, reply)[idx] == cards[idx].(summary := SummaryText(reply), summarizing := false)
    ensures !(0 <= idx < |cards|) ==> StoreSummary(MarkSummarizing(cards, idx), idx, reply) == cards
  {
  }

  const BlankQueryError: string := "Please enter a search query"
  const NoResultsError: string := "No results found. Try a different query or API type."
  const SearchFailedError: string := "Search failed. Check your API keys and try again."

  /** The state of the page that the handlers change. */
  class ResearchPage {
    var query: string
    var apiType: string
    var results: seq<Card>
    var error: Option<string>
    var loading: bool

    constructor ()
      ensures query == "" && apiType == "search" && results == [] && error == None && !loading
    {
      query := "";
      apiType := "search";
      results := [];
      error := None;
      loading := false;
    }

    /** `handleResearch`. The fetch is the parameter; `fetched` says whether it was made. A
        blank query is refused before fetching. */
    method Search(fetch: Fetch) returns (fetched: bool)
      modifies this
      ensures fetched <==> Trim(query) != ""
      ensures !fetched ==> error == Some(BlankQueryError) && results == []
      ensures fetched && fetch == Fetched([]) ==> error == Some(NoResultsError) && results == []
      ensures fetched && fetch.Fetched? && fetch.items != [] ==>
        error == None && results == FormatResults(fetch.items, apiType)
      ensures fetched && fetch.FetchFailed? ==>
        results == [] &&
        error == Some(if fetch.message != "" then fetch.message else SearchFailedError)
      ensures !loading && query == old(query) && apiType == old(apiType)
    {
      loading := true;
      error := None;
      results := [];
      if Trim(query) == "" {
        error := Some(BlankQueryError);
        loading := false;
        return false;
      }
      fetched := true;
      match fetch {
        case FetchFailed(message) =>
          error := Some(if message != "" then message else SearchFailedError);
        case Fetched(items) =>
          if |items| == 0 {
            error := Some(NoResultsError);
          } else {
            results := FormatResults(items, apiType);
          }
      }
      loading := false;
    }

    /** The first half of `handleSummarize`: mark the card as being summarised. */
    method StartSummary(idx: int)
      modifies this
      ensures results == MarkSummarizing(old(results), idx)
      ensures query == old(query) && apiType == old(apiType) && error == old(error) && loading == old(loading)
    {
      results := MarkSummarizing(results, idx);
    }

    /** The second half: store the summary (or the failure text) and clear the mark. */
    method FinishSummary(idx: int, reply: SummaryReply)
      modifies this
      ensures results == StoreSummary(old(results), idx, reply)
      ensures query == old(query) && apiType == old(apiType) && error == old(error) && loading == old(loading)
    {
      results := StoreSummary(results, idx, reply);
    }
  }
}
