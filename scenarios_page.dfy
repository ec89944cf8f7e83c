/** The scenario canvas and the timeline view of src/pages/Scenarios.jsx: elements dragged onto
    the canvas, removed one at a time or cleared, joined into the prompt that is analysed; the
    labels, gaps and duration shown for a timeline; and the reset that switching tabs performs.
    The analysis and timeline requests themselves are not modelled. */
module ScenariosPage {
  import opened Strings

  /** `{ type: 'element', content }`. */
  datatype Element = Element(kind: string, content: string)

  /** `elements.filter((_, i) => i !== index)`, by position from the end. */
  function RemoveIndex(elements: seq<Element>, index: int): seq<Element>
    decreases |elements|
  {
    if elements == [] then []
    else
      var last := |elements| - 1;
      RemoveIndex(elements[..last], index) + (if last != index then [elements[last]] else [])
  }

  /** The element at `index` goes and the others keep their order; any other index removes
      nothing. */
  lemma {:induction false} RemoveIndexSpec(elements: seq<Element>, index: int)
    ensures 0 <= index < |elements| ==> RemoveIndex(elements, index) == elements[..index] + elements[index + 1..]
    ensures !(0 <= index < |elements|) ==> RemoveIndex(elements, index) == elements
    decreases |elements|
  {
    if elements != [] {
      var last := |elements| - 1;
      var init := elements[..last];
      RemoveIndexSpec(init, index);
      if 0 <= index < last {
        assert init[..index] == elements[..index];
        assert init[index + 1..] + [elements[last]] == elements[index + 1..];
      } else if index == last {
        assert elements[index + 1..] == [];
      } else {
        assert init + [elements[last]] == elements;
      }
    }
  }

  /** The Analyze button is disabled on an empty canvas and while a request is running. */
  predicate AnalyzeDisabled(elements: seq<Element>, loading: bool) {
    |elements| == 0 || loading
  }

  function Contents(elements: seq<Element>): (r: seq<string>)
    ensures |r| == |elements|
    ensures forall i :: 0 <= i < |elements| ==> r[i] == elements[i].content
  {
    seq(|elements|, i requires 0 <= i < |elements| => elements[i].content)
  }

  /** `elements.map(e => e.content).join(', ')`. */
  function Prompt(elements: seq<Element>): string {
    Join(Contents(elements), ", ")
  }

  /** Joining one more field adds the separator and the field at the end. */
  lemma {:induction false} JoinSnoc(fields: seq<string>, sep: string, f: string)
    requires fields != []
    ensures Join(fields + [f], sep) == Join(fields, sep) + sep + f
    decreases |fields|
  {
    var g := fields + [f];
    assert g[0] == fields[0];
    if |fields| == 1 {
      assert g[1..] == [f];
    } else {
      assert g[1..] == fields[1..] + [f];
      JoinSnoc(fields[1..], sep, f);
    }
  }

  /** The prompt grows with the canvas: one element is its content alone, and each element
      dropped after it adds ", " and its content. */
  lemma PromptGrows(elements: seq<Element>, e: Element)
    ensures Prompt([e]) == e.content
    ensures elements != [] ==> Prompt(elements + [e]) == Prompt(elements) + ", " + e.content
  {
    assert Contents([e]) == [e.content];
    if elements != [] {
      assert Contents(elements + [e]) == Contents(elements) + [e.content];
      JoinSnoc(Contents(elements), ", ", e.content);
    }
  }

  /** One event of a timeline. */
  datatype Event = Event(day: int, event: string)

  /** The label of the event at `index` of `n`: the first is "Start" even when it is also the
      last, the last of two or more is "End", the rest "Progress". */
  function TimelineLabel(index: int, n: int): (text: string)
    ensures text == "Start" <==> index == 0
    ensures text == "End" <==> index != 0 && index == n - 1
    ensures text == "Start" || text == "End" || text == "Progress"
  {
    if index == 0 then "Start" else if index == n - 1 then "End" else "Progress"
  }

  /** A timeline of at least two events has exactly one "Start" and one "End"; a timeline of
      one event has no "End". */
  lemma OneStartOneEnd(n: int, i: int)
    requires 0 <= i < n
    ensures n >= 2 ==> (TimelineLabel(i, n) == "End" <==> i == n - 1)
    ensures n == 1 ==> TimelineLabel(i, n) == "Start"
  {
  }

  /** The days to the next event, `timelineData[index + 1].day - item.day`. */
  function Gap(events: seq<Event>, index: int): int
    requires 0 <= index < |events| - 1
  {
    events[index + 1].day - events[index].day
  }

  /** "day" followed by an "s" exactly when the gap is more than one. */
  function DayWord(gap: int): (w: string)
    ensures w == "days" <==> gap > 1
    ensures w == "day" <==> gap <= 1
  {
    "day" + (if gap > 1 then "s" else "")
  }

  /** The gaps telescope: the gaps from event `i` on add up to the last day minus day `i`, so the
      shown gaps of a timeline sum to its span. */
  lemma {:induction false} GapsTelescope(events: seq<Event>, i: int)
    requires 0 <= i < |events|
    ensures GapSum(events, i) == events[|events| - 1].day - events[i].day
    decreases |events| - i
  {
    if i < |events| - 1 {
      GapsTelescope(events, i + 1);
    }
  }

  function GapSum(events: seq<Event>, i: int): int
    requires 0 <= i < |events|
    decreases |events| - i
  {
    if i == |events| - 1 then 0 else Gap(events, i) + GapSum(events, i + 1)
  }

  /** `Math.max(...timelineData.map(item => item.day))`, shown only for a non-empty timeline. */
  function MaxDay(events: seq<Event>): (m: int)
    requires events != []
    ensures forall i :: 0 <= i < |events| ==> events[i].day <= m
    ensures exists i :: 0 <= i < |events| && events[i].day == m
    decreases |events|
  {
    if |events| == 1 then events[0].day
    else
      var rest := MaxDay(events[1..]);
      assert forall i :: 1 <= i < |events| ==> events[i] == events[1..][i - 1];
      if events[0].day >= rest then events[0].day else rest
  }

  /** The canvas and the state the tab switch resets. */
  class Canvas {
    var elements: seq<Element>
    var draggedItem: Option<string>
    var activeTab: string
    var aiResponse: string
    var inputScenario: string
    var loading: bool

    constructor ()
      ensures elements == [] && draggedItem == None && activeTab == "whatif"
      ensures aiResponse == "" && inputScenario == "" && !loading
    {
      elements := [];
      draggedItem := None;
      activeTab := "whatif";
      aiResponse := "";
      inputScenario := "";
      loading := false;
    }

    /** `handleDragStart`. */
    method DragStart(item: string)
      modifies this
      ensures draggedItem == Some(item)
      ensures elements == old(elements) && activeTab == old(activeTab) && aiResponse == old(aiResponse)
      ensures inputScenario == old(inputScenario) && loading == old(loading)
    {
      draggedItem := Some(item);
    }

    /** `handleDrop`: with a (non-empty) item being dragged, it is added at the end of the canvas
        and the drag ends; otherwise nothing changes. */
    method Drop()
      modifies this
      ensures old(draggedItem).Some? && old(draggedItem).value != "" ==>
        elements == old(elements) + [Element("element", old(draggedItem).value)] && draggedItem == None
      ensures !(old(draggedItem).Some? && old(draggedItem).value != "") ==>
        elements == old(elements) && draggedItem == old(draggedItem)
      ensures activeTab == old(activeTab) && aiResponse == old(aiResponse)
      ensures inputScenario == old(inputScenario) && loading == old(loading)
    {
      if draggedItem.Some? && draggedItem.value != "" {
        elements := elements + [Element("element", draggedItem.value)];
        draggedItem := None;
      }
    }

    /** The remove button of the element at `index`. */
    method Remove(index: int)
      modifies this
      ensures elements == RemoveIndex(old(elements), index)
      ensures draggedItem == old(draggedItem) && activeTab == old(activeTab) && aiResponse == old(aiResponse)
      ensures inputScenario == old(inputScenario) && loading == old(loading)
    {
      elements := RemoveIndex(elements, index);
    }

    /** Clear Canvas. */
    method Clear()
      modifies this
      ensures elements == []
      ensures draggedItem == old(draggedItem) && activeTab == old(activeTab) && aiResponse == old(aiResponse)
      ensures inputScenario == old(inputScenario) && loading == old(loading)
    {
      elements := [];
    }

    /** A tab click: the new tab, with the AI response and the scenario input cleared. */
    method SwitchTab(key: string)
      modifies this
      ensures activeTab == key && aiResponse == "" && inputScenario == ""
      ensures elements == old(elements) && draggedItem == old(draggedItem) && loading == old(loading)
    {
      activeTab := key;
      aiResponse := "";
      inputScenario := "";
    }
  }
}
