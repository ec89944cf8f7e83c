/** The approval-workflow panel of src/components/collaboration/ApprovalWorkflow.jsx: the form
    that adds a step (its guard, the comma-separated approvers, the reset afterwards), the text
    shown for a step's status, and the upper-case badge label. The handler only logs the step it
    would add; the logged step is the method's result. */
module ApprovalWorkflow {
  import opened Strings

  /** `t.trim() === ''`. */
  predicate Blank(t: string) {
    Trim(t) == ""
  }

  /** The input the form refuses: `handleAddStep` returns early on it, and the Add button is
      disabled for it. */
  predicate Rejected(title: string, approvers: string) {
    Blank(title) || Blank(approvers)
  }

  /** `approvers.split(',').map(email => email.trim())`. */
  function ApproverList(approvers: string): (r: seq<string>)
    ensures |r| == |Split(approvers, ',')|
    ensures forall i :: 0 <= i < |r| ==> r[i] == Trim(Split(approvers, ',')[i])
  {
    var fields := Split(approvers, ',');
    seq(|fields|, i requires 0 <= i < |fields| => Trim(fields[i]))
  }

  /** The trimmed text is a slice of the original, without whitespace at either end. */
  lemma TrimmedEdges(s: string, c: char)
    ensures c !in s ==> c !in Trim(s)
    ensures Trim(s) != "" ==> !IsJsSpace(Trim(s)[0]) && !IsJsSpace(Trim(s)[|Trim(s)| - 1])
  {
    var a := LeadingSpaces(s);
    var t := s[a..];
    var b := TrailingSpaces(t);
    var r := Trim(s);
    assert r == t[..|t| - b];
    if c in r {
      var k :| 0 <= k < |r| && r[k] == c;
      assert s[a + k] == c;
    }
    if r != "" {
      assert r[0] == s[a];
      assert r[|r| - 1] == t[|t| - 1 - b];
    }
  }

  /** An approver as the form produces it: no comma, and no whitespace at either end. */
  predicate CleanField(a: string) {
    ',' !in a && (a == "" || (!IsJsSpace(a[0]) && !IsJsSpace(a[|a| - 1])))
  }

  /** There is one approver more than there are commas, and every approver is clean. */
  lemma ApproversAreCleanFields(approvers: string)
    ensures |ApproverList(approvers)| == CountChar(approvers, ',') + 1
    ensures forall i :: 0 <= i < |ApproverList(approvers)| ==> CleanField(ApproverList(approvers)[i])
  {
    SplitLength(approvers, ',');
    SplitJoin(approvers, ',');
    var fields := Split(approvers, ',');
    var r := ApproverList(approvers);
    forall i | 0 <= i < |r| ensures CleanField(r[i]) {
      TrimmedEdges(fields[i], ',');
    }
  }

  /** The guard looks at the whole approvers text only: a lone comma passes it and yields two
      empty approvers. */
  lemma CommaOnlyApproversAccepted(title: string)
    requires !Blank(title)
    ensures !Rejected(title, ",")
    ensures ApproverList(",") == ["", ""]
  {
    assert !IsJsSpace(',');
    assert LeadingSpaces(",") == 0;
    assert Split(",", ',') == ["", ""] by {
      assert ","[1..] == "";
    }
    assert Trim("") == "";
  }

  /** The step the form produces (what the handler logs). */
  datatype Step = Step(title: string, approvers: seq<string>, documentId: string)

  /** `getStatusText`. */
  function StatusText(status: string): (text: string)
    ensures text == "Pending" <==> status != "completed" && status != "in_progress" && status != "rejected"
    ensures text in {"Approved", "In Progress", "Rejected", "Pending"}
  {
    if status == "completed" then "Approved"
    else if status == "in_progress" then "In Progress"
    else if status == "rejected" then "Rejected"
    else "Pending"
  }

  /** `s.replace(c, d)` with a one-character string pattern: only the first `c` is replaced. */
  function ReplaceFirst(s: string, c: char, d: char): (r: string)
    ensures |r| == |s|
    decreases |s|
  {
    if s == [] then []
    else if s[0] == c then [d] + s[1..]
    else [s[0]] + ReplaceFirst(s[1..], c, d)
  }

  /** Without a `c` nothing changes. */
  lemma {:induction false} ReplaceFirstAbsent(s: string, c: char, d: char)
    requires forall m :: 0 <= m < |s| ==> s[m] != c
    ensures ReplaceFirst(s, c, d) == s
    decreases |s|
  {
    if s != [] {
      ReplaceFirstAbsent(s[1..], c, d);
      assert [s[0]] + s[1..] == s;
    }
  }

  /** Exactly the first `c`, at `k`, becomes `d`. */
  lemma {:induction false} ReplaceFirstAt(s: string, c: char, d: char, k: int)
    requires 0 <= k < |s| && s[k] == c
    requires forall m :: 0 <= m < k ==> s[m] != c
    ensures ReplaceFirst(s, c, d) == s[..k] + [d] + s[k + 1..]
    decreases k
  {
    if k > 0 {
      var t := s[1..];
      ReplaceFirstAt(t, c, d, k - 1);
      assert t[..k - 1] == s[1..k] && t[k..] == s[k + 1..];
      assert [s[0]] + s[1..k] == s[..k];
    }
  }

  /** `status.replace('_', ' ').toUpperCase()`. */
  function BadgeLabel(status: string): string {
    Upper(ReplaceFirst(status, '_', ' '))
  }

  /** A status with two underscores keeps the second one in its badge. */
  lemma SecondUnderscoreKept(status: string, i: int, j: int)
    requires 0 <= i < j < |status| && status[i] == '_' && status[j] == '_'
    ensures '_' in BadgeLabel(status)
  {
    var k := FirstOccurrence(status, '_', i);
    ReplaceFirstAt(status, '_', ' ', k);
    var r := ReplaceFirst(status, '_', ' ');
    assert r[j] == status[j];
    assert BadgeLabel(status)[j] == UpperChar('_');
  }

  /** The status shown as "In Progress" gets the badge "IN PROGRESS". */
  lemma InProgressBadge()
    ensures StatusText("in_progress") == "In Progress"
    ensures BadgeLabel("in_progress") == "IN PROGRESS"
  {
    InProgressSpaced();
    UpperInProgress();
  }

  lemma InProgressSpaced()
    ensures ReplaceFirst("in_progress", '_', ' ') == "in progress"
  {
    var s := "in_progress";
    ReplaceFirstAt(s, '_', ' ', 2);
    assert s[..2] + [' '] + s[3..] == "in progress";
  }

  lemma UpperInProgress()
    ensures Upper("in progress") == "IN PROGRESS"
  {
    var u := Upper("in progress");
    forall i | 0 <= i < 11 ensures u[i] == "IN PROGRESS"[i] {}
  }

  /** The first occurrence of `c` in `s`, given one at `i`. */
  lemma {:induction false} FirstOccurrence(s: string, c: char, i: int) returns (k: int)
    requires 0 <= i < |s| && s[i] == c
    ensures 0 <= k <= i && s[k] == c && forall m :: 0 <= m < k ==> s[m] != c
    decreases i
  {
    if m :| 0 <= m < i && s[m] == c {
      k := FirstOccurrence(s, c, m);
    } else {
      k := i;
    }
  }

  /** The add-step form. */
  class ApprovalForm {
    var showAddStep: bool
    var newStepTitle: string
    var newStepApprovers: string

    constructor ()
      ensures !showAddStep && newStepTitle == "" && newStepApprovers == ""
    {
      showAddStep := false;
      newStepTitle := "";
      newStepApprovers := "";
    }

    /** `handleAddStep`: refused input leaves the form as it is; otherwise the step (with the
        title as typed and the trimmed approvers) is produced and the form is reset and closed. */
    method AddStep(documentId: string) returns (added: Option<Step>)
      modifies this
      ensures Rejected(old(newStepTitle), old(newStepApprovers)) ==>
        added == None && newStepTitle == old(newStepTitle) &&
        newStepApprovers == old(newStepApprovers) && showAddStep == old(showAddStep)
      ensures !Rejected(old(newStepTitle), old(newStepApprovers)) ==>
        added == Some(Step(old(newStepTitle), ApproverList(old(newStepApprovers)), documentId)) &&
        newStepTitle == "" && newStepApprovers == "" && !showAddStep
    {
      if Trim(newStepTitle) == "" || Trim(newStepApprovers) == "" {
        return None;
      }
      added := Some(Step(newStepTitle, ApproverList(newStepApprovers), documentId));
      newStepTitle := "";
      newStepApprovers := "";
      showAddStep := false;
    }

    /** The Cancel button: close the form and clear both fields. */
    method Cancel()
      modifies this
      ensures !showAddStep && newStepTitle == "" && newStepApprovers == ""
    {
      showAddStep := false;
      newStepTitle := "";
      newStepApprovers := "";
    }
  }
}
