/** The toast notifications of src/components/Toast.jsx: the provider keeps the list of toasts on
    screen, `addToast` appends one and schedules its removal, `removeToast` drops every toast with
    a given id, and `useToast` refuses to work outside the provider. The clock reading that
    becomes a toast's id is a parameter; the timers themselves are not modelled, only whether one
    is set. */
module Toast {
  import opened Strings

  datatype ToastItem = ToastItem(id: int, message: string, kind: string)

  /** The duration used when the caller passes none. */
  const DefaultDuration: int := 3000

  function DurationOf(duration: Option<int>): (d: int)
    ensures duration.None? ==> d == DefaultDuration
    ensures duration.Some? ==> d == duration.value
  {
    if duration.Some? then duration.value else DefaultDuration
  }

  /** The type used when the caller passes none. */
  function KindOf(kind: Option<string>): (k: string)
    ensures kind.None? ==> k == "info"
    ensures kind.Some? ==> k == kind.value
  {
    if kind.Some? then kind.value else "info"
  }

  /** `prev.filter(toast => toast.id !== id)`. */
  function Without(toasts: seq<ToastItem>, id: int): (r: seq<ToastItem>)
    ensures |r| <= |toasts|
    ensures forall k :: 0 <= k < |r| ==> r[k].id != id
    decreases |toasts|
  {
    if toasts == [] then []
    else (if toasts[0].id != id then [toasts[0]] else []) + Without(toasts[1..], id)
  }

  /** A toast survives the removal exactly when it was there and has another id. */
  lemma {:induction false} WithoutMembership(toasts: seq<ToastItem>, id: int, t: ToastItem)
    ensures t in Without(toasts, id) <==> t in toasts && t.id != id
    decreases |toasts|
  {
    if toasts != [] {
      WithoutMembership(toasts[1..], id, t);
      assert toasts == [toasts[0]] + toasts[1..];
    }
  }

  /** The removal keeps the order of the toasts it keeps. */
  lemma {:induction false} WithoutConcat(a: seq<ToastItem>, b: seq<ToastItem>, id: int)
    ensures Without(a + b, id) == Without(a, id) + Without(b, id)
    decreases |a|
  {
    if a != [] {
      WithoutConcat(a[1..], b, id);
      assert (a + b)[0] == a[0] && (a + b)[1..] == a[1..] + b;
    } else {
      assert a + b == b;
    }
  }

  /** Removing an id no toast has changes nothing. */
  lemma {:induction false} RemoveAbsentId(toasts: seq<ToastItem>, id: int)
    requires forall k :: 0 <= k < |toasts| ==> toasts[k].id != id
    ensures Without(toasts, id) == toasts
    decreases |toasts|
  {
    if toasts != [] {
      RemoveAbsentId(toasts[1..], id);
      assert [toasts[0]] + toasts[1..] == toasts;
    }
  }

  /** Adding a toast with a fresh id and then removing that id restores the list. */
  lemma AddThenRemove(toasts: seq<ToastItem>, t: ToastItem)
    requires forall k :: 0 <= k < |toasts| ==> toasts[k].id != t.id
    ensures Without(toasts + [t], t.id) == toasts
  {
    WithoutConcat(toasts, [t], t.id);
    RemoveAbsentId(toasts, t.id);
    assert [t][1..] == [];
  }

  /** Ids are clock readings, so two toasts made in the same millisecond share one, and closing
      either (or the timer of either firing) removes both. */
  lemma SameMillisecondToastsRemovedTogether(toasts: seq<ToastItem>, a: ToastItem, b: ToastItem)
    requires a.id == b.id
    ensures a !in Without(toasts + [a, b], a.id) && b !in Without(toasts + [a, b], a.id)
  {
    WithoutMembership(toasts + [a, b], a.id, a);
    WithoutMembership(toasts + [a, b], a.id, b);
  }

  /** What `useToast` gives back: the context's value, or the error it throws. */
  datatype Hook<T> = Available(value: T) | Thrown(message: string)

  /** `useToast`: the provider's value, or an error outside a provider. */
  function UseToast<T>(context: Option<T>): (r: Hook<T>)
    ensures r.Available? <==> context.Some?
    ensures context.Some? ==> r.value == context.value
    ensures context.None? ==> r.message == "useToast must be used within ToastProvider"
  {
    match context
    case Some(v) => Available(v)
    case None => Thrown("useToast must be used within ToastProvider")
  }

  /** The provider's state: the toasts on screen, oldest first. */
  class ToastProvider {
    var toasts: seq<ToastItem>

    constructor ()
      ensures toasts == []
    {
      toasts := [];
    }

    /** `addToast`. `now` is the clock reading that becomes the id; `scheduled` says whether a
        removal timer was set, which happens only for a positive duration. A missing type is
        "info" and a missing duration 3000 ms. */
    method AddToast(now: int, message: string, kind: Option<string>, duration: Option<int>)
      returns (id: int, scheduled: bool)
      modifies this
      ensures id == now
      ensures scheduled <==> DurationOf(duration) > 0
      ensures toasts == old(toasts) + [ToastItem(now, message, KindOf(kind))]
    {
      id := now;
      toasts := toasts + [ToastItem(id, message, KindOf(kind))];
      scheduled := DurationOf(duration) > 0;
    }

    /** `removeToast`: every toast with this id goes, the rest stay in order. */
    method RemoveToast(id: int)
      modifies this
      ensures toasts == Without(old(toasts), id)
    {
      toasts := Without(toasts, id);
    }

    /** `toast.success`, `toast.error`, `toast.warning` and `toast.info`: `addToast` with the kind
        fixed. */
    method Success(now: int, message: string, duration: Option<int>) returns (id: int, scheduled: bool)
      modifies this
      ensures id == now && (scheduled <==> DurationOf(duration) > 0)
      ensures toasts == old(toasts) + [ToastItem(now, message, "success")]
    {
      id, scheduled := AddToast(now, message, Some("success"), duration);
    }

    method Error(now: int, message: string, duration: Option<int>) returns (id: int, scheduled: bool)
      modifies this
      ensures id == now && (scheduled <==> DurationOf(duration) > 0)
      ensures toasts == old(toasts) + [ToastItem(now, message, "error")]
    {
      id, scheduled := AddToast(now, message, Some("error"), duration);
    }

    method Warning(now: int, message: string, duration: Option<int>) returns (id: int, scheduled: bool)
      modifies this
      ensures id == now && (scheduled <==> DurationOf(duration) > 0)
      ensures toasts == old(toasts) + [ToastItem(now, message, "warning")]
    {
      id, scheduled := AddToast(now, message, Some("warning"), duration);
    }

    method Info(now: int, message: string, duration: Option<int>) returns (id: int, scheduled: bool)
      modifies this
      ensures id == now && (scheduled <==> DurationOf(duration) > 0)
      ensures toasts == old(toasts) + [ToastItem(now, message, "info")]
    {
      id, scheduled := AddToast(now, message, Some("info"), duration);
    }
  }
}
