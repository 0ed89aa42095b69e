/** The toast provider's list of live notifications: appended to by
    `addToast`, filtered by id by `dismissToast`. */
module Toasts {
  import opened Text

  datatype ToastType = Success | Error | Info | Warning

  datatype ToastMessage = ToastMessage(id: string, message: string, kind: ToastType, duration: int)

  /** The default parameters: an absent type is `info`, an absent duration
      3000 milliseconds. */
  function MakeToast(id: string, message: string, kind: Option<ToastType>, duration: Option<int>): (t: ToastMessage)
    ensures t.id == id && t.message == message
    ensures t.kind == (if kind.Some? then kind.value else Info)
    ensures t.duration == (if duration.Some? then duration.value else 3000)
  {
    ToastMessage(id, message,
      match kind case Some(k) => k case None => Info,
      match duration case Some(d) => d case None => 3000)
  }

  predicate HasId(ts: seq<ToastMessage>, id: string) {
    exists i :: 0 <= i < |ts| && ts[i].id == id
  }

  /** The toasts whose id is not `id`, in their order. */
  function Without(ts: seq<ToastMessage>, id: string): (r: seq<ToastMessage>)
    ensures |r| <= |ts|
    ensures forall i :: 0 <= i < |r| ==> r[i].id != id
  {
    if ts == [] then []
    else (if ts[0].id != id then [ts[0]] else []) + Without(ts[1..], id)
  }

  /** Filtering distributes over concatenation: the survivors keep their
      relative order. */
  lemma {:induction false} WithoutAppend(a: seq<ToastMessage>, b: seq<ToastMessage>, id: string)
    ensures Without(a + b, id) == Without(a, id) + Without(b, id)
  {
    if a == [] {
      assert a + b == b;
    } else {
      var head := if a[0].id != id then [a[0]] else [];
      assert (a + b)[0] == a[0];
      assert (a + b)[1..] == a[1..] + b;
      assert Without(a + b, id) == head + Without(a[1..] + b, id);
      WithoutAppend(a[1..], b, id);
      AppendAssoc(head, Without(a[1..], id), Without(b, id));
    }
  }

  /** A toast survives exactly when it was there and has another id. */
  lemma {:induction false} WithoutMembers(ts: seq<ToastMessage>, id: string, t: ToastMessage)
    ensures t in Without(ts, id) <==> t in ts && t.id != id
  {
    if ts != [] {
      WithoutMembers(ts[1..], id, t);
      assert ts == [ts[0]] + ts[1..];
    }
  }

  /** Dismissing an id no toast has leaves the list unchanged. */
  lemma {:induction false} WithoutAbsent(ts: seq<ToastMessage>, id: string)
    requires !HasId(ts, id)
    ensures Without(ts, id) == ts
  {
    if ts != [] {
      assert ts[0].id != id;
      assert !HasId(ts[1..], id) by {
        forall i | 0 <= i < |ts[1..]| ensures ts[1..][i].id != id {
          assert ts[1..][i] == ts[i + 1];
        }
      }
      WithoutAbsent(ts[1..], id);
    }
  }

  /** Dismissing the id of a toast just added, when no earlier toast has it,
      restores the list from before the add. */
  lemma DismissUndoesAdd(ts: seq<ToastMessage>, t: ToastMessage)
    requires !HasId(ts, t.id)
    ensures Without(ts + [t], t.id) == ts
  {
    WithoutAppend(ts, [t], t.id);
    WithoutAbsent(ts, t.id);
    assert Without([t], t.id) == [] + Without([], t.id);
  }

  /** Dismissing twice is dismissing once. */
  lemma {:induction false} WithoutIdempotent(ts: seq<ToastMessage>, id: string)
    ensures Without(Without(ts, id), id) == Without(ts, id)
  {
    var r := Without(ts, id);
    assert !HasId(r, id);
    WithoutAbsent(r, id);
  }

  /** The provider's state. */
  class ToastProvider {
    var toasts: seq<ToastMessage>

    constructor ()
      ensures toasts == []
    {
      toasts := [];
    }

    /** `addToast`, with the generated id taken as a parameter: one toast
        is appended and the earlier ones are kept in order. */
    method AddToast(id: string, message: string, kind: Option<ToastType>, duration: Option<int>)
      modifies this
      ensures toasts == old(toasts) + [MakeToast(id, message, kind, duration)]
    {
      toasts := toasts + [MakeToast(id, message, kind, duration)];
    }

    /** `dismissToast`: every toast with the id goes, the others stay in
        order. */
    method DismissToast(id: string)
      modifies this
      ensures toasts == Without(old(toasts), id)
    {
      toasts := Without(toasts, id);
    }
  }
}
