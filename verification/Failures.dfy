/** failures.go: the bounded record of recent failures. */
module Failures {
  import opened Wrappers
  import opened Policy

  datatype FailureEvent = FailureEvent(
    at: int, source: string, index: string, action: string, documentId: string,
    status: int, error: string, retryable: bool)

  const DEFAULT_FAILURE_BUFFER_SIZE := 128

  function Reversed<T>(s: seq<T>): (r: seq<T>)
    ensures |r| == |s|
  {
    if s == [] then [] else [s[|s| - 1]] + Reversed(s[..|s| - 1])
  }

  lemma {:induction false} ReversedAt<T>(s: seq<T>, i: nat)
    requires i < |s|
    ensures Reversed(s)[i] == s[|s| - 1 - i]
  {
    if i > 0 {
      ReversedAt(s[..|s| - 1], i - 1);
    }
  }

  /** The events a buffer of this size still holds. */
  function Retained(history: seq<FailureEvent>, capacity: nat): (kept: seq<FailureEvent>)
    ensures |kept| <= capacity
  {
    if |history| <= capacity then history else history[|history| - capacity..]
  }

  /** Where the i-th newest event sits in a buffer of `size` whose next write goes to `next`. */
  function Slot(next: int, size: nat, i: int): int {
    var idx := next - 1 - i;
    if idx < 0 then idx + size else idx
  }

  lemma SlotAfterWrite(next: int, size: nat, i: int)
    requires 0 <= next < size && 0 <= i < size
    ensures Slot((next + 1) % size, size, i) == if i == 0 then next else Slot(next, size, i - 1)
    ensures i > 0 ==> Slot(next, size, i - 1) != next
  {
    assert (next + 1) % size == if next + 1 == size then 0 else next + 1;
  }

  class FailureRecorder {
    const buf: array<FailureEvent>
    var next: int
    var count: int
    var last: FailureEvent
    var hasLast: bool
    ghost var history: seq<FailureEvent>   // everything ever recorded

    constructor (size: int)
      ensures Valid() && history == [] && fresh(buf)
      ensures buf.Length == if size <= 0 then 128 else size
    {
      var empty := FailureEvent(0, "", "", "", "", 0, "", false);
      buf := new FailureEvent[if size <= 0 then DEFAULT_FAILURE_BUFFER_SIZE else size](_ => empty);
      next, count, last, hasLast, history := 0, 0, empty, false, [];
    }

    ghost predicate Valid()
      reads this, buf
    {
      && 0 <= next && (buf.Length > 0 ==> next < buf.Length)
      && (buf.Length == 0 ==> history == [])
      && count == Min(|history|, buf.Length)
      && (forall i :: 0 <= i < count ==>
            0 <= Slot(next, buf.Length, i) < buf.Length && buf[Slot(next, buf.Length, i)] == history[|history| - 1 - i])
      && (hasLast <==> history != [])
      && (hasLast ==> last == history[|history| - 1])
    }

    method Record(event: FailureEvent)
      requires Valid()
      modifies this, buf
      ensures Valid()
      ensures history == if buf.Length == 0 then old(history) else old(history) + [event]
    {
      if buf.Length == 0 {
        return;
      }
      buf[next] := event;
      next := (next + 1) % buf.Length;
      if count < buf.Length {
        count := count + 1;
      }
      last, hasLast := event, true;
      history := history + [event];
      forall i | 0 <= i < count
        ensures 0 <= Slot(next, buf.Length, i) < buf.Length
        ensures buf[Slot(next, buf.Length, i)] == history[|history| - 1 - i]
      {
        SlotAfterWrite(old(next), buf.Length, i);
      }
    }

    /** The newest retained events, newest first; a limit of zero or less asks for all of them. */
    method Recent(limit: int) returns (out: seq<FailureEvent>)
      requires Valid()
      ensures var kept := Retained(history, buf.Length);
              out == Reversed(kept)[..if limit <= 0 then |kept| else Min(limit, |kept|)]
    {
      out := [];
      if count == 0 {
        return;
      }
      var n := limit;
      if n <= 0 || n > count {
        n := count;
      }
      ghost var kept := Retained(history, buf.Length);
      for i := 0 to n
        invariant out == Reversed(kept)[..i]
      {
        var idx := next - 1 - i;
        if idx < 0 {
          idx := idx + buf.Length;
        }
        assert idx == Slot(next, buf.Length, i);
        ReversedAt(kept, i);
        out := out + [buf[idx]];
      }
    }

    method Summary() returns (last: FailureEvent, hasLast: bool, retained: int)
      requires Valid()
      ensures hasLast <==> history != []
      ensures hasLast ==> last == history[|history| - 1]
      ensures retained == |Retained(history, buf.Length)|
    {
      return this.last, this.hasLast, count;
    }
  }
}
