/** The bounded CAN transmit queue: a ring of 32 slots that drops a frame rather than wait for room. */
module MsgQueue {

  const CAPACITY: nat := 32

  /** Putting into a queue seen as a sequence; a full queue refuses. */
  function Put<T>(q: seq<T>, x: T): (r: seq<T>)
    ensures |q| <= CAPACITY ==> |r| <= CAPACITY
  {
    if |q| < CAPACITY then q + [x] else q
  }

  function PutAll<T>(q: seq<T>, xs: seq<T>): seq<T> {
    if xs == [] then q else Put(PutAll(q, xs[..|xs| - 1]), xs[|xs| - 1])
  }

  lemma {:induction false} PutAllAppend<T>(q: seq<T>, xs: seq<T>, ys: seq<T>)
    ensures PutAll(q, xs + ys) == PutAll(PutAll(q, xs), ys)
  {
    if ys == [] {
      assert xs + ys == xs;
    } else {
      assert (xs + ys)[..|xs + ys| - 1] == xs + ys[..|ys| - 1];
      PutAllAppend(q, xs, ys[..|ys| - 1]);
    }
  }

  lemma PutAllOne<T>(q: seq<T>, x: T)
    ensures PutAll(q, [x]) == Put(q, x)
  {
    assert [x][..0] == [];
    assert PutAll(q, [x][..0]) == q;
  }

  /** Nothing is dropped, reordered or invented as long as there is room; then the rest is dropped. */
  lemma {:induction false} PutAllKeepsPrefix<T>(q: seq<T>, xs: seq<T>)
    requires |q| <= 32
    ensures PutAll(q, xs) == q + xs[..if |xs| <= 32 - |q| then |xs| else 32 - |q|]
  {
    if xs == [] {
      assert q + [] == q;
    } else {
      var ys, n := xs[..|xs| - 1], 32 - |q|;
      PutAllKeepsPrefix(q, ys);
      if |xs| <= n {
        assert xs == ys[..|ys|] + [xs[|xs| - 1]] && xs[..|xs|] == xs;
      } else {
        assert ys[..n] == xs[..n];
      }
    }
  }

  class Ring<T(0)> {
    const slots: array<T>
    var head: nat
    var count: nat

    ghost predicate Valid()
      reads this
    {
      slots.Length == CAPACITY && head < CAPACITY && count <= CAPACITY
    }

    /** The queued elements, oldest first. */
    ghost function Contents(): seq<T>
      requires Valid()
      reads this, slots
    {
      if head + count <= CAPACITY then slots[head..head + count]
      else slots[head..] + slots[..head + count - CAPACITY]
    }

    constructor ()
      ensures Valid() && fresh(slots) && Contents() == []
    {
      slots := new T[CAPACITY];
      head, count := 0, 0;
    }

    method PutNoWait(x: T) returns (ok: bool)
      requires Valid()
      modifies this, slots
      ensures Valid() && Contents() == Put(old(Contents()), x)
      ensures ok <==> |old(Contents())| < 32
      ensures Contents() == if ok then old(Contents()) + [x] else old(Contents())
    {
      ok := count < CAPACITY;
      if ok {
        slots[if head + count < CAPACITY then head + count else head + count - CAPACITY] := x;
        count := count + 1;
      }
    }

    method Get() returns (x: T)
      requires Valid() && Contents() != []
      modifies this
      ensures Valid() && [x] + Contents() == old(Contents())
    {
      x := slots[head];
      head := if head + 1 < CAPACITY then head + 1 else 0;
      count := count - 1;
    }

    method Purge()
      requires Valid()
      modifies this
      ensures Valid() && Contents() == []
    {
      head, count := 0, 0;
    }
  }
}
