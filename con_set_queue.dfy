/** `ConSetQueue<T>`: a deduplicating FIFO queue built from a queue that fixes
    the order values come out in and a set that records which values are
    pending. Every value is stored once, behind a shared reference held both
    by the queue and by the set; `Holder` names those holders so the model can
    count them. Each `Push` and `Pop` is one atomic step: the mutex that
    serialises them is not modelled. */
module Csq {
  import opened PendingQueue

  /** Who holds a reference to a stored value: the queue's slot, the set's
      entry, or the local binding of the operation running on it. */
  datatype Holder = QueueSlot | SetEntry | Local

  /** The invariant of a queue `q`, its membership set `s` and the holders `h`
      of each stored value's shared reference (one multiset entry per
      reference): the set mirrors the queue, the queue has no duplicates, and
      every stored value is held by exactly its queue slot and its set entry. */
  ghost predicate Inv<T>(q: seq<T>, s: set<T>, h: map<T, multiset<Holder>>) {
    && s == Elems(q)
    && NoDup(q)
    && h.Keys == s
    && forall x :: x in h ==> h[x] == multiset{QueueSlot, SetEntry}
  }

  /** Taking the front off the queue, evicting it from the set and forgetting
      its holders keeps the invariant. */
  lemma PopKeepsInv<T>(q: seq<T>, s: set<T>, h: map<T, multiset<Holder>>)
    requires Inv(q, s, h) && q != []
    ensures Inv(q[1..], s - {q[0]}, h - {q[0]})
  {
  }

  /** A value held by exactly its queue slot and its set entry is, once the
      queue's reference moves to the local binding and the set's is dropped,
      held by that local binding alone: one reference. */
  lemma ReleaseBoth(h: multiset<Holder>)
    requires h == multiset{QueueSlot, SetEntry}
    ensures h - multiset{QueueSlot} + multiset{Local} == multiset{SetEntry, Local}
    ensures multiset{SetEntry, Local} - multiset{SetEntry} == multiset{Local}
  {
  }

  class ConSetQueue<T(==)> {
    /** The queue, front first. */
    var q: seq<T>
    /** The membership set of pending values. */
    var s: set<T>
    /** The holders of each stored value's shared reference, one entry per
        reference; the multiset's size is the reference count. */
    ghost var holders: map<T, multiset<Holder>>

    ghost predicate Valid()
      reads this
    {
      Inv(q, s, holders)
    }

    /** `new()` and `default()`: an empty queue and an empty set. */
    constructor ()
      ensures Valid()
      ensures q == [] && s == {} && holders == map[]
    {
      q := [];
      s := {};
      holders := map[];
    }

    /** Adds `value` at the back unless an equal value is already pending. */
    method Push(value: T)
      requires Valid()
      modifies this
      ensures Valid()
      ensures q == Pushed(old(q), value)
      ensures old(value in s) ==> q == old(q) && s == old(s) && holders == old(holders)
      ensures old(value !in s) ==>
        q == old(q) + [value] && s == old(s) + {value}
        && holders == old(holders)[value := multiset{QueueSlot, SetEntry}]
    {
      if value !in s {
        // the fresh shared reference, held by the local binding only
        holders := holders[value := multiset{Local}];
        // a clone of it goes into the queue
        q := q + [value];
        holders := holders[value := holders[value] + multiset{QueueSlot}];
        // the local reference itself moves into the set
        s := s + {value};
        holders := holders[value := holders[value] - multiset{Local} + multiset{SetEntry}];
        assert holders[value] == multiset{QueueSlot, SetEntry};
        PushedKeepsNoDup(old(q), value);
      }
    }

    /** Removes and returns the front value, or returns `None` on an empty
        queue. `unwrapHolders` is the reference count the value has when its
        sole ownership is reclaimed: it is always 1, so reclaiming never
        fails. */
    method Pop() returns (r: Option<T>, ghost unwrapHolders: nat)
      requires Valid()
      modifies this
      ensures Valid()
      ensures (r, q) == Popped(old(q))
      ensures old(q) == [] ==> r == None && q == old(q) && s == old(s) && holders == old(holders)
      ensures old(q) != [] ==>
        r == Some(old(q)[0]) && q == old(q)[1..] && s == old(s) - {old(q)[0]}
        && holders == old(holders) - {old(q)[0]}
      ensures r.Some? ==> unwrapHolders == 1
    {
      unwrapHolders := 0;
      if q != [] {
        ghost var q0, s0, h0 := q, s, holders;
        PopKeepsInv(q0, s0, h0);
        // the queue gives up its slot: the reference moves to the local binding
        var ptr := q[0];
        assert ptr in h0;
        ReleaseBoth(h0[ptr]);
        q := q[1..];
        holders := holders[ptr := holders[ptr] - multiset{QueueSlot} + multiset{Local}];
        // the set drops its entry and the reference it held
        s := s - {ptr};
        holders := holders[ptr := holders[ptr] - multiset{SetEntry}];
        // reclaiming sole ownership needs the local binding to be the only holder
        unwrapHolders := |holders[ptr]|;
        holders := holders - {ptr};
        assert holders == h0 - {ptr};
        return Some(ptr), unwrapHolders;
      }
      return None, unwrapHolders;
    }

    /** Whether no value is pending. */
    function IsEmpty(): (b: bool)
      reads this
      requires Valid()
      ensures b <==> |q| == 0
      ensures b <==> s == {}
    {
      assert q != [] ==> q[0] in Elems(q);
      |q| == 0
    }

    /** The number of pending values: the queue's length, which is also the
        size of the membership set. */
    function Len(): (n: nat)
      reads this
      requires Valid()
      ensures n == |q| && n == |s|
      ensures n == 0 <==> IsEmpty()
    {
      ElemsCard(q);
      |q|
    }
  }
}
