/** The abstract behaviour of a deduplicating FIFO queue, on values.

    A queue's abstract state is its pending sequence: the values pushed and not
    yet popped, oldest first. `Pushed` and `Popped` give the effect of one
    `push` and one `pop`; `Run` replays a single-threaded sequence of calls.
    The lemmas state what callers can rely on: no value is ever pending twice,
    the membership set has as many elements as the queue, values come out in
    the order of their successful pushes, repeated pushes of one value
    collapse into one entry, and a popped value can be pushed again. */
module PendingQueue {

  datatype Option<T> = None | Some(value: T)

  /** One call on the queue. */
  datatype Op<T> = Push(value: T) | Pop

  /** No value occurs twice in `q`. */
  ghost predicate NoDup<T>(q: seq<T>) {
    forall i, j :: 0 <= i < j < |q| ==> q[i] != q[j]
  }

  /** The values occurring in `q`: what the membership set must hold. */
  ghost function Elems<T>(q: seq<T>): set<T> {
    set x | x in q
  }

  /** The pending sequence after `push(x)`: `x` joins at the back unless an
      equal value is already pending, in which case nothing changes. */
  function Pushed<T(==)>(q: seq<T>, x: T): (r: seq<T>)
    ensures x in r
    ensures x in q ==> r == q
    ensures Elems(r) == Elems(q) + {x}
    ensures q <= r && |r| <= |q| + 1
  {
    if x in q then q else q + [x]
  }

  /** What `pop()` returns, and the pending sequence it leaves behind. */
  function Popped<T>(q: seq<T>): (r: (Option<T>, seq<T>))
    ensures r.0.None? <==> q == []
    ensures r.0.Some? ==> q == [r.0.value] + r.1
    ensures r.0.None? ==> r.1 == q
  {
    if q == [] then (None, q) else (Some(q[0]), q[1..])
  }

  /** Replays `ops` one after another from the pending sequence `q`; gives the
      final pending sequence and, in order, what each `Pop` returned. */
  function Run<T(==)>(q: seq<T>, ops: seq<Op<T>>): (r: (seq<T>, seq<Option<T>>))
    decreases |ops|
  {
    if ops == [] then (q, [])
    else
      match ops[0]
      case Push(x) => Run(Pushed(q, x), ops[1..])
      case Pop =>
        var r := Run(Popped(q).1, ops[1..]);
        (r.0, [Popped(q).0] + r.1)
  }

  /** The calls `push(xs[0])`, `push(xs[1])`, ... */
  function Pushes<T>(xs: seq<T>): (ops: seq<Op<T>>)
    ensures |ops| == |xs|
    ensures forall i :: 0 <= i < |xs| ==> ops[i] == Push(xs[i])
  {
    if xs == [] then [] else [Push(xs[0])] + Pushes(xs[1..])
  }

  /** `n` calls of `pop()`. */
  function Pops<T>(n: nat): (ops: seq<Op<T>>)
    ensures |ops| == n
    ensures forall i :: 0 <= i < n ==> ops[i] == Pop
  {
    if n == 0 then [] else [Pop] + Pops(n - 1)
  }

  /** Each value of `xs` as a successful pop result. */
  function Somes<T>(xs: seq<T>): (rs: seq<Option<T>>)
    ensures |rs| == |xs|
    ensures forall i :: 0 <= i < |xs| ==> rs[i] == Some(xs[i])
  {
    if xs == [] then [] else [Some(xs[0])] + Somes(xs[1..])
  }

  /** `push` keeps the pending sequence free of duplicates. */
  lemma PushedKeepsNoDup<T>(q: seq<T>, x: T)
    requires NoDup(q)
    ensures NoDup(Pushed(q, x))
  {
  }

  /** Every reachable pending sequence is free of duplicates: at most one
      pending occurrence of any value, whatever the calls. */
  lemma {:induction false} RunKeepsNoDup<T>(q: seq<T>, ops: seq<Op<T>>)
    requires NoDup(q)
    ensures NoDup(Run(q, ops).0)
    decreases |ops|
  {
    if ops != [] {
      match ops[0]
      case Push(x) =>
        PushedKeepsNoDup(q, x);
        RunKeepsNoDup(Pushed(q, x), ops[1..]);
      case Pop =>
        RunKeepsNoDup(Popped(q).1, ops[1..]);
    }
  }

  /** Without duplicates, the membership set has exactly as many elements as
      the queue has entries. */
  lemma {:induction false} ElemsCard<T>(q: seq<T>)
    requires NoDup(q)
    ensures |Elems(q)| == |q|
    decreases |q|
  {
    if q != [] {
      var t := q[1..];
      assert Elems(q) == {q[0]} + Elems(t) by {
        assert q == [q[0]] + t;
      }
      forall k | 0 <= k < |t| ensures t[k] != q[0] {
        assert t[k] == q[k + 1];
      }
      ElemsCard(t);
    }
  }

  /** Without duplicates, a value is pending exactly once or not at all. */
  lemma {:induction false} OccursAtMostOnce<T>(q: seq<T>, x: T)
    requires NoDup(q)
    ensures multiset(q)[x] == if x in q then 1 else 0
    decreases |q|
  {
    if q != [] {
      var t := q[1..];
      assert q == [q[0]] + t;
      forall k | 0 <= k < |t| ensures t[k] != q[0] {
        assert t[k] == q[k + 1];
      }
      OccursAtMostOnce(t, x);
    }
  }

  /** Pushing values that are distinct and not yet pending, then making the
      calls `ops`, is making `ops` with those values appended, in order, to
      the pending sequence. */
  lemma {:induction false} RunFreshPushes<T>(q: seq<T>, xs: seq<T>, ops: seq<Op<T>>)
    requires NoDup(q + xs)
    ensures Run(q, Pushes(xs) + ops) == Run(q + xs, ops)
    decreases |xs|
  {
    if xs == [] {
      assert q + xs == q && Pushes(xs) + ops == ops;
    } else {
      var x, t := xs[0], xs[1..];
      forall k | 0 <= k < |q| ensures q[k] != x {
        assert q[k] == (q + xs)[k] && x == (q + xs)[|q|];
      }
      assert q + xs == (q + [x]) + t;
      var all := Pushes(xs) + ops;
      assert all[0] == Push(x);
      assert all[1..] == Pushes(t) + ops by {
        assert Pushes(xs)[1..] == Pushes(t);
      }
      RunFreshPushes(q + [x], t, ops);
    }
  }

  /** Popping as many times as there are pending values hands them back
      oldest first and empties the queue. */
  lemma {:induction false} RunPopsDrains<T>(q: seq<T>)
    ensures Run(q, Pops(|q|)) == ([], Somes(q))
    decreases |q|
  {
    if q != [] {
      assert Pops<T>(|q|)[1..] == Pops(|q| - 1);
      RunPopsDrains(q[1..]);
    }
  }

  /** FIFO among values that do not collide: after distinct pushes `xs` onto
      a pending sequence `q` they do not collide with, popping `|q| + |xs|`
      times yields `q` and then `xs`, in order, and leaves the queue empty. */
  lemma FifoOfDistinctPushes<T>(q: seq<T>, xs: seq<T>)
    requires NoDup(q + xs)
    ensures Run(q, Pushes(xs) + Pops(|q| + |xs|)) == ([], Somes(q + xs))
  {
    RunFreshPushes(q, xs, Pops(|q| + |xs|));
    RunPopsDrains(q + xs);
  }

  /** `n` pushes of one value, at least one, have the effect of a single
      push: duplicates collapse into one pending entry. */
  lemma {:induction false} RepeatedPushCollapses<T>(q: seq<T>, x: T, n: nat)
    requires n >= 1
    ensures Run(q, Pushes(seq(n, _ => x))) == (Pushed(q, x), [])
    decreases n
  {
    var xs := seq(n, _ => x);
    assert Pushes(xs)[1..] == Pushes(xs[1..]);
    if n > 1 {
      assert xs[1..] == seq(n - 1, _ => x);
      RepeatedPushCollapses(Pushed(q, x), x, n - 1);
    } else {
      assert Pushes(xs)[1..] == [];
    }
  }

  /** A value that `pop` just handed back is no longer pending, so pushing it
      again succeeds and puts it at the back. */
  lemma PopThenPushReenters<T>(q: seq<T>)
    requires NoDup(q) && q != []
    ensures Popped(q).0 == Some(q[0])
    ensures q[0] !in Popped(q).1
    ensures Pushed(Popped(q).1, q[0]) == q[1..] + [q[0]]
  {
  }

  /** Pushing values drawn from a universe `u` keeps every pending value in
      `u`; as no value is pending twice, at most `|u|` values are pending. */
  lemma {:induction false} RunStaysInUniverse<T>(q: seq<T>, ops: seq<Op<T>>, u: set<T>)
    requires NoDup(q) && Elems(q) <= u
    requires forall i :: 0 <= i < |ops| && ops[i].Push? ==> ops[i].value in u
    ensures Elems(Run(q, ops).0) <= u
    ensures |Run(q, ops).0| <= |u|
    decreases |ops|
  {
    if ops == [] {
      ElemsCard(q);
      assert |Elems(q)| <= |u| by { SubsetCard(Elems(q), u); }
    } else {
      var next := if ops[0].Push? then Pushed(q, ops[0].value) else Popped(q).1;
      assert Elems(next) <= u by {
        if ops[0].Pop? && q != [] {
          assert q == [q[0]] + next;
        }
      }
      if ops[0].Push? {
        PushedKeepsNoDup(q, ops[0].value);
      }
      assert Run(q, ops).0 == Run(next, ops[1..]).0;
      RunStaysInUniverse(next, ops[1..], u);
    }
  }

  /** A subset is no larger than its superset. */
  lemma SubsetCard<T>(a: set<T>, b: set<T>)
    requires a <= b
    ensures |a| <= |b|
  {
    assert b == a + (b - a);
  }
}
