/** Single-threaded uses of `ConSetQueue`, each proved from the contracts of
    its operations alone. */
module Scenarios {
  import opened PendingQueue
  import opened Csq

  /** A fresh queue is empty, has length zero; after one push it has length
      one, and after the matching pop it is empty again. */
  method EmptyPushPop<T(==)>(a: T) returns (empty0: bool, len0: nat, empty1: bool, len1: nat, r: Option<T>, empty2: bool)
    ensures empty0 && len0 == 0
    ensures !empty1 && len1 == 1
    ensures r == Some(a) && empty2
  {
    var c := new ConSetQueue<T>();
    empty0, len0 := c.IsEmpty(), c.Len();
    c.Push(a);
    empty1, len1 := c.IsEmpty(), c.Len();
    ghost var h;
    r, h := c.Pop();
    empty2 := c.IsEmpty();
  }

  /** Distinct pushes A, B, C followed by three pops yield A, B, C. */
  method FifoOfThree<T(==)>(a: T, b: T, c: T) returns (x: Option<T>, y: Option<T>, z: Option<T>)
    requires a != b && b != c && a != c
    ensures x == Some(a) && y == Some(b) && z == Some(c)
  {
    var cq := new ConSetQueue<T>();
    cq.Push(a);
    cq.Push(b);
    cq.Push(c);
    ghost var h;
    x, h := cq.Pop();
    y, h := cq.Pop();
    z, h := cq.Pop();
  }

  /** Push A twice, then pop twice: the first pop yields A and the second
      finds the queue empty, because the duplicate push added nothing. */
  method DuplicateSuppressed<T(==)>(a: T) returns (x: Option<T>, y: Option<T>)
    ensures x == Some(a) && y == None
  {
    var cq := new ConSetQueue<T>();
    cq.Push(a);
    cq.Push(a);
    ghost var h;
    x, h := cq.Pop();
    y, h := cq.Pop();
  }

  /** Push A, pop, push A again: `pop` evicted A from the set, so the second
      push is not a duplicate and the next pop yields A once more. */
  method ReentryAfterPop<T(==)>(a: T) returns (x: Option<T>, len: nat, y: Option<T>)
    ensures x == Some(a) && len == 1 && y == Some(a)
  {
    var cq := new ConSetQueue<T>();
    cq.Push(a);
    ghost var h;
    x, h := cq.Pop();
    cq.Push(a);
    len := cq.Len();
    y, h := cq.Pop();
  }

  /** A duplicate push does not refresh the position of the pending entry:
      after pushing A, B, A the pops yield A then B. */
  method DuplicateKeepsPosition<T(==)>(a: T, b: T) returns (x: Option<T>, y: Option<T>, z: Option<T>)
    requires a != b
    ensures x == Some(a) && y == Some(b) && z == None
  {
    var cq := new ConSetQueue<T>();
    cq.Push(a);
    cq.Push(b);
    cq.Push(a);
    ghost var h;
    x, h := cq.Pop();
    y, h := cq.Pop();
    z, h := cq.Pop();
  }
}
