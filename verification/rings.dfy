/**
  The bounded circular queues of the modem: the MBIM response and held-command
  queues of `src/core.c` and the indication queue of `src/state_bridge/state_bridge.c`
  are all sixteen slots with a head and a tail index, one slot being kept free so
  that equal indices mean "empty".
 */
module Rings {
  import opened Options

  const SLOTS := 16

  /** The most elements a ring can hold. */
  const CAPACITY := 15

  /** `s` without its first occurrence of `x`. */
  function RemoveFirst<T(==)>(s: seq<T>, x: T): (r: seq<T>)
    ensures x !in s ==> r == s
    ensures x in s ==> |r| == |s| - 1
  {
    if s == [] then []
    else if s[0] == x then s[1..]
    else [s[0]] + RemoveFirst(s[1..], x)
  }

  /** What the shifting loop relies on: the element removed is the first match. */
  lemma {:induction false} RemoveFirstAt<T>(s: seq<T>, x: T, k: nat)
    requires k < |s| && s[k] == x && x !in s[..k]
    ensures RemoveFirst(s, x) == s[..k] + s[k + 1..]
  {
    if k > 0 {
      assert s[0] in s[..k];
      assert s[1..][..k - 1] == s[..k][1..];
      RemoveFirstAt(s[1..], x, k - 1);
      assert [s[0]] + s[1..][..k - 1] == s[..k];
    }
  }

  /** The slot at distance `k` from the head slot `h`. */
  ghost function SlotOf(h: nat, k: nat): (i: nat)
    requires h < SLOTS && k < SLOTS
    ensures i < SLOTS
  {
    if h + k < SLOTS then h + k else h + k - SLOTS
  }

  /** How many elements lie between head slot `h` and tail slot `t`. */
  ghost function Distance(h: nat, t: nat): (n: nat)
    requires h < SLOTS && t < SLOTS
    ensures n <= CAPACITY && SlotOf(h, n) == t
  {
    if h <= t then t - h else t - h + SLOTS
  }

  /** The index after slot `i`. */
  method Next(i: nat) returns (n: nat)
    requires i < SLOTS
    ensures n == if i + 1 < SLOTS then i + 1 else 0
  {
    n := (i + 1) % SLOTS;
  }

  /** The index before slot `i`. */
  method Previous(i: nat) returns (p: nat)
    requires i < SLOTS
    ensures p == if i > 0 then i - 1 else SLOTS - 1
  {
    p := (i - 1 + SLOTS) % SLOTS;
  }

  /** The `n` elements found by walking `slots` circularly from slot `h`. */
  ghost function Unrolled<T>(slots: seq<T>, h: nat, n: nat): (s: seq<T>)
    requires |slots| == SLOTS && h < SLOTS && n < SLOTS
    ensures |s| == n
  {
    if n == 0 then [] else Unrolled(slots, h, n - 1) + [slots[SlotOf(h, n - 1)]]
  }

  lemma {:induction false} UnrolledAt<T>(slots: seq<T>, h: nat, n: nat, k: nat)
    requires |slots| == SLOTS && h < SLOTS && k < n < SLOTS
    ensures Unrolled(slots, h, n)[k] == slots[SlotOf(h, k)]
  {
    if k < n - 1 { UnrolledAt(slots, h, n - 1, k); }
  }

  /** Writing one slot changes one element and no other. */
  lemma {:induction false} UnrolledUpdate<T>(slots: seq<T>, h: nat, n: nat, j: nat, x: T)
    requires |slots| == SLOTS && h < SLOTS && j < n < SLOTS
    ensures Unrolled(slots[SlotOf(h, j) := x], h, n) == Unrolled(slots, h, n)[j := x]
  {
    if j < n - 1 {
      UnrolledUpdate(slots, h, n - 1, j, x);
    } else {
      UnrolledBeyond(slots, h, n - 1, j, x);
    }
  }

  /** Writing a slot outside the queue changes nothing. */
  lemma {:induction false} UnrolledBeyond<T>(slots: seq<T>, h: nat, n: nat, j: nat, x: T)
    requires |slots| == SLOTS && h < SLOTS && n <= j < SLOTS
    ensures Unrolled(slots[SlotOf(h, j) := x], h, n) == Unrolled(slots, h, n)
  {
    if n > 0 { UnrolledBeyond(slots, h, n - 1, j, x); }
  }

  /** Starting one slot later leaves out the first element. */
  lemma {:induction false} UnrolledTail<T>(slots: seq<T>, h: nat, n: nat)
    requires |slots| == SLOTS && h < SLOTS && 0 < n < SLOTS
    ensures Unrolled(slots, h, n) == [slots[h]] + Unrolled(slots, SlotOf(h, 1), n - 1)
  {
    if n > 1 {
      UnrolledTail(slots, h, n - 1);
      assert SlotOf(h, n - 1) == SlotOf(SlotOf(h, 1), n - 2);
    }
  }

  class Ring<T> {
    const slots: array<T>
    var head: nat
    var tail: nat

    ghost predicate Valid()
      reads this
    {
      slots.Length == SLOTS && head < SLOTS && tail < SLOTS
    }

    /** The queue a ring represents, oldest element first. */
    ghost function Contents(): (s: seq<T>)
      requires Valid()
      reads this, slots
    {
      Unrolled(slots[..], head, Distance(head, tail))
    }

    function Count(): (n: nat)
      requires Valid()
      reads this, slots
      ensures n == |Contents()|
    {
      (tail - head + SLOTS) % SLOTS
    }

    constructor (filler: T)
      ensures Valid() && Contents() == [] && fresh(slots)
    {
      slots := new T[SLOTS](_ => filler);
      head, tail := 0, 0;
    }

    predicate Empty()
      requires Valid()
      reads this, slots
      ensures Empty() <==> Contents() == []
    {
      head == tail
    }

    predicate Full()
      requires Valid()
      reads this, slots
      ensures Full() <==> |Contents()| == CAPACITY
    {
      (tail + 1) % SLOTS == head
    }

    /** Appends `x`, or reports that the ring is full and changes nothing. */
    method Enqueue(x: T) returns (ok: bool)
      requires Valid()
      modifies this, slots
      ensures Valid()
      ensures ok <==> |old(Contents())| < CAPACITY
      ensures Contents() == if ok then old(Contents()) + [x] else old(Contents())
    {
      if Full() {
        return false;
      }
      UnrolledBeyond(slots[..], head, Distance(head, tail), Distance(head, tail), x);
      ghost var written := slots[..][tail := x];
      slots[tail] := x;
      assert slots[..] == written;
      tail := Next(tail);
      ok := true;
      assert Contents() == old(Contents()) + [x];
    }

    /** Removes the oldest element, or reports that there is none. */
    method Dequeue() returns (r: Option<T>)
      requires Valid()
      modifies this
      ensures Valid()
      ensures old(Contents()) == [] ==> r == None && Contents() == []
      ensures old(Contents()) != [] ==> r == Some(old(Contents())[0]) && Contents() == old(Contents())[1..]
    {
      if Empty() {
        return None;
      }
      UnrolledTail(slots[..], head, Distance(head, tail));
      r := Some(slots[head]);
      head := Next(head);
      assert Contents() == old(Contents())[1..];
    }

    /** Gives the newest slot back. */
    method PullBackTail()
      requires Valid() && Contents() != []
      modifies this`tail
      ensures Valid()
      ensures Contents() == old(Contents())[..|old(Contents())| - 1]
    {
      tail := Previous(tail);
    }
  }

  /** Walks from the head to the first slot equal to `target`, or to the tail. */
  method FindFirst<T(==)>(r: Ring<T>, target: T) returns (idx: nat, ghost k: nat)
    requires r.Valid()
    ensures k <= |r.Contents()| && idx == SlotOf(r.head, k)
    ensures target !in r.Contents()[..k]
    ensures k < |r.Contents()| ==> r.Contents()[k] == target
    ensures idx == r.tail <==> k == |r.Contents()|
  {
    ghost var n := |r.Contents()|;
    idx, k := r.head, 0;
    while idx != r.tail
      invariant 0 <= k <= n && idx == SlotOf(r.head, k)
      invariant target !in r.Contents()[..k]
      decreases n - k
    {
      UnrolledAt(r.slots[..], r.head, n, k);
      if r.slots[idx] == target {
        break;
      }
      idx := Next(idx);
      k := k + 1;
    }
  }

  /** `was` once the elements after position `k` up to position `j` have moved down by one. */
  ghost function Shifted<T>(was: seq<T>, k: nat, j: nat): (u: seq<T>)
    requires k <= j < |was|
    ensures |u| == |was|
  {
    was[..k] + was[k + 1..j + 1] + was[j..]
  }

  lemma ShiftedStep<T>(was: seq<T>, k: nat, j: nat)
    requires k <= j && j + 1 < |was|
    ensures Shifted(was, k, j)[j + 1] == was[j + 1]
    ensures Shifted(was, k, j)[j := was[j + 1]] == Shifted(was, k, j + 1)
  {
  }

  /** One copy of the closing loop, on the slots. */
  lemma ShiftOne<T>(slots: seq<T>, h: nat, was: seq<T>, k: nat, j: nat)
    requires |slots| == SLOTS && h < SLOTS && k <= j && j + 1 < |was| < SLOTS
    requires Unrolled(slots, h, |was|) == Shifted(was, k, j)
    ensures Unrolled(slots[SlotOf(h, j) := slots[SlotOf(h, j + 1)]], h, |was|) == Shifted(was, k, j + 1)
  {
    ShiftedStep(was, k, j);
    UnrolledAt(slots, h, |was|, j + 1);
    UnrolledUpdate(slots, h, |was|, j, was[j + 1]);
  }

  lemma ShiftedEnd<T>(was: seq<T>, k: nat)
    requires k < |was|
    ensures Shifted(was, k, |was| - 1)[..|was| - 1] == was[..k] + was[k + 1..]
  {
  }

  /** Moves every element behind the one in slot `idx` one slot towards the head. */
  method ShiftDown<T>(a: array<T>, t: nat, idx: nat, ghost h: nat, ghost k: nat)
    requires a.Length == SLOTS && h < SLOTS && t < SLOTS
    requires k < Distance(h, t) && idx == SlotOf(h, k)
    modifies a
    ensures Unrolled(a[..], h, Distance(h, t))
         == Shifted(Unrolled(old(a[..]), h, Distance(h, t)), k, Distance(h, t) - 1)
  {
    ghost var n := Distance(h, t);
    ghost var was := Unrolled(a[..], h, n);
    var cur := idx;
    ghost var j := k;
    assert Shifted(was, k, k) == was;
    while cur != t
      invariant k <= j < n && cur == SlotOf(h, j)
      invariant Unrolled(a[..], h, n) == Shifted(was, k, j)
      decreases n - j
    {
      var next := Next(cur);
      assert next == SlotOf(h, j + 1);
      if next == t {
        break;
      }
      ShiftOne(a[..], h, was, k, j);
      ghost var moved := a[..][cur := a[next]];
      a[cur] := a[next];
      assert a[..] == moved;
      cur := next;
      j := j + 1;
    }
    assert j == n - 1;
  }

  /** Removes the first element equal to `target`, keeping the order of the rest. */
  method DropFirst<T(==)>(r: Ring<T>, target: T)
    requires r.Valid()
    modifies r, r.slots
    ensures r.Valid()
    ensures r.Contents() == RemoveFirst(old(r.Contents()), target)
  {
    if r.Empty() {
      return;
    }
    var idx, k := FindFirst(r, target);
    if idx == r.tail {
      assert r.Contents()[..k] == r.Contents();
      return;
    }
    RemoveFirstAt(r.Contents(), target, k);
    ShiftedEnd(r.Contents(), k);
    ShiftDown(r.slots, r.tail, idx, r.head, k);
    r.PullBackTail();
  }
}
