// The intrusive tail queue of include/queue.h, kept at pointer level.
//
// `tqe_prev` and `tqh_last` hold the address of a `struct Env *` cell: either the head's
// `tqh_first` or the `tqe_next` field of some env. `Slot` is that address.
module TailQueue {
  import opened Common

  datatype Slot = First | NextOf(owner: Env)

  class Env {
    const idx: nat          // position in envs[]
    var next: Env?          // tqe_next
    var prev: Slot          // tqe_prev

    var id: nat             // env_id
    var parent: nat         // env_parent_id
    var status: Status      // env_status
    var pri: int            // env_pri, as the scheduler's int counter reads it
    var runs: nat           // env_runs
    var recving: bool       // env_ipc_recving
    var value: nat          // env_ipc_value
    var from: nat           // env_ipc_from
    var perm: nat          // env_ipc_perm
    var dstva: nat          // env_ipc_dstva

    constructor (idx: nat)
      ensures this.idx == idx && status == Free && next == null && prev == First && !recving
    {
      this.idx := idx;
      next, prev := null, First;
      id, parent, status, pri, runs := 0, 0, Free, 0, 0;
      recving, value, from, perm, dstva := false, 0, 0, 0, 0;
    }

    // The stores of the IPC calls to one env's block.
    method StartReceiving(dstva: nat)
      modifies this`recving, this`dstva
      ensures recving && this.dstva == dstva
    {
      recving := true;
      this.dstva := dstva;
    }

    method TakeMessage(value: nat, from: nat, perm: nat)
      modifies this`value, this`from, this`perm
      ensures this.value == value && this.from == from && this.perm == perm
    {
      this.value := value;
      this.from := from;
      this.perm := perm;
    }

    method WakeUp()
      modifies this`recving, this`status
      ensures !recving && status == Runnable
    {
      recving := false;
      status := Runnable;
    }
  }

  // A snapshot of the head cell and of the link fields of some envs.
  datatype Links = Links(next: Env?, prev: Slot)
  datatype Image = Image(first: Env?, last: Slot, at: map<Env, Links>)

  // The snapshot covers elm and the cells TAILQ_REMOVE(elm) writes.
  ghost predicate Covers(m: Image, elm: Env) {
    && elm in m.at
    && (m.at[elm].next != null ==> m.at[elm].next in m.at)
    && (m.at[elm].prev.NextOf? ==> m.at[elm].prev.owner in m.at)
  }

  ghost predicate LinkedAt(m: Image, q: seq<Env>, i: nat)
    requires i < |q|
  {
    && q[i] in m.at
    && m.at[q[i]].next == (if i + 1 < |q| then q[i + 1] else null)
    && m.at[q[i]].prev == (if i == 0 then First else NextOf(q[i - 1]))
  }

  // The head cell holds q[0]; every element points on to the next one and back to the cell that
  // points to it; `last` is the final cell.
  ghost predicate Linked(m: Image, q: seq<Env>) {
    && Distinct(q)
    && m.first == (if q == [] then null else q[0])
    && m.last == (if q == [] then First else NextOf(q[|q| - 1]))
    && (forall i {:trigger LinkedAt(m, q, i)} :: 0 <= i < |q| ==> LinkedAt(m, q, i))
  }

  // What the cell at `s` holds.
  ghost function Load(m: Image, s: Slot): Env?
    requires s.NextOf? ==> s.owner in m.at
  {
    match s case First => m.first case NextOf(e) => m.at[e].next
  }

  // *s = v on the snapshot.
  ghost function Stored(m: Image, s: Slot, v: Env?): Image
    requires s.NextOf? ==> s.owner in m.at
  {
    match s
    case First => m.(first := v)
    case NextOf(e) => m.(at := m.at[e := m.at[e].(next := v)])
  }

  // e->next = v and e->prev = s on the snapshot.
  ghost function Nexted(m: Image, e: Env, v: Env?): Image
    requires e in m.at
  {
    m.(at := m.at[e := m.at[e].(next := v)])
  }

  ghost function Preved(m: Image, e: Env, s: Slot): Image
    requires e in m.at
  {
    m.(at := m.at[e := m.at[e].(prev := s)])
  }

  // elm's own links still describe the two places TAILQ_REMOVE(elm) writes.
  ghost predicate Spliced(m: Image, elm: Env)
    requires Covers(m, elm)
  {
    && Load(m, m.at[elm].prev) == m.at[elm].next
    && (if m.at[elm].next != null then m.at[m.at[elm].next].prev == m.at[elm].prev
        else m.last == m.at[elm].prev)
  }

  // Each write of TAILQ_REMOVE(elm) stores what is already there or lands outside q.
  ghost predicate Harmless(m: Image, q: seq<Env>, elm: Env)
    requires Covers(m, elm)
  {
    var n, p := m.at[elm].next, m.at[elm].prev;
    && (Load(m, p) == n || (p.NextOf? && p.owner !in q))
    && (if n != null then m.at[n].prev == p || n !in q else m.last == p)
  }

  // TAILQ_REMOVE(elm) on the snapshot.
  ghost function Cut(m: Image, elm: Env): Image
    requires Covers(m, elm)
  {
    var n, p := m.at[elm].next, m.at[elm].prev;
    var m1 := if n != null then Preved(m, n, p) else m.(last := p);
    Stored(m1, p, n)
  }

  // No link leads out of the snapshot, whether or not its env is queued.
  ghost predicate Closed(m: Image) {
    && (m.last.NextOf? ==> m.last.owner in m.at)
    && (m.first != null ==> m.first in m.at)
    && (forall e :: e in m.at ==> Covers(m, e))
  }

  // TAILQ_INSERT_TAIL(elm) and TAILQ_INSERT_HEAD(elm) on the snapshot, store by store.
  ghost function PutTail(m: Image, elm: Env): Image
    requires Closed(m) && elm in m.at
  {
    Stored(Preved(Nexted(m, elm, null), elm, m.last), m.last, elm).(last := NextOf(elm))
  }

  ghost function PutHead(m: Image, elm: Env): Image
    requires Closed(m) && elm in m.at
  {
    var m1 := Nexted(m, elm, m.first);
    var m2 := if m.first != null then Preved(m1, m.first, NextOf(elm)) else m1.(last := NextOf(elm));
    Preved(m2.(first := elm), elm, First)
  }

  lemma PutTailLinks(m: Image, q: seq<Env>, elm: Env)
    requires Closed(m) && Linked(m, q) && elm in m.at && elm !in q
    ensures Closed(PutTail(m, elm)) && Linked(PutTail(m, elm), q + [elm])
  {
    var r, c := q + [elm], PutTail(m, elm);
    forall i | 0 <= i < |r| ensures LinkedAt(c, r, i) {
      if i < |q| { assert LinkedAt(m, q, i) && q[i] == r[i]; }
    }
    forall e | e in c.at ensures Covers(c, e) { assert Covers(m, e); }
  }

  lemma PutHeadLinks(m: Image, q: seq<Env>, elm: Env)
    requires Closed(m) && Linked(m, q) && elm in m.at && elm !in q
    ensures Closed(PutHead(m, elm)) && Linked(PutHead(m, elm), [elm] + q)
  {
    var r, c := [elm] + q, PutHead(m, elm);
    if q != [] { assert LinkedAt(m, q, |q| - 1) && LinkedAt(m, q, 0); }
    forall i | 0 <= i < |r| ensures LinkedAt(c, r, i) {
      if 0 < i { assert LinkedAt(m, q, i - 1) && q[i - 1] == r[i]; }
    }
    forall e | e in c.at ensures Covers(c, e) { assert Covers(m, e); }
  }

  // The links an element had in its queue, followed backwards from the tail.
  lemma {:induction false} SameTail(m: Image, q: seq<Env>, elm: Env, r: seq<Env>, n: nat)
    requires Closed(m) && Linked(m, q) && elm in q && elm in m.at && Linked(PutTail(m, elm), r)
    requires n < |q| - IndexOf(q, elm)
    ensures n + 1 < |r| && r[|r| - 1] == elm && r[|r| - 2 - n] == q[|q| - 1 - n]
  {
    var k, c := IndexOf(q, elm), PutTail(m, elm);
    assert r[|r| - 1] == elm && LinkedAt(c, r, |r| - 1);
    if n > 0 {
      SameTail(m, q, elm, r, n - 1);
      var x := q[|q| - n];
      assert LinkedAt(m, q, |q| - n) && LinkedAt(c, r, |r| - 1 - n);
      assert x != elm && c.at[x].prev == m.at[x].prev == NextOf(q[|q| - 1 - n]);
    } else {
      assert c.at[elm].prev == NextOf(q[|q| - 1]);
    }
  }

  // Inserting an element that is queued already leaves links that form no queue at all.
  lemma PutTailTwice(m: Image, q: seq<Env>, elm: Env)
    requires Closed(m) && Linked(m, q) && elm in q && elm in m.at
    ensures forall r :: !Linked(PutTail(m, elm), r)
  {
    forall r ensures !Linked(PutTail(m, elm), r) {
      if Linked(PutTail(m, elm), r) {
        var n := |q| - 1 - IndexOf(q, elm);
        SameTail(m, q, elm, r, n);
        assert false;
      }
    }
  }

  lemma CutCloses(m: Image, elm: Env)
    requires Closed(m) && elm in m.at
    ensures Closed(Cut(m, elm)) && Cut(m, elm).at.Keys == m.at.Keys
  {
    var c := Cut(m, elm);
    assert Covers(m, elm);
    forall e | e in c.at ensures Covers(c, e) { assert Covers(m, e); }
  }

  // A queued element is taken out, and the rest keeps its order.
  lemma CutQueued(m: Image, q: seq<Env>, k: nat)
    requires Linked(m, q) && k < |q| && Covers(m, q[k])
    ensures Linked(Cut(m, q[k]), Drop(q, k))
  {
    var r, c := Drop(q, k), Cut(m, q[k]);
    assert LinkedAt(m, q, k);
    forall i | 0 <= i < |r| ensures LinkedAt(c, r, i) {
      assert LinkedAt(m, q, if i < k then i else i + 1);
    }
    if k == |q| - 1 && 0 < k { assert LinkedAt(m, q, k - 1); }
  }

  // Removing an element outside the queue leaves the queue well formed exactly when both writes
  // are harmless.
  lemma CutStale(m: Image, q: seq<Env>, elm: Env)
    requires Linked(m, q) && elm !in q && Covers(m, elm)
    ensures Linked(Cut(m, elm), q) <==> Harmless(m, q, elm)
  {
    var n, p, c := m.at[elm].next, m.at[elm].prev, Cut(m, elm);
    if Harmless(m, q, elm) {
      forall i | 0 <= i < |q| ensures LinkedAt(c, q, i) { assert LinkedAt(m, q, i); }
    } else if p.NextOf? && p.owner in q && Load(m, p) != n {
      var i := IndexOf(q, p.owner);
      assert LinkedAt(m, q, i) && !LinkedAt(c, q, i);
    } else if n != null && n in q && m.at[n].prev != p {
      var j := IndexOf(q, n);
      assert LinkedAt(m, q, j) && !LinkedAt(c, q, j);
    }
  }

  // Where they are not: the last element a leaves, y arrives at the tail, and a is removed again.
  // The links then form the queue without y, which is in no queue any more.
  lemma StaleRemoveLoses(m: Image, q: seq<Env>, a: Env, y: Env)
    requires Closed(m) && Linked(m, q + [a]) && a in m.at && y in m.at && y !in q + [a]
    ensures Closed(Cut(m, a)) && Closed(PutTail(Cut(m, a), y))
    ensures var m2 := PutTail(Cut(m, a), y);
            && Linked(m2, q + [y]) && a in m2.at && Linked(Cut(m2, a), q)
            && !Harmless(m2, q + [y], a)
  {
    var q1 := q + [a];
    assert LinkedAt(m, q1, |q|) && q1[|q|] == a && Drop(q1, |q|) == q;
    CutCloses(m, a);
    CutQueued(m, q1, |q|);
    var m1 := Cut(m, a);
    PutTailLinks(m1, q, y);
    var m2 := PutTail(m1, y);
    var m3 := Cut(m2, a);
    forall i | 0 <= i < |q| ensures LinkedAt(m3, q, i) {
      assert LinkedAt(m1, q, i);
      assert LinkedAt(m2, q + [y], i);
    }
  }

  // Removing a queued element a second time, with nothing in between, changes nothing at all:
  // a blocking env is removed once by the system call and once more by the scheduler.
  lemma CutTwice(m: Image, q: seq<Env>, k: nat)
    requires Linked(m, q) && k < |q| && Covers(m, q[k])
    ensures Covers(Cut(m, q[k]), q[k]) && Spliced(Cut(m, q[k]), q[k])
    ensures Cut(Cut(m, q[k]), q[k]) == Cut(m, q[k])
  {
    assert LinkedAt(m, q, k);
    CutSpliced(Cut(m, q[k]), q[k]);
  }

  lemma CutSpliced(m: Image, elm: Env)
    requires Covers(m, elm) && Spliced(m, elm)
    ensures Cut(m, elm) == m
  {
    var n, p := m.at[elm].next, m.at[elm].prev;
    assert n != null ==> m.at[n].(prev := p) == m.at[n];
    assert p.NextOf? ==> m.at[p.owner].(next := n) == m.at[p.owner];
  }

  // The head cell, over the envs of envs[].
  class Queue {
    ghost const all: set<Env>
    var first: Env?         // tqh_first
    var last: Slot          // tqh_last
    ghost var Contents: seq<Env>

    ghost function Snap(): (m: Image)
      reads this`first, this`last, all`next, all`prev
      ensures m.at.Keys == all && m.first == first && m.last == last
    {
      Image(first, last, map e | e in all :: Links(e.next, e.prev))
    }

    ghost predicate Valid()
      reads this, all`next, all`prev
    {
      Closed(Snap()) && Linked(Snap(), Contents)
    }

    constructor (ghost all: set<Env>)
      requires forall e :: e in all ==> e.next == null && e.prev == First
      ensures this.all == all && Contents == [] && Valid()
    {
      this.all := all;
      first, last := null, First;
      Contents := [];
    }

    // *s = v
    method Store(s: Slot, v: Env?)
      requires s.NextOf? ==> s.owner in all
      modifies this`first, all`next
      ensures match s
              case First => first == v && forall e :: e in all ==> e.next == old(e.next)
              case NextOf(o) => first == old(first) && o.next == v &&
                                forall e :: e in all && e != o ==> e.next == old(e.next)
      ensures Snap() == Stored(old(Snap()), s, v)
    {
      match s
      case First => first := v;
      case NextOf(e) => e.next := v;
    }

    // Stores to the two link fields of one env.
    method PutNext(e: Env, v: Env?)
      requires e in all
      modifies e`next
      ensures Snap() == Nexted(old(Snap()), e, v)
    {
      e.next := v;
    }

    method PutPrev(e: Env, s: Slot)
      requires e in all
      modifies e`prev
      ensures e.prev == s && Snap() == Preved(old(Snap()), e, s)
    {
      e.prev := s;
    }

    method PutFirst(v: Env?)
      modifies this`first
      ensures first == v && Snap() == old(Snap()).(first := v)
    {
      first := v;
    }

    method PutLast(s: Slot)
      modifies this`last
      ensures last == s && Snap() == old(Snap()).(last := s)
    {
      last := s;
    }

    // TAILQ_INSERT_TAIL
    method LinkTail(elm: Env)
      requires Closed(Snap()) && elm in all
      modifies this`first, this`last, all`next, all`prev
      ensures Snap() == PutTail(old(Snap()), elm)
    {
      hide Snap;
      PutNext(elm, null);
      PutPrev(elm, last);
      Store(last, elm);
      PutLast(NextOf(elm));
    }

    // TAILQ_INSERT_HEAD
    method LinkHead(elm: Env)
      requires Closed(Snap()) && elm in all
      modifies this`first, this`last, all`next, all`prev
      ensures Snap() == PutHead(old(Snap()), elm)
    {
      hide Snap;
      PutNext(elm, first);
      if first != null {
        PutPrev(first, NextOf(elm));
      } else {
        PutLast(NextOf(elm));
      }
      PutFirst(elm);
      PutPrev(elm, First);
    }

    // TAILQ_REMOVE. The macro never checks that elm is queued: it trusts elm's links.
    method Unlink(elm: Env)
      requires Closed(Snap()) && elm in all
      modifies this`first, this`last, all`next, all`prev
      ensures Snap() == Cut(old(Snap()), elm)
    {
      assert Covers(Snap(), elm) && Snap().at[elm] == Links(elm.next, elm.prev);
      hide Snap;
      if elm.next != null {
        PutPrev(elm.next, elm.prev);
      } else {
        PutLast(elm.prev);
      }
      Store(elm.prev, elm.next);
    }

    // The macro does not look whether elm is queued already; if it is, no queue is left
    // (PutTailTwice).
    method InsertTail(elm: Env)
      requires Valid() && elm in all
      modifies this, all`next, all`prev
      ensures Contents == old(Contents) + [elm]
      ensures Snap() == PutTail(old(Snap()), elm)
      ensures Valid() <==> elm !in old(Contents)
    {
      if elm in Contents {
        PutTailTwice(Snap(), Contents, elm);
      } else {
        PutTailLinks(Snap(), Contents, elm);
      }
      LinkTail(elm);
      Contents := Contents + [elm];
    }

    method InsertHead(elm: Env)
      requires Valid() && elm in all && elm !in Contents
      modifies this, all`next, all`prev
      ensures Valid() && Contents == [elm] + old(Contents)
    {
      PutHeadLinks(Snap(), Contents, elm);
      LinkHead(elm);
      Contents := [elm] + Contents;
    }

    // TAILQ_FIRST
    method Head() returns (e: Env?)
      requires Valid()
      ensures e == if Contents == [] then null else Contents[0]
    {
      e := first;
    }

    // The queue loses elm if it was there; it survives exactly when elm was queued or both
    // writes are harmless.
    method Remove(elm: Env)
      requires Valid() && elm in all
      modifies this, all`next, all`prev
      ensures Contents == Without(old(Contents), elm)
      ensures Snap() == Cut(old(Snap()), elm)
      ensures Valid() <==> old(elm in Contents || Harmless(Snap(), Contents, elm))
      ensures old(elm in Contents || Spliced(Snap(), elm)) ==> Valid() && Spliced(Snap(), elm)
    {
      CutCloses(Snap(), elm);
      if elm in Contents {
        CutQueued(Snap(), Contents, IndexOf(Contents, elm));
        CutTwice(Snap(), Contents, IndexOf(Contents, elm));
      } else {
        CutStale(Snap(), Contents, elm);
      }
      if Spliced(Snap(), elm) {
        CutSpliced(Snap(), elm);
      }
      Unlink(elm);
      Contents := Without(Contents, elm);
    }
  }
}
