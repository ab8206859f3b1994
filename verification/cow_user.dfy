// user/lib/fork.c as it is written: cow_entry, duppage and fork as sequences of memory system
// calls on the page tables, each tied to the step it takes.
module CowUser {
  import opened Common
  import opened Cow
  import opened CowRefines

  const UCOW_VPN: nat := 0x3ff
  const USTACKTOP_VPN: nat := 0x7f3fe

  // The memory after a fork in which nobody else ran: the child has a copy of every page of the
  // parent's below limit.
  function Forked(t: Memory, p: nat, c: nat, limit: nat): Memory {
    t + map l | l in (set k | k in t && k.env == p && k.vpn < limit :: Loc(c, k.vpn)) && Loc(p, l.vpn) in t
        :: t[Loc(p, l.vpn)]
  }

  ghost function Dupped(s: State, p: nat, v: nat): State
    requires Inv(s) && Enabled(s, MapChild(p, v))
  {
    var s1 := Act(s, MapChild(p, v));
    StepKeepsInv(s, MapChild(p, v));
    if Splits(s.m[Loc(p, v)]) then Act(s1, Remap(p)) else s1
  }

  lemma SeenIfMapped(s: State, l: Loc)
    requires Sane(s) && Forks(s) && l.env in s.active
    ensures l in Abs(s) <==> l in s.m
  {
    ActiveShows(s, l);
  }

  // A whole duppage copies one page.
  lemma DuppageCopies(s: State, p: nat, v: nat)
    requires Inv(s) && Enabled(s, MapChild(p, v))
    ensures var t := Dupped(s, p, v);
            && Inv(t) && Loc(p, v) in Abs(s)
            && Abs(t) == Abs(s)[Loc(s.fork[p], v) := Abs(s)[Loc(p, v)]]
    ensures Dupped(s, p, v).pend == s.pend && Dupped(s, p, v).fork == s.fork && Dupped(s, p, v).active == s.active
  {
    hide Abs, Hidden, Exclusive, Sane, Bits;
    var step := MapChild(p, v);
    StepMeans(s, step);
    assert Loc(p, v) in Abs(s) by { SeenIfMapped(s, Loc(p, v)); }
    if Splits(s.m[Loc(p, v)]) {
      var s1 := Act(s, step);
      StepMeans(s1, Remap(p));
    }
  }

  lemma DuppedKeys(s: State, p: nat, v: nat)
    requires Inv(s) && Enabled(s, MapChild(p, v))
    ensures Dupped(s, p, v).m.Keys == s.m.Keys + {Loc(s.fork[p], v)} && Dupped(s, p, v).data == s.data
  {
    hide Exclusive, Bits, Sane;
    StepKeepsInv(s, MapChild(p, v));
    if Splits(s.m[Loc(p, v)]) { assert PendOk(Act(s, MapChild(p, v)), p); }
  }

  lemma ForkStarts(s: State, p: nat, c: nat)
    requires Inv(s) && Enabled(s, Begin(p, c))
    ensures p in s.active && p !in s.pend && p !in s.fork && Abs(s) == Forked(Abs(s), p, c, 0)
    ensures forall l :: l in s.m ==> l.env != c
  {
    assert p !in s.pend by { assert p in s.pend ==> PendOk(s, p); }
  }

  predicate Copied(t: Memory, p: nat, c: nat, limit: nat, l: Loc) {
    l.env == c && l.vpn < limit && Loc(p, l.vpn) in t
  }

  lemma ForkedAt(t: Memory, p: nat, c: nat, limit: nat, l: Loc)
    ensures l in Forked(t, p, c, limit) <==> l in t || Copied(t, p, c, limit, l)
    ensures Copied(t, p, c, limit, l) ==> Forked(t, p, c, limit)[l] == t[Loc(p, l.vpn)]
    ensures l in t && !Copied(t, p, c, limit, l) ==> Forked(t, p, c, limit)[l] == t[l]
  {
    if Copied(t, p, c, limit, l) {
      assert Loc(p, l.vpn) in t && l == Loc(c, Loc(p, l.vpn).vpn);
    }
  }

  lemma ForkedMoves(t: Memory, p: nat, c: nat, i: nat)
    requires p != c
    ensures Loc(p, i) in Forked(t, p, c, i) <==> Loc(p, i) in t
    ensures Loc(p, i) in t ==> Forked(t, p, c, i)[Loc(p, i)] == t[Loc(p, i)]
    ensures Loc(p, i) in t ==> Forked(t, p, c, i)[Loc(c, i) := t[Loc(p, i)]] == Forked(t, p, c, i + 1)
    ensures Loc(p, i) !in t ==> Forked(t, p, c, i) == Forked(t, p, c, i + 1)
  {
    hide Forked;
    ForkedAt(t, p, c, i, Loc(p, i));
    var from, to := Forked(t, p, c, i), Forked(t, p, c, i + 1);
    var moved := if Loc(p, i) in t then from[Loc(c, i) := t[Loc(p, i)]] else from;
    forall l ensures l in to <==> l in moved {
      ForkedAt(t, p, c, i, l);
      ForkedAt(t, p, c, i + 1, l);
    }
    forall l | l in to ensures to[l] == moved[l] {
      ForkedAt(t, p, c, i, l);
      ForkedAt(t, p, c, i + 1, l);
    }
  }

  // Page i of the parent is what the copies made so far say, and copying it extends them.
  lemma ForkMoves(s0: State, s: State, p: nat, c: nat, i: nat)
    requires Inv(s0) && Inv(s) && p != c && p in s.active && Abs(s) == Forked(Abs(s0), p, c, i)
    ensures Loc(p, i) in Abs(s) <==> Loc(p, i) in s.m
    ensures Loc(p, i) in s.m ==> Abs(s)[Loc(c, i) := Abs(s)[Loc(p, i)]] == Forked(Abs(s0), p, c, i + 1)
    ensures Loc(p, i) !in s.m ==> Abs(s) == Forked(Abs(s0), p, c, i + 1)
  {
    hide Abs, Forked, Bits, Exclusive, Sane;
    SeenIfMapped(s, Loc(p, i));
    ForkedMoves(Abs(s0), p, c, i);
  }

  class System {
    var m: map<Loc, Pte>
    var data: map<nat, seq<int>>
    var active: set<nat>
    ghost var fork: map<nat, nat>
    ghost var pend: map<nat, nat>

    ghost function Snap(): State
      reads this
    {
      State(m, data, active, fork, pend)
    }

    // sys_mem_alloc, sys_mem_map and sys_mem_unmap where they succeed. nf is the frame
    // page_alloc hands out.
    method MemAlloc(l: Loc, perm: Pte, nf: nat)
      modifies this`m, this`data
      ensures m == old(m)[l := perm.(frame := nf)] && data == old(data)[nf := Blank()]
    {
      data := data[nf := Blank()];
      m := m[l := perm.(frame := nf)];
    }

    method MemMap(src: Loc, dst: Loc, perm: Pte)
      requires src in m
      modifies this`m
      ensures m == old(m)[dst := perm.(frame := old(m)[src].frame)]
    {
      m := m[dst := perm.(frame := m[src].frame)];
    }

    method MemUnmap(l: Loc)
      modifies this`m
      ensures m == old(m) - {l}
    {
      m := m - {l};
    }

    // The page at va becomes a private writable copy; a fault on a page that is not copy-on-write
    // changes nothing and panics.
    method CowEntry(e: nat, v: nat, nf: nat) returns (panic: bool)
      requires Inv(Snap()) && Loc(e, v) in m && v != UCOW_VPN && Unused(Snap(), nf)
      modifies this`m, this`data
      ensures panic <==> !old(m)[Loc(e, v)].cow
      ensures panic ==> Snap() == old(Snap())
      ensures !panic ==>
        Snap() == var t := Cow.CowEntry(old(Snap()), Loc(e, v), nf); t.(m := t.m - {Loc(e, UCOW_VPN)})
    {
      hide Forks, Exclusive;
      var va, ucow := Loc(e, v), Loc(e, UCOW_VPN);
      var perm := m[va];
      if !perm.cow {
        return true;
      }
      perm := perm.(cow := false, d := true);
      MemAlloc(ucow, perm, nf);
      data := data[m[ucow].frame := data[m[va].frame]];
      MemMap(ucow, va, perm);
      MemUnmap(ucow);
      panic := false;
    }

    // First the child's mapping, then the parent's: in between, the parent's frame is still
    // writable by the parent and the child's mapping is already copy-on-write.
    method Duppage(p: nat, c: nat, v: nat)
      requires Inv(Snap()) && Enabled(Snap(), MapChild(p, v)) && fork[p] == c
      modifies this`m, this`pend
      ensures Inv(Snap()) && Snap() == Dupped(old(Snap()), p, v)
    {
      hide Inv, Exclusive, Bits, Forks, Sane;
      DuppageCopies(Snap(), p, v);
      var l, dst := Loc(p, v), Loc(c, v);
      ghost var s0 := Snap();
      var perm := m[l];
      var flag := false;
      if perm.d && !perm.lib {
        perm := perm.(d := false, cow := true);
        flag := true;
      }
      MemMap(l, dst, perm);
      if flag {
        pend := pend[p := v];
        assert Snap() == Act(s0, MapChild(p, v));
        MemMap(l, l, perm);
        pend := pend - {p};
      }
    }

    // fork, from the moment syscall_exofork returned child c. When nobody else runs meanwhile,
    // the child ends up with a copy of every page below USTACKTOP and nothing else changes.
    method Fork(p: nat, c: nat)
      requires Inv(Snap()) && Enabled(Snap(), Begin(p, c))
      modifies this`m, this`pend, this`fork, this`active
      ensures Inv(Snap()) && active == old(active) + {c} && fork == old(fork) && pend == old(pend)
      ensures Abs(Snap()) == Forked(Abs(old(Snap())), p, c, USTACKTOP_VPN)
      ensures data == old(data)
    {
      hide Sane, Forks, Abs, Forked, Exclusive, Bits, Dupped;
      StepMeans(Snap(), Begin(p, c));
      ghost var s0 := Snap();
      ForkStarts(s0, p, c);
      fork := fork[p := c];
      var i := 0;
      while i < USTACKTOP_VPN
        invariant 0 <= i <= USTACKTOP_VPN
        invariant Inv(Snap()) && fork == s0.fork[p := c] && pend == s0.pend && active == s0.active && data == s0.data
        invariant Abs(Snap()) == Forked(Abs(s0), p, c, i)
        invariant forall l :: l in m && l.env == c ==> l.vpn < i
      {
        ghost var s1 := Snap();
        ForkMoves(s0, s1, p, c, i);
        if Loc(p, i) in m {
          DuppageCopies(s1, p, i);
          Duppage(p, c, i);
          DuppedKeys(s1, p, i);
        }
        i := i + 1;
      }
      StepMeans(Snap(), End(p));
      active := active + {c};
      fork := fork - {p};
      assert fork == s0.fork;
    }
  }

  // Were the parent remapped before the child is mapped, as the comment in duppage asks not to, a
  // store by the parent between the two calls would take its copy-on-write fault there and then,
  // and leave the page writable under the child: its next store reaches both.
  lemma WrongOrderLeaks(p: nat, c: nat, b: int, f: nat, nf: nat)
    requires p != c && f != nf && b != 0
    ensures var l, k := Loc(p, 0), Loc(c, 0);
      var s0 := State(map[l := Pte(f, true, false, false)], map[f := Blank()], {p}, map[p := c], map[]);
      var s1 := s0.(m := s0.m[l := AsCow(s0.m[l])]);
      Inv(s0) && Inv(s1) && Enabled(s1, Write(p, 0, 0, 0, nf))
      && var s2 := Act(s1, Write(p, 0, 0, 0, nf));
      && var s3 := s2.(m := s2.m[k := s1.m[l].(frame := s2.m[l].frame)]);
      !Exclusive(s3) && Load(s3, c, 0, 0) == Some(0) && Load(Poke(s3, l, 0, b), c, 0, 0) == Some(b)
  {
    var l, k := Loc(p, 0), Loc(c, 0);
    var s0 := State(map[l := Pte(f, true, false, false)], map[f := Blank()], {p}, map[p := c], map[]);
    var s1 := s0.(m := s0.m[l := AsCow(s0.m[l])]);
    var s2 := Act(s1, Write(p, 0, 0, 0, nf));
    var s3 := s2.(m := s2.m[k := s1.m[l].(frame := s2.m[l].frame)]);
    assert !Alone(s3, l, k);
  }

  // A whole duppage whose permission q was read some time before its calls.
  function DuppedWith(s: State, p: nat, v: nat, q: Pte): State
    requires p in s.fork && Loc(p, v) in s.m
  {
    var l := Loc(p, v);
    var pte := (if Splits(q) then AsCow(q) else q).(frame := s.m[l].frame);
    s.(m := if Splits(q) then s.m[Loc(s.fork[p], v) := pte][l := pte] else s.m[Loc(s.fork[p], v) := pte])
  }

  lemma DuppedNow(s: State, p: nat, v: nat)
    requires Inv(s) && Enabled(s, MapChild(p, v))
    ensures DuppedWith(s, p, v, s.m[Loc(p, v)]) == Dupped(s, p, v)
  {
    hide Exclusive, Bits, Sane;
    StepKeepsInv(s, MapChild(p, v));
    var q := s.m[Loc(p, v)];
    assert q.(frame := q.frame) == q && AsCow(q).(frame := q.frame) == AsCow(q);
    assert DuppedWith(s, p, v, q).m == Dupped(s, p, v).m;
  }

  // Between the read and the calls only a store of the parent itself can change the page's entry, by
  // a copy-on-write fault. duppage is then right if and only if there was none; if there was one, the
  // parent's frame stays writable under the child and its next store shows in the child.
  lemma StalePermission(s: State, p: nat, v: nat, q: Pte, i: nat, b: int)
    requires Inv(s) && Enabled(s, MapChild(p, v)) && i < PAGE_SIZE
    requires var now := s.m[Loc(p, v)];
             now == q || (q.cow && !q.d && !q.lib && now == q.(frame := now.frame, d := true, cow := false))
    ensures Inv(DuppedWith(s, p, v, q)) <==> q == s.m[Loc(p, v)]
    ensures q == s.m[Loc(p, v)] ==> DuppedWith(s, p, v, q) == Dupped(s, p, v)
    ensures q != s.m[Loc(p, v)] ==>
              var t, l, c := DuppedWith(s, p, v, q), Loc(p, v), s.fork[p];
              t.m[l].d && Sane(t) && Sane(Poke(t, l, i, b)) && Load(Poke(t, l, i, b), c, v, i) == Some(b)
  {
    var t, l, k := DuppedWith(s, p, v, q), Loc(p, v), Loc(s.fork[p], v);
    if q == s.m[l] {
      DuppageCopies(s, p, v);
      DuppedNow(s, p, v);
    } else {
      hide Dupped;
      assert !Alone(t, l, k);
    }
  }
}
