// kern/pmap.c, kern/tlbex.c and the memory half of kern/env.c, run on the fields they change.
module Pmap {
  import opened Common
  import opened VmSpec
  import opened VmWords

  const NASID: nat := 256
  const UTEMP: nat := 0x3fe             // VPN(UTEMP)
  const USTACKTOP: nat := 0x7f3fe       // VPN(USTACKTOP)
  const UVPT: nat := 0x7fc00            // VPN(UVPT)

  // Frames on the free list: the old ones, and those that lost their last reference since.
  ghost predicate Reclaims(vm: VM, w: VM) {
    && |w.ref| == |vm.ref|
    && (forall f: nat :: f in w.free <==>
          f in vm.free || (f < |vm.ref| && vm.ref[f] > 0 && w.ref[f] == 0))
    && (forall f :: 0 <= f < |vm.ref| && vm.ref[f] == 0 ==> w.ref[f] == 0)
  }

  lemma DecrefReclaims(vm: VM, w: VM, f: nat)
    requires Reclaims(vm, w) && f < |w.ref| && w.ref[f] > 0
    ensures Reclaims(vm, Decref(w, f))
  {
  }

  ghost predicate Changed(M0: map<Site, Pte>, M1: map<Site, Pte>, d: nat, v: nat, p: Pte) {
    && User(d, v) in M1 && M1[User(d, v)] == p
    && (forall s :: s in M0 && s != User(d, v) ==> s in M1 && M1[s] == M0[s])
    && (forall s :: s in M1 && s !in M0 ==> s == User(d, v) || s == Table(d, v / NPTE))
  }

  lemma ChangedBy(M0: map<Site, Pte>, M1: map<Site, Pte>, d: nat, v: nat, p: Pte, t: Pte)
    requires M1 == M0 || (Table(d, v / NPTE) !in M0 && M1 == M0[Table(d, v / NPTE) := t])
    ensures Changed(M0, M1[User(d, v) := p], d, v, p)
  {
  }

  lemma ChangedMapped(M0: map<Site, Pte>, d: nat, v: nat, p: Pte)
    requires User(d, v) in M0
    ensures Changed(M0, M0[User(d, v) := p], d, v, p)
  {
  }

  lemma ChangedSince(M0: map<Site, Pte>, M1: map<Site, Pte>, d: nat, v: nat, p: Pte)
    requires Changed(M0 - {User(d, v)}, M1, d, v, p)
    ensures Changed(M0, M1, d, v, p)
  {
  }

  class Memory {
    var ref: seq<nat>                     // pages[].pp_ref
    var free: seq<nat>                    // page_free_list
    var tab: seq<seq<Pte>>                // frames, read as tables
    var tlb: map<(nat, nat), (Lo, Lo)>    // ASID and page pair -> the two halves
    var used: seq<bool>                   // asid_bitmap
    ghost var dirs: set<nat>
    ghost var M: map<Site, Pte>
    ghost var owner: map<nat, nat>

    ghost function Snap(): VM
      reads this
    {
      VM(ref, free, tab, dirs, M, tlb, owner)
    }

    ghost predicate Valid()
      reads this
    {
      && Good(Snap())
      && |used| == NASID
      && (forall a: nat :: a in owner <==> a < NASID && used[a])
    }

    // The ASID the code passes along with a directory is the one that directory's env owns.
    ghost predicate Pair(d: nat, a: nat)
      reads this
    {
      d in dirs && a in owner && owner[a] == d
    }

    // page_init: frames below `boot` are taken, the others are pushed one by one.
    constructor (npage: nat, boot: nat)
      requires boot <= npage
      ensures Valid() && |ref| == npage && dirs == {} && owner == map[] && tlb == map[]
      ensures forall f: nat :: f in free <==> boot <= f < npage
      ensures forall f: nat :: f < npage ==> ref[f] == if f < boot then 1 else 0
    {
      hide Good;
      ref := seq(npage, i => 0);
      tab := seq(npage, i => Zeros());
      tlb, used := map[], seq(NASID, i => false);
      dirs, owner, free := {}, map[], [];
      M := BootRefs(boot);
      new;
      var i := 0;
      while i < boot
        invariant 0 <= i <= boot && |ref| == npage
        invariant forall f: nat :: f < npage ==> ref[f] == if f < i then 1 else 0
        invariant free == [] && |tab| == npage && (forall f: nat :: f < npage ==> tab[f] == Zeros())
        invariant dirs == {} && owner == map[] && tlb == map[] && used == seq(NASID, i => false)
        invariant M == BootRefs(boot)
      {
        ref := ref[i := 1];
        i := i + 1;
      }
      while i < npage
        invariant boot <= i <= npage && Distinct(free) && |ref| == npage
        invariant forall f: nat :: f in free <==> boot <= f < i
        invariant forall f: nat :: f < npage ==> ref[f] == if f < boot then 1 else 0
        invariant |tab| == npage && (forall f: nat :: f < npage ==> tab[f] == Zeros())
        invariant dirs == {} && owner == map[] && tlb == map[] && used == seq(NASID, i => false)
        invariant M == BootRefs(boot)
      {
        ref := ref[i := 0];
        assert i !in free;
        free := [i] + free;
        i := i + 1;
      }
      InitGood(Snap(), boot);
    }

    // page_alloc
    method PageAlloc() returns (r: int, f: nat)
      requires Good(Snap())
      modifies this`free, this`tab
      ensures Good(Snap())
      ensures r == 0 ==> old(free) != [] && f == old(free)[0] && f < |old(tab)| && Snap() == Taken(old(Snap()))
      ensures r == 0 ==> Loose(Snap(), f) && forall j :: 0 <= j < NPTE ==> Entry(tab, f, j) == ZERO
      ensures r != 0 ==> r == E_NO_MEM && old(free) == [] && Snap() == old(Snap())
    {
      if free == [] {
        return E_NO_MEM, 0;
      }
      f := free[0];
      assert f in free;
      TakenGood(Snap());
      free := free[1..];
      tab := tab[f := Zeros()];
      r := 0;
    }

    // page_decref with page_free
    method PageDecref(f: nat)
      requires f < |ref| && ref[f] > 0
      modifies this`ref, this`free
      ensures Snap() == Decref(old(Snap()), f)
    {
      ref := ref[f := ref[f] - 1];
      if ref[f] == 0 {
        free := [f] + free;
      }
    }

    // tlb_invalidate
    method TlbInvalidate(a: nat, v: nat)
      modifies this`tlb
      ensures Snap() == Flush(old(Snap()), a, v)
    {
      tlb := tlb - {(a, v / 2)};
    }

    // pgdir_walk: the table and index of the word for page v, or None.
    method PgdirWalk(d: nat, v: nat, create: bool) returns (r: int, ppte: Option<(nat, nat)>)
      requires Good(Snap()) && d in dirs && v < NUSER
      modifies this`free, this`tab, this`ref, this`M
      ensures Good(Snap())
      ensures old(HasTable(Snap(), d, v)) || !create ==> r == 0 && Snap() == old(Snap())
      ensures !create && !old(HasTable(Snap(), d, v)) ==> ppte == None
      ensures r == 0 && (create || old(HasTable(Snap(), d, v))) ==>
                HasTable(Snap(), d, v) && ppte == Some((TableOf(Snap(), d, v), v % NPTE))
      ensures r != 0 ==> r == E_NO_MEM && Snap() == old(Snap()) && free == []
      ensures create && !old(HasTable(Snap(), d, v)) && r == 0 ==>
                && old(free) != [] && free == old(free)[1..]
                && M == old(M)[Table(d, v / NPTE) := Pte(true, old(free)[0], false, 0)]
      ensures |ref| == |old(ref)| && forall g :: g in free ==> g in old(free)
      ensures WordsStay(old(Snap()), Snap()) && HeldStay(old(Snap()), Snap())
    {
      hide Good, Loose, Held;
      ghost var s := Snap();
      WalkFinds(s, d, v);
      NothingMoves(s);
      r := 0;
      var pde := tab[d][v / NPTE];
      if !pde.valid {
        if !create {
          return 0, None;
        }
        var pp;
        r, pp := PageAlloc();
        if r != 0 {
          return r, None;
        }
        LooseFacts(Snap(), pp, d);
        HookedGood(Snap(), d, v / NPTE, pp);
        HooksWords(s, d, v / NPTE);
        tab := Put(tab, d, v / NPTE, Pte(true, pp, false, 0));
        ref := ref[pp := ref[pp] + 1];
        M := M[Table(d, v / NPTE) := Pte(true, pp, false, 0)];
      }
      ppte := Some((tab[d][v / NPTE].frame, v % NPTE));
    }

    lemma NothingMoves(vm: VM)
      ensures WordsStay(vm, vm) && HeldStay(vm, vm)
    {
    }

    lemma HooksWords(vm: VM, d: nat, i: nat)
      requires Good(vm) && d in vm.dirs && vm.free != [] && vm.free[0] < |vm.tab| && i < NPTE
      ensures d < |vm.tab| && i < |Taken(vm).tab[d]| && vm.free[0] < |vm.ref|
      ensures var w := Hooked(Taken(vm), d, i, vm.free[0]); WordsStay(vm, w) && HeldStay(vm, w)
    {
      TakenGood(vm);
      WalkFinds(vm, d, 0);
      assert SiteOk(vm, Dir(d));
      hide Good;
      HookedStays(vm, d, i);
    }

    // Words and who holds them do not depend on the TLB and the ASIDs.
    lemma Apart(s: VM, t: VM, w: VM)
      requires WordsStay(s, t) && w.tab == t.tab && w.M == t.M && w.free == t.free
      ensures WordsStay(s, w)
    {
      assert forall f: nat :: Held(w, f) == Held(t, f);
    }

    lemma LooseFacts(vm: VM, f: nat, d: nat)
      requires Good(vm) && Loose(vm, f) && d in vm.dirs
      ensures f < |vm.ref| && f != d && d < |vm.tab| && |vm.tab[d]| == NPTE && Data(vm, f)
    {
      WalkFinds(vm, d, 0);
    }

    // page_lookup
    method PageLookup(d: nat, v: nat) returns (pp: Option<nat>, ppte: (nat, nat))
      requires Good(Snap()) && d in dirs && v < NUSER
      modifies this`free, this`tab, this`ref, this`M
      ensures Snap() == old(Snap())
      ensures User(d, v) in M <==> pp.Some?
      ensures pp.Some? ==> HasTable(Snap(), d, v) && pp.value == M[User(d, v)].frame
                           && ppte == (TableOf(Snap(), d, v), v % NPTE)
    {
      hide Good;
      var r, w := PgdirWalk(d, v, false);
      WalkFinds(Snap(), d, v);
      if w == None {
        return None, (0, 0);
      }
      ppte := w.value;
      if !tab[ppte.0][ppte.1].valid {
        return None, (0, 0);
      }
      pp := Some(tab[ppte.0][ppte.1].frame);
    }

    // page_remove
    method PageRemove(d: nat, a: nat, v: nat)
      requires Good(Snap()) && Pair(d, a) && v < NUSER
      modifies this`free, this`tab, this`ref, this`M, this`tlb
      ensures Good(Snap()) && M == old(M) - {User(d, v)}
      ensures User(d, v) !in old(M) ==> Snap() == old(Snap())
      ensures User(d, v) in old(M) ==> (a, v / 2) !in tlb
      ensures forall g :: g in free ==> g in old(free) || (User(d, v) in old(M) && g == old(M)[User(d, v)].frame)
      ensures Reclaims(old(Snap()), Snap()) && |ref| == |old(ref)|
      ensures forall i: nat :: i < NPDE ==> Entry(tab, d, i) == Entry(old(tab), d, i)
      ensures WordsStay(old(Snap()), Snap()) && Sheds(old(Snap()), Snap())
    {
      hide Good, Reclaims, Entry, HasTable, WordsStay, Sheds;
      ghost var s := Snap();
      NothingSheds(s);
      var pp, ppte := PageLookup(d, v);
      if pp == None {
        ReclaimsSelf(s);
        return;
      }
      UnmappedIs(s, a, d, v);
      PageDecref(pp.value);
      tab := Put(tab, ppte.0, ppte.1, ZERO);
      M := M - {User(d, v)};
      TlbInvalidate(a, v);
      assert Snap() == Flush(Unmapped(s, d, v), a, v);
    }

    lemma NothingSheds(vm: VM)
      ensures WordsStay(vm, vm) && Sheds(vm, vm)
    {
    }

    lemma ReclaimsSelf(s: VM)
      requires Good(s)
      ensures Reclaims(s, s)
    {
    }

    // What page_remove does to a mapped page.
    lemma UnmappedIs(s: VM, a: nat, d: nat, v: nat)
      requires Good(s) && d in s.dirs && a in s.owner && s.owner[a] == d && v < NUSER && User(d, v) in s.M
      ensures s.M[User(d, v)].frame < |s.ref| && s.ref[s.M[User(d, v)].frame] > 0
      ensures TableOf(s, d, v) < |s.tab| && |s.tab[TableOf(s, d, v)]| == NPTE
      ensures var w := Flush(Unmapped(s, d, v), a, v);
        && Good(w) && Reclaims(s, w)
        && WordsStay(s, w) && Sheds(s, w)
        && forall i: nat :: i < NPDE ==> Entry(w.tab, d, i) == Entry(s.tab, d, i)
    {
      hide Tree, Isolated, Counted, WordsStay;
      Referenced(s, User(d, v));
      WalkFinds(s, d, v);
      OwnersDiffer(s, d, a);
      UnmappedGood(s, a, d, v);
      ReclaimsSelf(s);
      DecrefReclaims(s, s, s.M[User(d, v)].frame);
      forall i: nat | i < NPDE ensures Entry(Store(s, d, v, ZERO).tab, d, i) == Entry(s.tab, d, i) {
        StoreWalks(s, d, v, ZERO, d, i * NPTE);
        assert i * NPTE / NPTE == i;
      }
      StoredStays(s, Flush(Unmapped(s, d, v), a, v), d, v, ZERO);
      ReclaimsSame(s, Decref(s, s.M[User(d, v)].frame), Flush(Unmapped(s, d, v), a, v));
    }

    lemma OwnersDiffer(vm: VM, d: nat, a: nat)
      requires Good(vm) && a in vm.owner && vm.owner[a] == d
      ensures forall b :: b in vm.owner && vm.owner[b] == d ==> b == a
    {
    }

    lemma ReclaimsSame(s0: VM, s1: VM, s2: VM)
      requires Reclaims(s0, s1) && s2.ref == s1.ref && s2.free == s1.free
      ensures Reclaims(s0, s2)
    {
    }

    // Page v is mapped by a word with perm's bits.
    ghost predicate Carries(d: nat, v: nat, perm: Perm)
      reads this
    {
      && User(d, v) in M
      && M[User(d, v)].valid && M[User(d, v)].d == perm.d && M[User(d, v)].soft == perm.soft
    }

    // The mappings after page_insert: one page has the new frame and permission, every other
    // page of every env is as before.
    ghost predicate OneChanged(M0: map<Site, Pte>, d: nat, v: nat, p: Pte)
      reads this
    {
      Changed(M0, M, d, v, p)
    }

    // page_insert of the frame that is already mapped there
    method Reperm(d: nat, a: nat, v: nat, p: Pte)
      requires Good(Snap()) && Pair(d, a) && v < NUSER && p.valid && User(d, v) in M
      modifies this`tab, this`M, this`tlb
      ensures Good(Snap()) <==> old(M)[User(d, v)].frame == p.frame
      ensures M == old(M)[User(d, v) := p] && (a, v / 2) !in tlb
      ensures WordsStay(old(Snap()), Snap())
    {
      hide Good, WordsStay;
      ghost var s := Snap();
      OwnersDiffer(Snap(), d, a);
      FlushGood(Snap(), a, v);
      TlbInvalidate(a, v);
      WalkFinds(Snap(), d, v);
      RepermedGood(Snap(), d, v, p);
      tab := Put(tab, tab[d][v / NPTE].frame, v % NPTE, p);
      M := M[User(d, v) := p];
      StoredStays(s, Snap(), d, v, p);
    }

    lemma FlushTable(vm: VM, a: nat, d: nat, v: nat)
      ensures HasTable(Flush(vm, a, v), d, v) <==> HasTable(vm, d, v)
    {
    }

    // ... and of another one, once the page has no mapping
    method MapFrame(d: nat, a: nat, f: nat, v: nat, p: Pte) returns (r: int)
      requires Good(Snap()) && Pair(d, a) && v < NUSER
      requires User(d, v) !in M && p.valid && f < |ref| && f !in free && Data(Snap(), f)
      modifies this`free, this`tab, this`ref, this`M, this`tlb
      ensures |ref| == |old(ref)| && (Good(Snap()) <==> r != 0 || p.frame == f)
      ensures r == 0 <==> old(HasTable(Snap(), d, v)) || old(free) != []
      ensures r == 0 ==> OneChanged(old(M), d, v, p) && (a, v / 2) !in tlb
      ensures r != 0 ==> r == E_NO_MEM && Snap() == Flush(old(Snap()), a, v)
      ensures WordsStay(old(Snap()), Snap()) && forall g: nat :: g in old(free) ==> !Held(Snap(), g)
    {
      hide Good, Data, Walk, Entry, HasTable, Changed, Held, WordsStay, HeldStay;
      ghost var s := Snap();
      WalkFinds(s, d, v);
      FlushGood(s, a, v);
      FlushTable(s, a, d, v);
      TlbInvalidate(a, v);
      var pte;
      r, pte := PgdirWalk(d, v, true);
      FlushStays(s, a, v, Snap());
      if r != 0 {
        FreeNotHeld(Snap());
        return r;
      }
      ghost var s1 := Snap();
      StaysData(s, Snap(), f, Table(d, v / NPTE));
      ChangedBy(s.M, M, d, v, p, if s.free == [] then ZERO else Pte(true, s.free[0], false, 0));
      WalkFinds(Snap(), d, v);
      MappedGood(Snap(), d, v, f, p);
      tab := Put(tab, pte.value.0, pte.value.1, p);
      M := M[User(d, v) := p];
      ref := ref[f := ref[f] + 1];
      StoredStays(s1, Snap(), d, v, p);
      StayedThen(s, s1, Snap());
      MapsNothingFree(s, s1, Snap(), User(d, v), p);
    }

    lemma FreeNotHeld(vm: VM)
      ensures forall g: nat :: g in vm.free ==> !Held(vm, g)
    {
    }

    lemma StayedThen(s0: VM, s1: VM, s2: VM)
      requires WordsStay(s0, s1) && HeldStay(s0, s1) && WordsStay(s1, s2)
      ensures WordsStay(s0, s2)
    {
      hide WordsStay, Held;
      WordsThen(s0, s1, s2);
    }

    // Where the table is there, the word found is the one the lookup gives; else there is none.
    lemma WalkIs(vm: VM, d: nat, v: nat)
      ensures !HasTable(vm, d, v) ==> !Walk(vm.tab, d, v).valid
      ensures HasTable(vm, d, v) && TableOf(vm, d, v) < |vm.tab| && v % NPTE < |vm.tab[TableOf(vm, d, v)]| ==>
                Walk(vm.tab, d, v) == vm.tab[TableOf(vm, d, v)][v % NPTE]
    {
    }

    // page_insert. The frame is a fresh one or one a user page maps: all its callers see to that. What
    // they do not see to is that perm has no bits outside the low twelve.
    method PageInsert(d: nat, a: nat, f: nat, v: nat, perm: Perm) returns (r: int)
      requires Good(Snap()) && Pair(d, a) && v < NUSER && f < |ref| && f !in free && Data(Snap(), f)
      modifies this`free, this`tab, this`ref, this`M, this`tlb
      ensures Good(Snap()) <==> r != 0 || Names(f, perm)
      ensures r == 0 <==> old(HasTable(Snap(), d, v)) || old(free) != []
      ensures r == 0 ==> OneChanged(old(M), d, v, Word(f, perm)) && (a, v / 2) !in tlb && Carries(d, v, perm)
      ensures r != 0 ==> r == E_NO_MEM && Snap() == Flush(old(Snap()), a, v)
      ensures |ref| == |old(ref)|
      ensures WordsStay(old(Snap()), Snap())
    {
      hide Good, Reclaims, Data, Walk, Entry, Within, Changed, WordsStay, Sheds, Held;
      ghost var s := Snap();
      NothingSheds(s);
      WalkIs(s, d, v);
      var p := Word(f, perm);
      OrWithin(f, perm.high);
      var _, pte := PgdirWalk(d, v, false);
      WalkFinds(s, d, v);
      if pte.Some? && tab[pte.value.0][pte.value.1].valid {
        if tab[pte.value.0][pte.value.1].frame != f {
          PageRemove(d, a, v);
          WalkFinds(Snap(), d, v);
          StaysData(s, Snap(), f, User(d, v));
        } else {
          ChangedMapped(M, d, v, p);
          Reperm(d, a, v, p);
          return 0;
        }
      }
      assert M == s.M - {User(d, v)};
      ghost var s1 := Snap();
      r := MapFrame(d, a, f, v, p);
      ShedsThen(s, s1, Snap());
      if r == 0 { ChangedSince(s.M, M, d, v, p); }
    }

    // sys_mem_alloc, once envid2env has found the target. A frame is taken first and the page
    // table second, so with a single free frame and no table yet that frame is lost: it is on
    // no list and nothing refers to it.
    method SysMemAlloc(d: nat, a: nat, v: nat, perm: Perm) returns (r: int)
      requires Good(Snap()) && Pair(d, a) && v < NUSER
      modifies this`free, this`tab, this`ref, this`M, this`tlb
      ensures r == 0 <==> |old(free)| >= if old(HasTable(Snap(), d, v)) then 1 else 2
      ensures Good(Snap()) <==> (r == 0 ==> Names(old(free)[0], perm))
      ensures r == 0 ==> OneChanged(old(M), d, v, Word(old(free)[0], perm)) && Carries(d, v, perm)
      ensures r != 0 ==> r == E_NO_MEM && M == old(M) && ref == old(ref) && free == []
      ensures r != 0 && old(free) != [] ==> |old(free)| == 1 && Loose(Snap(), old(free)[0])
      ensures WordsStay(old(Snap()), Snap())
      ensures r == 0 && Good(Snap()) ==> FreshPage(d, v)
    {
      hide Good, Loose, WordsStay, Held;
      ghost var s := Snap();
      NothingSheds(s);
      WalkFinds(s, d, v);
      var f;
      r, f := PageAlloc();
      if r != 0 {
        return;
      }
      TakenKeepsTable(s, d, v);
      LooseFacts(Snap(), f, d);
      ghost var t := Snap();
      TakenStays(s);
      r := PageInsert(d, a, f, v, perm);
      if r != 0 { FlushLoose(t, f, a, v); }
      WordsThen(s, t, Snap());
      OrWithin(f, perm.high);
      if r == 0 && Good(Snap()) { FreshAt(t, Snap(), f, User(d, v)); }
    }

    // Page v is mapped and reads as zeros.
    ghost predicate FreshPage(d: nat, v: nat)
      reads this
    {
      User(d, v) in M && M[User(d, v)].frame < |tab| && tab[M[User(d, v)].frame] == Zeros()
    }

    lemma FreshAt(s: VM, w: VM, f: nat, x: Site)
      requires WordsStay(s, w) && Held(s, f) && f < |s.tab| && s.tab[f] == Zeros()
      requires Good(w) && x in w.M && x.User? && w.M[x].frame == f
      ensures f < |w.tab| && w.tab[f] == Zeros()
    {
      UserHeld(w, x);
    }

    lemma TakenKeepsTable(vm: VM, d: nat, v: nat)
      requires Good(vm) && d in vm.dirs && v < NUSER && vm.free != [] && vm.free[0] < |vm.tab|
      ensures HasTable(Taken(vm), d, v) <==> HasTable(vm, d, v)
    {
      FreeUnused(vm, vm.free[0]);
    }

    lemma FlushLoose(vm: VM, f: nat, a: nat, v: nat)
      requires Loose(vm, f)
      ensures Loose(Flush(vm, a, v), f)
    {
    }

    // sys_mem_map, once both envs are found.
    method SysMemMap(src: nat, srcv: nat, d: nat, a: nat, v: nat, perm: Perm) returns (r: int)
      requires Good(Snap()) && src in dirs && Pair(d, a) && srcv < NUSER && v < NUSER
      modifies this`free, this`tab, this`ref, this`M, this`tlb
      ensures r == E_INVAL <==> User(src, srcv) !in old(M)
      ensures r == E_INVAL ==> Snap() == old(Snap())
      ensures r == 0 <==> User(src, srcv) in old(M) && (old(HasTable(Snap(), d, v)) || old(free) != [])
      ensures Good(Snap()) <==> (r == 0 ==> Names(old(M)[User(src, srcv)].frame, perm))
      ensures r == 0 ==>
                OneChanged(old(M), d, v, Word(old(M)[User(src, srcv)].frame, perm)) && Carries(d, v, perm)
      ensures r != 0 ==> M == old(M)
      ensures WordsStay(old(Snap()), Snap())
    {
      NothingSheds(Snap());
      hide WordsStay;
      var pp, _ := PageLookup(src, srcv);
      if pp == None {
        return E_INVAL;
      }
      Referenced(Snap(), User(src, srcv));
      assert Data(Snap(), pp.value);
      hide Good;
      r := PageInsert(d, a, pp.value, v, perm);
    }

    // When passive_alloc panics on a user page: at the bottom and top of user space, and when there
    // is no frame for the page, or none for the page table it needs first.
    ghost predicate Refuses(vm: VM, d: nat, v: nat) {
      v < UTEMP || v == USTACKTOP || |vm.free| < if HasTable(vm, d, v) then 1 else 2
    }

    // passive_alloc for a user page; `panicked` stands for each of its panics.
    method PassiveAlloc(d: nat, a: nat, v: nat) returns (panicked: bool)
      requires Good(Snap()) && Pair(d, a) && v < NUSER && User(d, v) !in M
      modifies this`free, this`tab, this`ref, this`M, this`tlb
      ensures Good(Snap())
      ensures panicked <==> Refuses(old(Snap()), d, v)
      ensures !panicked ==> OneChanged(old(M), d, v, Pte(true, old(free)[0], true, 0)) && FreshPage(d, v)
      ensures WordsStay(old(Snap()), Snap())
    {
      NothingSheds(Snap());
      hide Good, Loose, WordsStay, Held;
      if v < UTEMP || v == USTACKTOP {
        return true;
      }
      ghost var s0 := Snap();
      var r, p := PageAlloc();
      if r != 0 {
        return true;
      }
      LooseFacts(Snap(), p, d);
      TakenKeepsTable(s0, d, v);
      OrWithin(p, 0);
      TakenStays(s0);
      ghost var t := Snap();
      r := PageInsert(d, a, p, v, Perm(0, true, 0));
      panicked := r != 0;
      WordsThen(s0, t, Snap());
      if r == 0 { FreshAt(t, Snap(), p, User(d, v)); }
    }

    // The half of a TLB entry that is for page v.
    function Of(pair: (Lo, Lo), v: nat): Lo { if v % 2 == 0 then pair.0 else pair.1 }

    // The half of the TLB entry for user page v under ASID a.
    function Answer(a: nat, v: nat): Option<Lo>
      reads this
    {
      if (a, v / 2) !in tlb then None
      else Some(Of(tlb[(a, v / 2)], v))
    }

    // The one that lets a program with ASID a store to page v.
    function Writable(a: nat, v: nat): Option<Lo>
      reads this
    {
      var half := Answer(a, v);
      if half.Some? && half.value.valid && half.value.d then half else None
    }

    // The other page of the pair.
    function Buddy(v: nat): nat { if v % 2 == 0 then v + 1 else v - 1 }

    lemma EvenPage(v: nat) returns (e: nat)
      requires v < NUSER
      ensures e == v / 2 * 2 && e + 1 < NUSER && v / 2 == Buddy(v) / 2
      ensures if v % 2 == 0 then v == e && Buddy(v) == e + 1 && Buddy(v) % 2 == 1
              else v == e + 1 && Buddy(v) == e && Buddy(v) % 2 == 0
    {
      e := v / 2 * 2;
    }

    lemma PairAnswers(vm: VM, d: nat, v: nat, pair: (Lo, Lo))
      requires Good(vm) && d in vm.dirs && v < NUSER && User(d, v) in vm.M
      requires pair == (Half(Walk(vm.tab, d, v / 2 * 2)), Half(Walk(vm.tab, d, v / 2 * 2 + 1)))
      ensures Of(pair, v) == Lo(true, vm.M[User(d, v)].frame, vm.M[User(d, v)].d)
      ensures Answers(vm, d, Buddy(v), Of(pair, Buddy(v))) && Buddy(v) / 2 == v / 2
    {
      hide Good, Walk, Half;
      var e := EvenPage(v);
      hide Buddy;
      HalfAnswers(vm, d, e);
      HalfAnswers(vm, d, e + 1);
    }

    // Both pages of a TLB pair are in the same page table.
    lemma PairInTable(v: nat)
      ensures v / 2 * 2 / NPTE == v / NPTE && (v / 2 * 2 + 1) / NPTE == v / NPTE
      ensures v / 2 * 2 % NPTE == v % NPTE / 2 * 2 && (v / 2 * 2 + 1) % NPTE == v % NPTE / 2 * 2 + 1
    {
    }

    // The pair of words around page v, as the page table has them now, goes into the TLB.
    method FillPair(d: nat, a: nat, v: nat)
      requires Good(Snap()) && Pair(d, a) && v < NUSER && User(d, v) in M
      modifies this`tlb
      ensures Good(Snap())
      ensures (a, v / 2) in tlb && Of(tlb[(a, v / 2)], v) == Lo(true, M[User(d, v)].frame, M[User(d, v)].d)
      ensures Buddy(v) / 2 == v / 2 && Answers(Snap(), d, Buddy(v), Of(tlb[(a, v / 2)], Buddy(v)))
      ensures tlb == old(tlb)[(a, v / 2) := (Half(Walk(tab, d, v / 2 * 2)), Half(Walk(tab, d, v / 2 * 2 + 1)))]
    {
      hide Good;
      FilledGood(Snap(), a, d, v);
      WalkFinds(Snap(), d, v);
      var pt := tab[d][v / NPTE].frame;
      var even := v % NPTE / 2 * 2;
      assert Filled(Snap(), a, d, v).tlb[(a, v / 2)] == (Half(tab[pt][even]), Half(tab[pt][even + 1])) by {
        PairInTable(v);
      }
      tlb := tlb[(a, v / 2) := (Half(tab[pt][even]), Half(tab[pt][even + 1]))];
      hide Half, Walk, Of, Buddy, Answers;
      PairAnswers(Snap(), d, v, tlb[(a, v / 2)]);
    }

    // The loop of _do_tlb_refill: a page that is not mapped is allocated on demand.
    method PageIn(d: nat, a: nat, v: nat) returns (panicked: bool)
      requires Good(Snap()) && Pair(d, a) && v < NUSER
      modifies this`free, this`tab, this`ref, this`M, this`tlb
      ensures Good(Snap())
      ensures !panicked ==> User(d, v) in M
      ensures panicked <==> User(d, v) !in old(M) && Refuses(old(Snap()), d, v)
      ensures User(d, v) in old(M) ==> M == old(M)
      ensures !panicked && User(d, v) !in old(M) ==>
                OneChanged(old(M), d, v, Pte(true, old(free)[0], true, 0)) && FreshPage(d, v)
      ensures WordsStay(old(Snap()), Snap())
    {
      NothingSheds(Snap());
      hide Good, Loose, WordsStay;
      var pp, _ := PageLookup(d, v);
      while pp == None
        invariant Good(Snap()) && Pair(d, a) && dirs == old(dirs) && owner == old(owner)
        invariant pp.Some? <==> User(d, v) in M
        invariant User(d, v) in old(M) ==> M == old(M)
        invariant User(d, v) !in M ==> Snap() == old(Snap())
        invariant WordsStay(old(Snap()), Snap())
        invariant User(d, v) !in old(M) && User(d, v) in M ==>
                    !Refuses(old(Snap()), d, v) && OneChanged(old(M), d, v, Pte(true, old(free)[0], true, 0))
                    && FreshPage(d, v)
        decreases pp.None?
      {
        panicked := PassiveAlloc(d, a, v);
        if panicked {
          return true;
        }
        var again, _ := PageLookup(d, v);
        pp := again;
      }
      panicked := false;
    }

    lemma FlushRefuses(vm: VM, a: nat, d: nat, v: nat)
      ensures Refuses(Flush(vm, a, v), d, v) <==> Refuses(vm, d, v)
      ensures !Refuses(vm, d, v) ==> vm.free != []
    {
    }

    method FlushedPageIn(d: nat, a: nat, v: nat) returns (panicked: bool)
      requires Good(Snap()) && Pair(d, a) && v < NUSER
      modifies this`free, this`tab, this`ref, this`M, this`tlb
      ensures Good(Snap())
      ensures !panicked ==> User(d, v) in M
      ensures panicked <==> User(d, v) !in old(M) && Refuses(old(Snap()), d, v)
      ensures User(d, v) in old(M) ==> M == old(M)
      ensures !panicked && User(d, v) !in old(M) ==>
                old(free) != [] && OneChanged(old(M), d, v, Pte(true, old(free)[0], true, 0)) && FreshPage(d, v)
      ensures WordsStay(old(Snap()), Snap())
    {
      ghost var s := Snap();
      FlushGood(s, a, v);
      FlushRefuses(s, a, d, v);
      hide Good, Refuses, Changed, WordsStay;
      TlbInvalidate(a, v);
      panicked := PageIn(d, a, v);
      FlushStays(s, a, v, Snap());
    }

    // _do_tlb_refill for a user page: a page on demand, then the pair of the page table as it now is
    // goes into the TLB.
    method TlbRefill(d: nat, a: nat, v: nat) returns (panicked: bool)
      requires Good(Snap()) && Pair(d, a) && v < NUSER
      modifies this`free, this`tab, this`ref, this`M, this`tlb
      ensures Good(Snap())
      ensures !panicked ==>
                && (a, v / 2) in tlb
                && tlb[(a, v / 2)] == (Half(Walk(tab, d, v / 2 * 2)), Half(Walk(tab, d, v / 2 * 2 + 1)))
      ensures !panicked ==> User(d, v) in M
      ensures !panicked ==>
                && Answer(a, v) == Some(Lo(true, M[User(d, v)].frame, M[User(d, v)].d))
                && Answer(a, Buddy(v)).Some? && Answers(Snap(), d, Buddy(v), Answer(a, Buddy(v)).value)
      ensures panicked <==> User(d, v) !in old(M) && Refuses(old(Snap()), d, v)
      ensures User(d, v) in old(M) ==> M == old(M)
      ensures !panicked && User(d, v) !in old(M) ==>
                OneChanged(old(M), d, v, Pte(true, old(free)[0], true, 0)) && FreshPage(d, v)
      ensures WordsStay(old(Snap()), Snap())
    {
      ghost var s := Snap();
      hide Good, Walk, Half, Refuses, Changed, Answers, Of, Buddy, WordsStay, HasTable;
      panicked := FlushedPageIn(d, a, v);
      if !panicked {
        ghost var t := Snap();
        FillPair(d, a, v);
        Apart(s, t, Snap());
      }
    }

    // A user program stores word p at word j of page v. It goes through the TLB alone, and whatever
    // the word is, no page table changes under it: every lookup of every env is as before.
    method UserStore(a: nat, v: nat, j: nat, p: Pte) returns (done: bool)
      requires Good(Snap()) && v < NUSER && j < NPTE
      modifies this`tab
      ensures Good(Snap())
      ensures done <==> Writable(a, v).Some?
      ensures !done ==> tab == old(tab)
      ensures done ==>
                && a in owner && User(owner[a], v) in M && M[User(owner[a], v)].d
                && forall g: nat, i: nat ::
                     Entry(tab, g, i) == if g == M[User(owner[a], v)].frame && i == j then p else Entry(old(tab), g, i)
      ensures forall e: nat, u: nat :: e in dirs && u < NUSER ==> Walk(tab, e, u) == Walk(old(tab), e, u)
    {
      hide Good, Walk;
      var half := Writable(a, v);
      if half == None {
        return false;
      }
      TlbIsCurrent(Snap(), a, v);
      OwnersIn(Snap(), a);
      WalkFinds(Snap(), owner[a], v);
      WrittenGood(Snap(), owner[a], v, j, p);
      tab := Put(tab, half.value.frame, j, p);
      done := true;
    }

    // A store that misses: the TLB is refilled and the store made again. It is done exactly when the
    // page may be written.
    method StoreAfterMiss(d: nat, a: nat, v: nat, j: nat, p: Pte) returns (panicked: bool, done: bool)
      requires Good(Snap()) && Pair(d, a) && v < NUSER && j < NPTE
      modifies this`free, this`tab, this`ref, this`M, this`tlb
      ensures Good(Snap())
      ensures panicked <==> User(d, v) !in old(M) && Refuses(old(Snap()), d, v)
      ensures !panicked ==> User(d, v) in M && (done <==> M[User(d, v)].d)
      ensures done ==> !panicked && Entry(tab, M[User(d, v)].frame, j) == p
    {
      hide Good, Refuses, Walk, Changed, HasTable;
      done := false;
      panicked := TlbRefill(d, a, v);
      if !panicked {
        done := UserStore(a, v, j, p);
      }
    }

    lemma OwnersIn(vm: VM, a: nat)
      requires Good(vm) && a in vm.owner
      ensures vm.owner[a] in vm.dirs
    {
    }

    // asid_alloc: the smallest ASID not in use.
    method AsidAlloc() returns (r: int, a: nat)
      requires |used| == NASID
      modifies this`used
      ensures r == 0 ==> a < NASID && !old(used)[a] && used == old(used)[a := true]
                         && forall b :: 0 <= b < a ==> old(used)[b]
      ensures r != 0 ==> r == E_NO_FREE_ENV && used == old(used) && forall b :: 0 <= b < NASID ==> used[b]
    {
      a := 0;
      while a < NASID
        invariant 0 <= a <= NASID && forall b :: 0 <= b < a ==> used[b]
      {
        if !used[a] {
          used := used[a := true];
          return 0, a;
        }
        a := a + 1;
      }
      r := E_NO_FREE_ENV;
    }

    // env_setup_vm
    method EnvSetupVm(above: seq<Pte>) returns (r: int, d: nat)
      requires Good(Snap()) && |above| == NPTE - NPDE
      modifies this`free, this`tab, this`ref, this`dirs, this`M
      ensures Good(Snap())
      ensures r != 0 <==> old(free) == []
      ensures r != 0 ==> r == E_NO_MEM && Snap() == old(Snap())
      ensures r == 0 ==> d == old(free)[0] && free == old(free)[1..] && d !in old(dirs) && dirs == old(dirs) + {d}
      ensures r == 0 ==> (forall b :: b in owner ==> owner[b] != d) && forall v :: User(d, v) !in M
      ensures r == 0 ==> Dir(d) !in old(M) && M == old(M)[Dir(d) := Pte(true, d, false, 0)]
      ensures r == 0 ==> forall i :: 0 <= i < NPTE ==> Entry(tab, d, i) == if i < NPDE then ZERO else above[i - NPDE]
      ensures WordsStay(old(Snap()), Snap())
    {
      ghost var s := Snap();
      NothingSheds(s);
      hide Good, Loose, WordsStay;
      r, d := PageAlloc();
      if r != 0 {
        return;
      }
      TakenStays(s);
      ghost var t := Snap();
      OwnersHaveDirs(Snap(), d);
      NewDirGood(Snap(), d, above);
      tab := tab[d := Zeros()[..NPDE] + above];
      ref := ref[d := ref[d] + 1];
      dirs := dirs + {d};
      M := M[Dir(d) := Pte(true, d, false, 0)];
      TableNotHeld(Snap(), Dir(d));
      OneFrame(t, Snap(), d);
      WordsThen(s, t, Snap());
    }

    // env_alloc, as far as memory goes: a directory first, an ASID second. When the ASIDs have
    // run out the directory stays allocated with no env to give it back.
    method EnvAlloc(above: seq<Pte>) returns (r: int, d: nat, a: nat)
      requires Valid() && |above| == NPTE - NPDE
      modifies this
      ensures Valid()
      ensures r == 0 <==> old(free) != [] && exists b :: 0 <= b < NASID && !old(used)[b]
      ensures r == 0 ==> Pair(d, a) && d !in old(dirs) && a !in old(owner) && owner == old(owner)[a := d]
      ensures r == 0 ==> forall v :: User(d, v) !in M
      ensures r == E_NO_MEM <==> old(free) == []
      ensures r == E_NO_MEM ==> Snap() == old(Snap())
      ensures r != 0 ==> owner == old(owner)
      ensures r == E_NO_FREE_ENV ==> dirs == old(dirs) + {old(free)[0]} && old(free)[0] !in old(dirs)
                                     && free == old(free)[1..] && !exists b :: Pair(old(free)[0], b)
      ensures forall s :: s in old(M) ==> s in M && M[s] == old(M)[s]
      ensures r == 0 ==> forall i :: 0 <= i < NPTE ==> Entry(tab, d, i) == if i < NPDE then ZERO else above[i - NPDE]
      ensures WordsStay(old(Snap()), Snap())
    {
      hide Good, WordsStay;
      a := 0;
      ghost var s := Snap();
      r, d := EnvSetupVm(above);
      if r != 0 {
        return;
      }
      ghost var t := Snap();
      r, a := AsidAlloc();
      if r != 0 {
        return;
      }
      OwnGood(Snap(), a, d);
      owner := owner[a := d];
      Apart(s, t, Snap());
    }

    lemma OwnersHaveDirs(vm: VM, f: nat)
      requires Good(vm) && Loose(vm, f)
      ensures f < |vm.ref| && f < |vm.tab| && f !in vm.dirs && Dir(f) !in vm.M
      ensures forall b :: b in vm.owner ==> vm.owner[b] != f
    {
    }

    // The references an env holds.
    ghost function OfEnv(m: map<Site, Pte>, d: nat): set<Site> {
      set s | s in m && (s == Dir(d) || (s.Table? && s.pd == d) || (s.User? && s.env == d))
    }

    // Those of its pages below u and of its page tables below slot i.
    ghost function Below(m: map<Site, Pte>, d: nat, u: nat, i: nat): set<Site> {
      set s | s in m && ((s.Table? && s.pd == d && s.pdx < i) || (s.User? && s.env == d && s.vpn < u))
    }

    ghost predicate Freeing(s0: VM, d: nat, a: nat, u: nat, i: nat)
      reads this
    {
      && Good(Snap()) && Pair(d, a) && dirs == s0.dirs && owner == s0.owner
      && Reclaims(s0, Snap()) && M == s0.M - Below(s0.M, d, u, i)
      && WordsStay(s0, Snap()) && Sheds(s0, Snap())
    }

    lemma BelowNext(m0: map<Site, Pte>, m: map<Site, Pte>, d: nat, v: nat, i: nat)
      requires m == m0 - Below(m0, d, v, i)
      ensures m - {User(d, v)} == m0 - Below(m0, d, v + 1, i)
      ensures User(d, v) !in m ==> m == m0 - Below(m0, d, v + 1, i)
    {
    }

    // One page table of env_free: unmap every valid page, then give the table back.
    method FreeTable(d: nat, a: nat, i: nat, ghost s0: VM)
      requires Freeing(s0, d, a, i * NPTE, i) && Good(s0) && i < NPDE && Entry(tab, d, i).valid
      modifies this`free, this`tab, this`ref, this`M, this`tlb
      ensures Freeing(s0, d, a, (i + 1) * NPTE, i + 1)
    {
      hide Good, Reclaims, Below, Walk, WordsStay, Sheds;
      WalkFinds(Snap(), d, i * NPTE);
      var pa := tab[d][i].frame;
      var j := 0;
      while j < NPTE
        invariant 0 <= j <= NPTE && Freeing(s0, d, a, i * NPTE + j, i)
        invariant Entry(tab, d, i).valid && Entry(tab, d, i).frame == pa
      {
        var v := i * NPTE + j;
        WalkFinds(Snap(), d, v);
        WalkIs(Snap(), d, v);
        ghost var s := Snap();
        BelowNext(s0.M, M, d, v, i);
        if tab[pa][j].valid {
          PageRemove(d, a, v);
        } else {
          ReclaimsSelf(s);
          NothingSheds(s);
        }
        ReclaimsTrans(s0, s, Snap());
        ShedsThen(s0, s, Snap());
        ShedsTrans(s0, s, Snap());
        j := j + 1;
      }
      DropTable(d, a, i, s0);
    }

    method DropTable(d: nat, a: nat, i: nat, ghost s0: VM)
      requires Freeing(s0, d, a, i * NPTE + NPTE, i) && Good(s0) && i < NPDE && Entry(tab, d, i).valid
      modifies this`free, this`tab, this`ref, this`M, this`tlb
      ensures Freeing(s0, d, a, (i + 1) * NPTE, i + 1)
    {
      hide Good, Reclaims, WordsStay, Sheds;
      WalkFinds(Snap(), d, i * NPTE);
      var pa := tab[d][i].frame;
      ghost var s := Snap();
      Referenced(s, Table(d, i));
      UnhookedWords(s, d, i);
      EmptyTable(s0, s, d, i);
      UnhookedGood(s, d, i);
      DecrefReclaims(s0, s, pa);
      tab := Put(tab, d, i, ZERO);
      M := M - {Table(d, i)};
      PageDecref(pa);
      assert Snap() == Unhooked(s, d, i);
      assert M == s0.M - Below(s0.M, d, (i + 1) * NPTE, i + 1);
      assert Reclaims(s0, Snap()) by { ReclaimsSame(s0, Decref(s, pa), Snap()); }
      FlushGood(Snap(), a, UVPT + i);
      TlbInvalidate(a, UVPT + i);
      ReclaimsSame(s0, Decref(s, pa), Snap());
      FlushedWords(s, Unhooked(s, d, i), a, UVPT + i);
      ShedsThen(s0, s, Snap());
      ShedsTrans(s0, s, Snap());
    }

    lemma UnhookedWords(s: VM, d: nat, i: nat)
      requires Good(s) && d in s.dirs && i < NPDE && Entry(s.tab, d, i).valid
      ensures d < |s.tab| && i < |s.tab[d]| && Entry(s.tab, d, i).frame < |s.ref| && s.ref[Entry(s.tab, d, i).frame] > 0
      ensures WordsStay(s, Unhooked(s, d, i)) && Sheds(s, Unhooked(s, d, i))
    {
      WalkFinds(s, d, i * NPTE);
      Referenced(s, Table(d, i));
      assert SiteOk(s, Dir(d));
      hide Good;
      TableNotHeld(s, Dir(d));
      OneFrame(s, Unhooked(s, d, i), d);
    }

    lemma FlushedWords(s: VM, w: VM, a: nat, v: nat)
      requires WordsStay(s, w) && Sheds(s, w)
      ensures WordsStay(s, Flush(w, a, v)) && Sheds(s, Flush(w, a, v))
    {
      assert forall f: nat :: Held(Flush(w, a, v), f) == Held(w, f);
    }

    lemma ReclaimsTrans(s0: VM, s1: VM, s2: VM)
      requires Reclaims(s0, s1) && Reclaims(s1, s2)
      ensures Reclaims(s0, s2)
    {
    }

    lemma EmptyTable(s0: VM, s: VM, d: nat, i: nat)
      requires s.M == s0.M - Below(s0.M, d, i * NPTE + NPTE, i)
      ensures forall v: nat :: v / NPTE == i ==> User(d, v) !in s.M
    {
    }

    // The last steps of env_free: the directory and the ASID.
    method DropDir(d: nat, a: nat, ghost s0: VM)
      requires Freeing(s0, d, a, NPDE * NPTE, NPDE) && Good(s0) && d in s0.dirs && a < |used|
      modifies this
      ensures Good(Snap()) && used == old(used)[a := false]
      ensures dirs == s0.dirs - {d} && owner == s0.owner - {a} && |ref| == |s0.ref|
      ensures M == s0.M - OfEnv(s0.M, d)
      ensures forall f: nat :: f in free <==>
                f in s0.free || (f < |s0.ref| && At(s0.M, f) != {} && At(s0.M, f) <= OfEnv(s0.M, d))
      ensures WordsStay(s0, Snap())
    {
      hide Good, Reclaims, At, OfEnv, Below, WordsStay, Sheds;
      ghost var s := Snap();
      OwnersDiffer(s, d, a);
      OnlyDirLeft(s0, s, d);
      Referenced(s, Dir(d));
      NoDirGood(s, a, d);
      DecrefReclaims(s0, s, d);
      PageDecref(d);
      used := used[a := false];
      dirs := dirs - {d};
      M := M - {Dir(d)};
      owner := owner - {a};
      assert Snap() == NoDir(s, a, d);
      FlushGood(Snap(), a, UVPT + UVPT / NPTE);
      TlbInvalidate(a, UVPT + UVPT / NPTE);
      ReclaimsSame(s0, Decref(s, d), Snap());
      FreedExactly(s0, Snap(), d);
      NoDirWords(s, Snap(), d);
      ShedsThen(s0, s, Snap());
    }

    lemma NoDirWords(s: VM, w: VM, d: nat)
      requires d < |s.ref| && s.ref[d] > 0
      requires w.tab == s.tab && w.M == s.M - {Dir(d)} && w.free == Decref(s, d).free
      ensures WordsStay(s, w) && Sheds(s, w)
    {
    }

    // env_free: the nested loops, then the directory and the ASID. The env's references go and
    // no others, and the frames added to the free list are exactly those only this env held.
    method EnvFree(d: nat, a: nat)
      requires Valid() && Pair(d, a)
      modifies this
      ensures Valid()
      ensures dirs == old(dirs) - {d} && owner == old(owner) - {a} && |ref| == |old(ref)|
      ensures M == old(M) - OfEnv(old(M), d)
      ensures forall f: nat :: f in free <==>
                f in old(free) || (f < |old(ref)| && At(old(M), f) != {} && At(old(M), f) <= OfEnv(old(M), d))
      ensures WordsStay(old(Snap()), Snap())
    {
      hide Good, Reclaims, WordsStay, Sheds;
      ghost var s0 := Snap();
      ReclaimsSelf(s0);
      NothingSheds(s0);
      assert M == s0.M - Below(s0.M, d, 0, 0);
      var i := 0;
      while i < NPDE
        invariant 0 <= i <= NPDE && Freeing(s0, d, a, i * NPTE, i) && used == old(used)
      {
        WalkFinds(Snap(), d, i * NPTE);
        if tab[d][i].valid {
          FreeTable(d, a, i, s0);
        } else {
          NoTableNoPages(Snap(), d, i);
          SkipTable(s0, Snap(), d, i);
        }
        i := i + 1;
      }
      DropDir(d, a, s0);
    }

    lemma NoTableNoPages(s: VM, d: nat, i: nat)
      requires Good(s) && d in s.dirs && i < NPDE && !Entry(s.tab, d, i).valid
      ensures Table(d, i) !in s.M && forall v: nat :: v / NPTE == i ==> User(d, v) !in s.M
    {
      hide Good;
      forall v: nat | v / NPTE == i ensures User(d, v) !in s.M { WalkFinds(s, d, v); }
      WalkFinds(s, d, i * NPTE);
    }

    lemma SkipTable(s0: VM, s: VM, d: nat, i: nat)
      requires s.M == s0.M - Below(s0.M, d, i * NPTE, i)
      requires Table(d, i) !in s.M && forall v: nat :: v / NPTE == i ==> User(d, v) !in s.M
      ensures s.M == s0.M - Below(s0.M, d, (i + 1) * NPTE, i + 1)
    {
      forall x | x in Below(s0.M, d, (i + 1) * NPTE, i + 1) ensures x !in s.M {
        if x.User? && x.vpn >= i * NPTE { assert x.vpn / NPTE == i; }
      }
    }

    lemma OnlyDirLeft(s0: VM, s: VM, d: nat)
      requires Good(s0) && Good(s) && d in s0.dirs && d in s.dirs && s.M == s0.M - Below(s0.M, d, NPDE * NPTE, NPDE)
      ensures Dir(d) in s.M && s.M[Dir(d)].frame == d
      ensures forall x :: x in s.M ==> !(x.Table? && x.pd == d) && !(x.User? && x.env == d)
      ensures s.M - {Dir(d)} == s0.M - OfEnv(s0.M, d)
    {
      assert forall x :: x in s0.M ==> SiteOk(s0, x);
      assert SiteOk(s, Dir(d));
    }

    lemma FreedExactly(s0: VM, s: VM, d: nat)
      requires Good(s0) && Good(s) && Reclaims(s0, s) && s.M == s0.M - OfEnv(s0.M, d)
      ensures forall f: nat :: f in s.free <==>
                f in s0.free || (f < |s0.ref| && At(s0.M, f) != {} && At(s0.M, f) <= OfEnv(s0.M, d))
    {
      hide Good;
      forall f: nat | f < |s0.ref|
        ensures (s0.ref[f] > 0 <==> At(s0.M, f) != {}) && (s.ref[f] == 0 <==> At(s0.M, f) <= OfEnv(s0.M, d))
      {
        CountGone(s0, s, OfEnv(s0.M, d), f);
      }
    }
  }
}
