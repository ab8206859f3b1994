// The words of the frames that user programs see: what the kernel's calls leave of them.
module VmWords {
  import opened Common
  import opened VmSpec

  // Nothing but user pages refers to frame f, and it is not on the free list.
  ghost predicate Held(vm: VM, f: nat) { f !in vm.free && Data(vm, f) }

  // Every frame that is held before and after has the words it had.
  ghost predicate WordsStay(s0: VM, s1: VM) {
    && |s1.tab| == |s0.tab|
    && forall f: nat :: f < |s0.tab| && Held(s0, f) && Held(s1, f) ==> s1.tab[f] == s0.tab[f]
  }

  // What was held still is, and nothing that was free is.
  ghost predicate HeldStay(s0: VM, s1: VM) {
    && (forall f: nat :: Held(s0, f) ==> Held(s1, f))
    && (forall f: nat :: f in s0.free ==> !Held(s1, f))
  }

  // References only go, and what is free stays free.
  ghost predicate Sheds(s0: VM, s1: VM) {
    && (forall s :: s in s1.M ==> s in s0.M && s1.M[s] == s0.M[s])
    && (forall f: nat :: f in s0.free ==> f in s1.free)
  }

  // A table or a directory is no held frame.
  lemma TableNotHeld(vm: VM, s: Site)
    requires s in vm.M && !s.User?
    ensures !Held(vm, vm.M[s].frame)
  {
  }

  lemma OneFrame(s0: VM, s1: VM, t: nat)
    requires |s1.tab| == |s0.tab| && (!Held(s0, t) || !Held(s1, t))
    requires forall f: nat :: f < |s0.tab| && f != t ==> s1.tab[f] == s0.tab[f]
    ensures WordsStay(s0, s1)
  {
  }

  lemma WordsThen(s0: VM, s1: VM, s2: VM)
    requires WordsStay(s0, s1) && WordsStay(s1, s2)
    requires forall f: nat :: Held(s0, f) && Held(s2, f) ==> Held(s1, f)
    ensures WordsStay(s0, s2)
  {
    hide Held;
  }

  // References going first or last come to nothing.
  lemma ShedsThen(s0: VM, s1: VM, s2: VM)
    requires Sheds(s0, s1) && WordsStay(s0, s1) && WordsStay(s1, s2)
    requires Sheds(s1, s2) || forall f: nat :: f in s1.free ==> !Held(s2, f)
    ensures WordsStay(s0, s2)
  {
    forall f: nat | Held(s0, f) && Held(s2, f) ensures Held(s1, f) {}
    WordsThen(s0, s1, s2);
  }

  lemma ShedsTrans(s0: VM, s1: VM, s2: VM)
    requires Sheds(s0, s1) && Sheds(s1, s2)
    ensures Sheds(s0, s2)
  {
  }

  lemma UserHeld(vm: VM, s: Site)
    requires Good(vm) && s in vm.M && s.User?
    ensures Held(vm, vm.M[s].frame)
  {
    Referenced(vm, s);
  }

  // So no page that stays mapped to the same frame changes a word.
  lemma PagesStay(s0: VM, s1: VM, s: Site)
    requires Good(s0) && Good(s1) && WordsStay(s0, s1)
    requires s.User? && s in s0.M && s in s1.M && s1.M[s].frame == s0.M[s].frame
    ensures s0.M[s].frame < |s0.tab| == |s1.tab| && s1.tab[s0.M[s].frame] == s0.tab[s0.M[s].frame]
  {
    UserHeld(s0, s);
    UserHeld(s1, s);
    assert SiteOk(s0, s);
  }

  lemma FlushStays(s0: VM, a: nat, v: nat, s1: VM)
    requires WordsStay(Flush(s0, a, v), s1)
    ensures WordsStay(s0, s1)
    ensures HeldStay(Flush(s0, a, v), s1) ==> HeldStay(s0, s1)
  {
    assert forall f: nat :: Held(Flush(s0, a, v), f) == Held(s0, f);
  }

  // page_alloc: the frame it hands out is zero, and no held frame changes.
  lemma TakenStays(vm: VM)
    requires Good(vm) && vm.free != [] && vm.free[0] < |vm.tab|
    ensures WordsStay(vm, Taken(vm)) && forall f: nat :: Held(vm, f) ==> Held(Taken(vm), f)
    ensures Held(Taken(vm), vm.free[0]) && Taken(vm).tab[vm.free[0]] == Zeros()
  {
    FreeUnused(vm, vm.free[0]);
    TakenGood(vm);
    var w := Taken(vm);
    hide Good;
    assert vm.free[0] in vm.free && forall f: nat :: f in w.free ==> f in vm.free;
    OneFrame(vm, w, vm.free[0]);
  }

  // pgdir_walk making a page table.
  lemma HookedStays(vm: VM, d: nat, i: nat)
    requires Good(vm) && d in vm.dirs && vm.free != [] && vm.free[0] < |vm.tab|
    requires d < |vm.tab| && i < |Taken(vm).tab[d]| && vm.free[0] < |vm.ref|
    requires Dir(d) in vm.M && vm.M[Dir(d)].frame == d
    ensures var w := Hooked(Taken(vm), d, i, vm.free[0]); WordsStay(vm, w) && HeldStay(vm, w)
  {
    TakenStays(vm);
    FreeUnused(vm, vm.free[0]);
    var t, w := Taken(vm), Hooked(Taken(vm), d, i, vm.free[0]);
    hide Good;
    assert !Held(t, d) by { TableNotHeld(t, Dir(d)); }
    OneFrame(t, w, d);
    assert !Held(w, vm.free[0]) by { TableNotHeld(w, Table(d, i)); }
    assert forall f: nat :: f in vm.free ==> f == vm.free[0] || f in w.free;
    WordsThen(vm, t, w);
  }

  // A word stored in the page table of page v, with whatever becomes of the references to user pages.
  lemma StoredStays(s: VM, w: VM, d: nat, v: nat, p: Pte)
    requires Table(d, v / NPTE) in s.M && s.M[Table(d, v / NPTE)].frame == TableOf(s, d, v)
    requires TableOf(s, d, v) < |s.tab| && |s.tab[TableOf(s, d, v)]| == NPTE && w.tab == Store(s, d, v, p).tab
    ensures WordsStay(s, w)
  {
    TableNotHeld(s, Table(d, v / NPTE));
    OneFrame(s, w, TableOf(s, d, v));
  }

  // One more user mapping holds no frame that was not held or loose.
  lemma MapsNothingFree(s0: VM, s: VM, w: VM, x: Site, p: Pte)
    requires x.User? && w.M == s.M[x := p] && w.free == s.free && HeldStay(s0, s)
    ensures forall f: nat :: f in s0.free ==> !Held(w, f)
  {
    forall f: nat | f in s0.free ensures !Held(w, f) {
      assert !Held(s, f);
      if f !in s.free {
        var y :| y in s.M && s.M[y].frame == f && !y.User?;
        assert w.M[y] == s.M[y];
      }
    }
  }
}
