// Copy-on-write fork (user/lib/fork.c) in the interleavings of the steps below, against a memory
// in which each env has pages of its own and fork copies them.
//
// The parent runs duppage page by page, and each duppage is two system calls: map the frame into
// the child, then take PTE_D away from the parent. Other envs, and the parent's own writes to its
// stack, may come between any two of these steps; the read of the permission is one step with the
// first call (CowUser.StalePermission says what hangs on that). A store that faults is one step with
// the system calls of cow_entry, and no env maps a page into another but by fork.
module Cow {
  import opened Common

  datatype Loc = Loc(env: nat, vpn: nat)
  datatype Pte = Pte(frame: nat, d: bool, cow: bool, lib: bool)

  // m: the user mappings; data: the frames' bytes; active: envs that may run; fork: parent ->
  // the child it is building; pend: parent -> the page it has mapped into the child but not yet
  // taken PTE_D from.
  datatype State = State(m: map<Loc, Pte>, data: map<nat, seq<int>>, active: set<nat>,
                         fork: map<nat, nat>, pend: map<nat, nat>)

  datatype Step =
    | Begin(p: nat, c: nat)                            // syscall_exofork
    | MapChild(p: nat, v: nat)                         // duppage, first system call
    | Remap(p: nat)                                    // duppage, second system call
    | End(p: nat)                                      // syscall_set_env_status
    | Write(e: nat, v: nat, i: nat, b: int, nf: nat)   // a store; nf is the frame cow_entry gets
    | Alloc(e: nat, v: nat, d: bool, lib: bool, nf: nat)   // syscall_mem_alloc
    | Unmap(e: nat, v: nat)                            // syscall_mem_unmap
    | Exit(e: nat)                                     // env_free

  function Blank(): seq<int> { seq(PAGE_SIZE, i => 0) }

  // Nobody maps frame f: what page_alloc returns.
  ghost predicate Unused(s: State, f: nat) { forall l :: l in s.m ==> s.m[l].frame != f }

  // l is one of the two mappings of a page in the middle of its duppage.
  ghost predicate Midway(s: State, l: Loc) {
    exists p :: p in s.pend && p in s.fork && s.pend[p] == l.vpn && (l.env == p || l.env == s.fork[p])
  }

  ghost predicate Enabled(s: State, step: Step) {
    match step
    case Begin(p, c) =>
      && p in s.active && p !in s.fork && c != p && c !in s.active && c !in s.fork.Values
      && forall l :: l in s.m ==> l.env != c
    case MapChild(p, v) =>
      p in s.fork && p !in s.pend && Loc(p, v) in s.m && Loc(s.fork[p], v) !in s.m
    case Remap(p) => p in s.pend
    case End(p) => p in s.fork && p !in s.pend
    case Write(e, v, i, b, nf) => e in s.active && Loc(e, v) in s.m && i < PAGE_SIZE && Unused(s, nf)
    case Alloc(e, v, d, lib, nf) => e in s.active && !Midway(s, Loc(e, v)) && Unused(s, nf)
    case Unmap(e, v) => e in s.active && !Midway(s, Loc(e, v))
    case Exit(e) => e in s.active && e !in s.fork
  }

  // duppage gives up PTE_D for PTE_COW exactly on private writable pages.
  predicate Splits(p: Pte) { p.d && !p.lib }

  function AsCow(p: Pte): Pte { p.(d := false, cow := true) }

  // cow_entry: a private copy of the page, writable and no longer copy-on-write.
  function CowEntry(s: State, l: Loc, nf: nat): State
    requires l in s.m && s.m[l].frame in s.data
  {
    var p := s.m[l];
    s.(m := s.m[l := p.(frame := nf, d := true, cow := false)], data := s.data[nf := s.data[p.frame]])
  }

  function Poke(s: State, l: Loc, i: nat, b: int): State
    requires l in s.m && s.m[l].frame in s.data && i < |s.data[s.m[l].frame]|
  {
    var f := s.m[l].frame;
    s.(data := s.data[f := s.data[f][i := b]])
  }

  ghost predicate Sane(s: State) {
    forall l :: l in s.m ==> s.m[l].frame in s.data && |s.data[s.m[l].frame]| == PAGE_SIZE
  }

  // A page midway: the parent may still write the frame, the child has it copy-on-write.
  ghost predicate PendOk(s: State, p: nat)
    requires p in s.pend
  {
    && p in s.fork
    && Loc(p, s.pend[p]) in s.m && Splits(s.m[Loc(p, s.pend[p])])
    && Loc(s.fork[p], s.pend[p]) in s.m && s.m[Loc(s.fork[p], s.pend[p])] == AsCow(s.m[Loc(p, s.pend[p])])
  }

  ghost predicate Forks(s: State) {
    && (forall p :: p in s.fork ==> p in s.active && s.fork[p] !in s.active)
    && (forall p, q :: p in s.fork && q in s.fork && s.fork[p] == s.fork[q] ==> p == q)
    && (forall p :: p in s.pend ==> PendOk(s, p))
  }

  ghost predicate Bits(s: State) {
    forall l :: l in s.m && s.m[l].cow ==> !s.m[l].d && !s.m[l].lib
  }

  // A frame someone may write, unless it is a PTE_LIBRARY page, has that one mapping and no
  // other, but for the child's mapping in the middle of a duppage. Library pages share their
  // frames only with each other.
  ghost predicate Alone(s: State, l: Loc, k: Loc)
    requires l in s.m && k in s.m
  {
    && (Splits(s.m[l]) ==>
          && l.env in s.pend && l.env in s.fork
          && k == Loc(s.fork[l.env], l.vpn) && s.pend[l.env] == l.vpn)
    && s.m[l].lib == s.m[k].lib
  }

  ghost predicate Exclusive(s: State) {
    forall l, k :: l in s.m && k in s.m && l != k && s.m[l].frame == s.m[k].frame ==> Alone(s, l, k)
  }

  ghost predicate Inv(s: State) { Sane(s) && Forks(s) && Bits(s) && Exclusive(s) }

  // No fork is under way, no page is copy-on-write yet and no frame is mapped twice.
  ghost predicate Start(s: State): (r: bool)
    ensures r ==> Inv(s)
  {
    && Sane(s) && s.fork == map[] && s.pend == map[]
    && (forall l :: l in s.m ==> !s.m[l].cow)
    && (forall l, k :: l in s.m && k in s.m && s.m[l].frame == s.m[k].frame ==> l == k)
  }

  function Act(s: State, step: Step): State
    requires Inv(s) && Enabled(s, step)
  {
    match step
    case Begin(p, c) => s.(fork := s.fork[p := c])
    case MapChild(p, v) =>
      var pte := s.m[Loc(p, v)];
      var s1 := s.(m := s.m[Loc(s.fork[p], v) := if Splits(pte) then AsCow(pte) else pte]);
      if Splits(pte) then s1.(pend := s.pend[p := v]) else s1
    case Remap(p) =>
      var l := Loc(p, s.pend[p]);
      assert PendOk(s, p);
      s.(m := s.m[l := AsCow(s.m[l])], pend := s.pend - {p})
    case End(p) => s.(active := s.active + {s.fork[p]}, fork := s.fork - {p})
    case Write(e, v, i, b, nf) =>
      var l := Loc(e, v);
      if s.m[l].d then Poke(s, l, i, b)
      else if s.m[l].cow then Poke(CowEntry(s, l, nf), l, i, b)
      else s
    case Alloc(e, v, d, lib, nf) =>
      s.(m := s.m[Loc(e, v) := Pte(nf, d, false, lib)], data := s.data[nf := Blank()])
    case Unmap(e, v) => s.(m := s.m - {Loc(e, v)})
    case Exit(e) => s.(m := map l | l in s.m && l.env != e :: s.m[l], active := s.active - {e})
  }

  lemma StepBegin(s: State, step: Step)
    requires Inv(s) && Enabled(s, step) && step.Begin?
    ensures Inv(Act(s, step))
  {
    var t := Act(s, step);
    forall q | q in t.pend ensures PendOk(t, q) { assert PendOk(s, q); }
    forall l, k | l in t.m && k in t.m && l != k && t.m[l].frame == t.m[k].frame ensures Alone(t, l, k) {
      assert Alone(s, l, k);
      if l.env in s.pend { assert PendOk(s, l.env); }
    }
  }

  lemma StepMapChild(s: State, step: Step)
    requires Inv(s) && Enabled(s, step) && step.MapChild?
    ensures Inv(Act(s, step))
  {
    var t, p, c := Act(s, step), step.p, s.fork[step.p];
    forall q | q in t.pend ensures PendOk(t, q) { assert q in s.pend ==> PendOk(s, q); }
    forall l, k | l in t.m && k in t.m && l != k && t.m[l].frame == t.m[k].frame ensures Alone(t, l, k) {
      var nl := Loc(c, step.v);
      if l != nl && k != nl { assert Alone(s, l, k); }
      if l == nl && k != Loc(p, step.v) { assert Alone(s, Loc(p, step.v), k) && Alone(s, k, Loc(p, step.v)); }
      if k == nl && l != Loc(p, step.v) { assert Alone(s, Loc(p, step.v), l) && Alone(s, l, Loc(p, step.v)); }
    }
  }

  lemma StepRemap(s: State, step: Step)
    requires Inv(s) && Enabled(s, step) && step.Remap?
    ensures Inv(Act(s, step))
  {
    var t, p := Act(s, step), step.p;
    assert PendOk(s, p);
    forall q | q in t.pend ensures PendOk(t, q) { assert PendOk(s, q); }
    forall l, k | l in t.m && k in t.m && l != k && t.m[l].frame == t.m[k].frame ensures Alone(t, l, k) {
      assert Alone(s, l, k);
    }
  }

  lemma StepEnd(s: State, step: Step)
    requires Inv(s) && Enabled(s, step) && step.End?
    ensures Inv(Act(s, step))
  {
    var t := Act(s, step);
    forall q | q in t.pend ensures PendOk(t, q) { assert PendOk(s, q); }
    forall l, k | l in t.m && k in t.m && l != k && t.m[l].frame == t.m[k].frame ensures Alone(t, l, k) {
      assert Alone(s, l, k);
    }
  }

  // A store into a mapped frame moves no mapping.
  lemma PokeKeeps(s: State, l: Loc, i: nat, b: int)
    requires Inv(s) && l in s.m && i < PAGE_SIZE
    ensures s.m[l].frame in s.data && i < |s.data[s.m[l].frame]| && Inv(Poke(s, l, i, b))
  {
    var t := Poke(s, l, i, b);
    forall q | q in t.pend ensures PendOk(t, q) { assert PendOk(s, q); }
    forall k, n | k in t.m && n in t.m && k != n && t.m[k].frame == t.m[n].frame ensures Alone(t, k, n) {
      assert Alone(s, k, n);
    }
  }

  // cow_entry gives the page a frame that nobody else maps.
  lemma CowEntryKeeps(s: State, l: Loc, nf: nat)
    requires Inv(s) && l in s.m && l.env in s.active && s.m[l].cow && Unused(s, nf)
    ensures s.m[l].frame in s.data && Inv(CowEntry(s, l, nf))
  {
    var t := CowEntry(s, l, nf);
    forall q | q in t.pend ensures PendOk(t, q) { assert PendOk(s, q); }
    forall k, n | k in t.m && n in t.m && k != n && t.m[k].frame == t.m[n].frame ensures Alone(t, k, n) {
      assert k != l && n != l && Alone(s, k, n);
    }
  }

  lemma StepWrite(s: State, step: Step)
    requires Inv(s) && Enabled(s, step) && step.Write?
    ensures Inv(Act(s, step))
  {
    hide Inv, CowEntry, Poke, Unused;
    var l := Loc(step.e, step.v);
    if s.m[l].d {
      PokeKeeps(s, l, step.i, step.b);
    } else if s.m[l].cow {
      CowEntryKeeps(s, l, step.nf);
      CowEntryMaps(s, l, step.nf);
      PokeKeeps(CowEntry(s, l, step.nf), l, step.i, step.b);
    }
  }

  lemma CowEntryMaps(s: State, l: Loc, nf: nat)
    requires l in s.m && s.m[l].frame in s.data
    ensures l in CowEntry(s, l, nf).m
  {
  }

  lemma StepAlloc(s: State, step: Step)
    requires Inv(s) && Enabled(s, step) && (step.Alloc? || step.Unmap? || step.Exit?)
    ensures Inv(Act(s, step))
  {
    var t := Act(s, step);
    forall q | q in t.pend ensures PendOk(t, q) { assert PendOk(s, q); }
    forall l, k | l in t.m && k in t.m && l != k && t.m[l].frame == t.m[k].frame ensures Alone(t, l, k) {
      if step.Exit? || (l != Loc(step.e, step.v) && k != Loc(step.e, step.v)) { assert Alone(s, l, k); }
    }
  }

  // Every step of every env keeps the ownership of frames.
  lemma StepKeepsInv(s: State, step: Step)
    requires Inv(s) && Enabled(s, step)
    ensures Inv(Act(s, step))
  {
    hide Act, Inv;
    match step
    case Begin(_, _) => StepBegin(s, step);
    case MapChild(_, _) => StepMapChild(s, step);
    case Remap(_) => StepRemap(s, step);
    case End(_) => StepEnd(s, step);
    case Write(_, _, _, _, _) => StepWrite(s, step);
    case Alloc(_, _, _, _, _) => StepAlloc(s, step);
    case Unmap(_, _) => StepAlloc(s, step);
    case Exit(_) => StepAlloc(s, step);
  }
}
