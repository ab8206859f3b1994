// Physical frames, two-level page tables and the TLB (kern/pmap.c, kern/tlbex.c, kern/env.c) as a
// value, with the invariant the kernel keeps. pmap.dfy runs the code on it.
module VmSpec {
  import opened Common

  const NPDE: nat := 509                // PDX(UTOP): directory slots of the user range
  const NPTE: nat := 1024
  const NUSER: nat := NPDE * NPTE       // user pages, numbered by VPN

  // A page-table or page-directory word. `soft` are the bits below bit 6, which tlb_refill shifts
  // out (PTE_COW, PTE_LIBRARY, PTE_DIRTY). Words are taken to have PTE_G clear.
  datatype Pte = Pte(valid: bool, frame: nat, d: bool, soft: nat)
  const ZERO := Pte(false, 0, false, 0)

  // Bitwise or, and whether the bits of b are among those of a.
  function Or(a: nat, b: nat): nat {
    if a == 0 then b else if b == 0 then a
    else 2 * Or(a / 2, b / 2) + if a % 2 == 1 || b % 2 == 1 then 1 else 0
  }

  predicate Within(b: nat, a: nat) { b == 0 || (b % 2 <= a % 2 && Within(b / 2, a / 2)) }

  // A perm argument as a caller passes it: nobody masks its bits from 12 up. They are or-ed into the
  // frame number, so the word for frame f names f only if they lie within it.
  datatype Perm = Perm(high: nat, d: bool, soft: nat)

  function Word(f: nat, perm: Perm): Pte { Pte(true, Or(f, perm.high), perm.d, perm.soft) }

  predicate Names(f: nat, perm: Perm) { Within(perm.high, f) }

  lemma {:induction false} ZeroHas(b: nat)
    ensures Within(b, 0) <==> b == 0
  {
    if b != 0 { ZeroHas(b / 2); }
  }

  lemma {:induction false} OrWithin(a: nat, b: nat)
    ensures Or(a, b) == a <==> Within(b, a)
    ensures b == 0 ==> Within(b, a)
  {
    if a == 0 {
      ZeroHas(b);
    } else if b != 0 {
      OrWithin(a / 2, b / 2);
    }
  }

  // One half of a TLB entry: what is left of a word after `>> 6`.
  datatype Lo = Lo(valid: bool, frame: nat, d: bool)
  function Half(p: Pte): Lo { Lo(p.valid, p.frame, p.d) }

  // Every place a reference to a frame is kept: frames taken at boot, an env's directory, a
  // directory entry, a user page-table entry.
  datatype Site = Boot(f: nat) | Dir(dir: nat) | Table(pd: nat, pdx: nat) | User(env: nat, vpn: nat)

  // ref: pp_ref; free: page_free_list, head first; tab: each frame read as a table; dirs: the
  // frames in use as page directories; M: the references; owner: ASID in use -> directory.
  datatype VM = VM(ref: seq<nat>, free: seq<nat>, tab: seq<seq<Pte>>, dirs: set<nat>,
                   M: map<Site, Pte>, tlb: map<(nat, nat), (Lo, Lo)>, owner: map<nat, nat>)

  function Entry(tab: seq<seq<Pte>>, f: nat, i: nat): Pte {
    if f < |tab| && i < |tab[f]| then tab[f][i] else ZERO
  }

  function Put(tab: seq<seq<Pte>>, f: nat, i: nat, p: Pte): (r: seq<seq<Pte>>)
    requires f < |tab| && i < |tab[f]|
    ensures |r| == |tab| && forall g :: 0 <= g < |tab| ==> |r[g]| == |tab[g]|
    ensures forall g, j :: Entry(r, g, j) == if g == f && j == i then p else Entry(tab, g, j)
  {
    tab[f := tab[f][i := p]]
  }

  // The two-level lookup: the word for page v under directory d, or an invalid one.
  function Walk(tab: seq<seq<Pte>>, d: nat, v: nat): Pte {
    var pde := Entry(tab, d, v / NPTE);
    if pde.valid then Entry(tab, pde.frame, v % NPTE) else ZERO
  }

  ghost predicate Agrees(M: map<Site, Pte>, s: Site, p: Pte) {
    if p.valid then s in M && M[s] == p else s !in M
  }

  ghost predicate TableAt(vm: VM, d: nat, i: nat) { Agrees(vm.M, Table(d, i), Entry(vm.tab, d, i)) }
  ghost predicate UserAt(vm: VM, d: nat, v: nat) { Agrees(vm.M, User(d, v), Walk(vm.tab, d, v)) }

  ghost predicate Sized(vm: VM) {
    && |vm.ref| == |vm.tab|
    && (forall f :: 0 <= f < |vm.tab| ==> |vm.tab[f]| == NPTE)
  }

  ghost predicate SiteOk(vm: VM, s: Site)
    requires s in vm.M
  {
    && vm.M[s].frame < |vm.ref|
    && match s
       case Boot(f) => vm.M[s].frame == f
       case Dir(d) => vm.M[s].frame == d
       case Table(d, i) => d in vm.dirs && i < NPDE
       case User(d, v) => d in vm.dirs && v < NUSER
  }

  // M is exactly what the tables say.
  ghost predicate Refines(vm: VM) {
    && (forall d, i {:trigger TableAt(vm, d, i)} :: d in vm.dirs && 0 <= i < NPDE ==> TableAt(vm, d, i))
    && (forall d, v {:trigger UserAt(vm, d, v)} :: d in vm.dirs && 0 <= v < NUSER ==> UserAt(vm, d, v))
    && (forall d :: d in vm.dirs <==> Dir(d) in vm.M)
    && (forall s :: s in vm.M ==> SiteOk(vm, s))
  }

  // No page table is shared, and none is a directory.
  ghost predicate Tree(vm: VM) {
    && (forall s, t :: s in vm.M && t in vm.M && s.Table? && t.Table? && vm.M[s].frame == vm.M[t].frame ==> s == t)
    && (forall s :: s in vm.M && s.Table? ==> vm.M[s].frame !in vm.dirs)
  }

  // All references to frame f are user mappings.
  ghost predicate Data(vm: VM, f: nat) { forall s :: s in vm.M && vm.M[s].frame == f ==> s.User? }

  // No user page maps a page table, a directory or a frame the kernel has kept since boot.
  ghost predicate Isolated(vm: VM) {
    forall s, t :: s in vm.M && t in vm.M && s.User? && vm.M[s].frame == vm.M[t].frame ==> t.User?
  }

  ghost function At(M: map<Site, Pte>, f: nat): set<Site> { set s | s in M && M[s].frame == f }

  // pp_ref counts the references, and the free list holds only frames nothing refers to.
  ghost predicate Counted(vm: VM) {
    && (forall f {:trigger At(vm.M, f)} :: 0 <= f < |vm.ref| ==> vm.ref[f] == |At(vm.M, f)|)
    && Distinct(vm.free)
    && (forall f :: f in vm.free ==> f < |vm.ref| && vm.ref[f] == 0)
  }

  ghost predicate HalfOk(vm: VM, a: nat, v: nat, h: Lo) {
    h.valid && v < NUSER ==>
      a in vm.owner && User(vm.owner[a], v) in vm.M && h == Half(vm.M[User(vm.owner[a], v)])
  }

  // Every valid half of a TLB entry for a user page is the current page-table entry of the env
  // that owns the entry's ASID; an ASID nobody owns has none.
  ghost predicate Coherent(vm: VM) {
    && (forall a, p {:trigger vm.tlb[(a, p)]} :: (a, p) in vm.tlb ==>
          HalfOk(vm, a, 2 * p, vm.tlb[(a, p)].0) && HalfOk(vm, a, 2 * p + 1, vm.tlb[(a, p)].1))
    && (forall a :: a in vm.owner ==> vm.owner[a] in vm.dirs)
    && (forall a, b :: a in vm.owner && b in vm.owner && vm.owner[a] == vm.owner[b] ==> a == b)
  }

  ghost predicate Good(vm: VM) {
    Sized(vm) && Refines(vm) && Tree(vm) && Isolated(vm) && Counted(vm) && Coherent(vm)
  }

  lemma AtAdd(M: map<Site, Pte>, s: Site, p: Pte, f: nat)
    requires s !in M
    ensures |At(M[s := p], f)| == |At(M, f)| + if p.frame == f then 1 else 0
  {
    if p.frame == f { assert At(M[s := p], f) == At(M, f) + {s}; }
    else { assert At(M[s := p], f) == At(M, f); }
  }

  lemma AtSame(M: map<Site, Pte>, s: Site, p: Pte, f: nat)
    requires s in M && M[s].frame == p.frame
    ensures At(M[s := p], f) == At(M, f)
  {
  }

  lemma AtRemove(M: map<Site, Pte>, s: Site, f: nat)
    requires s in M
    ensures |At(M - {s}, f)| + (if M[s].frame == f then 1 else 0) == |At(M, f)|
  {
    if M[s].frame == f { assert At(M, f) == At(M - {s}, f) + {s}; }
    else { assert At(M - {s}, f) == At(M, f); }
  }

  // Taking references away, or moving none, isolates no less; a new one does so unless it mixes.
  lemma StaysIsolated(vm: VM, w: VM)
    requires Isolated(vm)
    requires forall s :: s in w.M ==> s in vm.M && w.M[s].frame == vm.M[s].frame
    ensures Isolated(w)
  {
  }

  // No new table and no new directory.
  lemma StaysTree(vm: VM, w: VM)
    requires Tree(vm) && w.dirs <= vm.dirs
    requires forall s :: s in w.M && s.Table? ==> s in vm.M && w.M[s].frame == vm.M[s].frame
    ensures Tree(w)
  {
  }

  lemma AddsIsolated(vm: VM, s: Site, p: Pte, w: VM)
    requires Isolated(vm) && w.M == vm.M[s := p]
    requires if s.User? then Data(vm, p.frame) else forall t :: t in vm.M ==> vm.M[t].frame != p.frame
    ensures Isolated(w)
  {
  }

  // Steps that leave the tables, or the counts, alone.
  lemma SameTables(vm: VM, w: VM)
    requires Sized(vm) && Refines(vm) && Tree(vm) && Isolated(vm)
    requires w.tab == vm.tab && w.dirs == vm.dirs && w.M == vm.M && w.ref == vm.ref
    ensures Sized(w) && Refines(w) && Tree(w) && Isolated(w)
  {
    hide Isolated;
    StaysIsolated(vm, w);
    assert forall d, i :: TableAt(w, d, i) == TableAt(vm, d, i);
    assert forall d, i :: UserAt(w, d, i) == UserAt(vm, d, i);
    forall s | s in w.M ensures SiteOk(w, s) { assert SiteOk(vm, s); }
  }

  lemma SameCounts(vm: VM, w: VM)
    requires Counted(vm) && w.M == vm.M && w.ref == vm.ref && w.free == vm.free
    ensures Counted(w)
  {
    hide Distinct;
  }

  // Frame f gains no reference but perhaps t's, which is to another frame.
  lemma StaysData(vm: VM, w: VM, f: nat, t: Site)
    requires Data(vm, f)
    requires forall s :: s in w.M && s !in vm.M ==> s == t && w.M[s].frame != f
    requires forall s :: s in w.M && s in vm.M ==> w.M[s] == vm.M[s]
    ensures Data(w, f)
  {
  }

  lemma AddsCounted(vm: VM, s: Site, p: Pte, w: VM)
    requires Counted(vm) && s !in vm.M && p.frame < |vm.ref| && p.frame !in vm.free
    requires w.M == vm.M[s := p] && w.ref == vm.ref[p.frame := vm.ref[p.frame] + 1] && w.free == vm.free
    ensures Counted(w)
  {
    hide Distinct;
    forall f | 0 <= f < |w.ref| ensures w.ref[f] == |At(w.M, f)| { AtAdd(vm.M, s, p, f); }
  }

  // No translation is added, and those left are for mappings that are still there.
  lemma StillCoherent(vm: VM, w: VM)
    requires Coherent(vm)
    requires forall k :: k in w.tlb ==> k in vm.tlb && w.tlb[k] == vm.tlb[k]
    requires forall a :: a in w.owner ==> a in vm.owner && w.owner[a] == vm.owner[a] && w.owner[a] in w.dirs
    requires forall a, v: nat :: a in vm.owner && (a, v / 2) in w.tlb && User(vm.owner[a], v) in vm.M ==>
               && a in w.owner && User(vm.owner[a], v) in w.M
               && Half(w.M[User(vm.owner[a], v)]) == Half(vm.M[User(vm.owner[a], v)])
    ensures Coherent(w)
  {
    hide Half;
    forall a, p | (a, p) in w.tlb
      ensures HalfOk(w, a, 2 * p, w.tlb[(a, p)].0) && HalfOk(w, a, 2 * p + 1, w.tlb[(a, p)].1)
    {
      assert vm.tlb[(a, p)] == w.tlb[(a, p)] && 2 * p / 2 == p && (2 * p + 1) / 2 == p;
    }
  }

  lemma OwnersDirs(vm: VM)
    requires Coherent(vm)
    ensures forall a :: a in vm.owner ==> vm.owner[a] in vm.dirs
  {
  }

  // A reference that moves to another frame is one less for its old one.
  lemma AtMoves(M: map<Site, Pte>, s: Site, p: Pte)
    requires s in M && M[s].frame != p.frame
    ensures |At(M[s := p], M[s].frame)| + 1 == |At(M, M[s].frame)|
  {
    assert At(M, M[s].frame) == At(M[s := p], M[s].frame) + {s};
  }

  // A referenced frame has a count above zero, so it is not free.
  lemma Referenced(vm: VM, s: Site)
    requires Good(vm) && s in vm.M
    ensures vm.M[s].frame < |vm.ref| && vm.ref[vm.M[s].frame] > 0 && vm.M[s].frame !in vm.free
  {
    assert SiteOk(vm, s) && s in At(vm.M, vm.M[s].frame);
  }

  // tlb_out: the pair that holds page v under ASID a is dropped.
  function Flush(vm: VM, a: nat, v: nat): VM { vm.(tlb := vm.tlb - {(a, v / 2)}) }

  lemma FlushGood(vm: VM, a: nat, v: nat)
    requires Good(vm)
    ensures Good(Flush(vm, a, v))
  {
    hide Sized, Refines, Tree, Isolated, Counted, Coherent;
    var w := Flush(vm, a, v);
    SameTables(vm, w);
    SameCounts(vm, w);
    OwnersDirs(vm);
    StillCoherent(vm, w);
  }

  // The frame of the page table that holds page v.
  function TableOf(vm: VM, d: nat, v: nat): nat { Entry(vm.tab, d, v / NPTE).frame }

  ghost predicate HasTable(vm: VM, d: nat, v: nat) { Entry(vm.tab, d, v / NPTE).valid }

  // Store word p for page v in an existing page table.
  function Store(vm: VM, d: nat, v: nat, p: Pte): VM
    requires TableOf(vm, d, v) < |vm.tab| && |vm.tab[TableOf(vm, d, v)]| == NPTE
  {
    vm.(tab := Put(vm.tab, TableOf(vm, d, v), v % NPTE, p))
  }

  lemma TableFrame(vm: VM, d: nat, v: nat)
    requires Sized(vm) && Refines(vm) && d in vm.dirs && v < NUSER && HasTable(vm, d, v)
    ensures Table(d, v / NPTE) in vm.M && vm.M[Table(d, v / NPTE)].frame == TableOf(vm, d, v)
    ensures TableOf(vm, d, v) < |vm.tab| && |vm.tab[TableOf(vm, d, v)]| == NPTE
  {
    assert TableAt(vm, d, v / NPTE);
    assert SiteOk(vm, Table(d, v / NPTE));
  }

  // What a lookup finds is what the reference map holds.
  lemma WalkFinds(vm: VM, d: nat, v: nat)
    requires Good(vm) && d in vm.dirs && v < NUSER
    ensures d < |vm.tab| && |vm.tab[d]| == NPTE && |vm.ref| == |vm.tab|
    ensures User(d, v) in vm.M <==> Walk(vm.tab, d, v).valid
    ensures Table(d, v / NPTE) in vm.M <==> HasTable(vm, d, v)
    ensures User(d, v) in vm.M ==> vm.M[User(d, v)] == Walk(vm.tab, d, v)
    ensures HasTable(vm, d, v) ==>
              && Table(d, v / NPTE) in vm.M && vm.M[Table(d, v / NPTE)].frame == TableOf(vm, d, v)
              && TableOf(vm, d, v) < |vm.tab| && |vm.tab[TableOf(vm, d, v)]| == NPTE
  {
    assert UserAt(vm, d, v) && TableAt(vm, d, v / NPTE) && Dir(d) in vm.M && SiteOk(vm, Dir(d));
    if HasTable(vm, d, v) { TableFrame(vm, d, v); }
  }

  // Storing a page-table word changes the lookup of that page under that directory and of no
  // other page anywhere.
  lemma StoreWalks(vm: VM, d: nat, v: nat, p: Pte, e: nat, u: nat)
    requires Sized(vm) && Refines(vm) && Tree(vm)
    requires d in vm.dirs && v < NUSER && HasTable(vm, d, v) && e in vm.dirs && u < NUSER
    requires TableOf(vm, d, v) < |vm.tab| && |vm.tab[TableOf(vm, d, v)]| == NPTE
    ensures Walk(Store(vm, d, v, p).tab, e, u) == if e == d && u == v then p else Walk(vm.tab, e, u)
    ensures Entry(Store(vm, d, v, p).tab, e, u / NPTE) == Entry(vm.tab, e, u / NPTE)
  {
    TableFrame(vm, d, v);
    if HasTable(vm, e, u) {
      TableFrame(vm, e, u);
      if TableOf(vm, e, u) == TableOf(vm, d, v) {
        assert Table(e, u / NPTE) == Table(d, v / NPTE);
        assert u == NPTE * (u / NPTE) + u % NPTE && v == NPTE * (v / NPTE) + v % NPTE;
      }
    }
  }

  ghost predicate TlbClear(vm: VM, d: nat, v: nat) {
    forall a :: a in vm.owner && vm.owner[a] == d ==> (a, v / 2) !in vm.tlb
  }

  // What page_insert leaves at a page that had no mapping: frame f counts one more, and p is stored.
  function Mapped(vm: VM, d: nat, v: nat, f: nat, p: Pte): VM
    requires TableOf(vm, d, v) < |vm.tab| && |vm.tab[TableOf(vm, d, v)]| == NPTE && f < |vm.ref|
  {
    Store(vm, d, v, p).(M := vm.M[User(d, v) := p], ref := vm.ref[f := vm.ref[f] + 1])
  }

  lemma CountsAt(vm: VM, f: nat)
    requires Good(vm) && f < |vm.ref|
    ensures vm.ref[f] == |At(vm.M, f)|
  {
  }

  lemma LooseData(vm: VM, f: nat)
    requires Loose(vm, f)
    ensures Data(vm, f)
  {
  }

  lemma Mixes(vm: VM, s: Site, u: Site)
    requires s in vm.M && u in vm.M && s.Table? && u.User? && vm.M[s].frame == vm.M[u].frame
    ensures !Isolated(vm)
  {
  }

  lemma OrOne(f: nat)
    requires f % 2 == 0
    ensures Or(f, 1) == f + 1
  {
    assert f != 0 ==> Or(f / 2, 0) == f / 2;
  }

  // Refinement after a store at (d, v), whatever happens to counts, free list and TLB.
  lemma StoreRefines(vm: VM, w: VM, d: nat, v: nat, p: Pte)
    requires Good(vm) && d in vm.dirs && v < NUSER && HasTable(vm, d, v)
    requires TableOf(vm, d, v) < |vm.tab| && |vm.tab[TableOf(vm, d, v)]| == NPTE
    requires w.tab == Store(vm, d, v, p).tab && w.dirs == vm.dirs && |w.ref| == |vm.ref|
    requires p.valid ==> w.M == vm.M[User(d, v) := p] && p.frame < |vm.ref|
    requires !p.valid ==> w.M == vm.M - {User(d, v)}
    ensures Sized(w) && Refines(w) && Tree(w)
  {
    hide Coherent, Counted, Isolated, Tree, Walk, Entry;
    StaysTree(vm, w);
    forall e, i | e in w.dirs && 0 <= i < NPDE ensures TableAt(w, e, i) {
      assert TableAt(vm, e, i) && i * NPTE / NPTE == i;
      StoreWalks(vm, d, v, p, e, i * NPTE);
    }
    forall e, u | e in w.dirs && 0 <= u < NUSER ensures UserAt(w, e, u) {
      assert UserAt(vm, e, u);
      StoreWalks(vm, d, v, p, e, u);
    }
    forall s | s in w.M ensures SiteOk(w, s) { assert s in vm.M ==> SiteOk(vm, s); }
  }

  // All is well exactly when the word stored names the frame counted.
  lemma MappedGood(vm: VM, d: nat, v: nat, f: nat, p: Pte)
    requires Good(vm) && d in vm.dirs && v < NUSER && HasTable(vm, d, v)
    requires User(d, v) !in vm.M && p.valid && f < |vm.ref| && f !in vm.free && Data(vm, f)
    requires TableOf(vm, d, v) < |vm.tab| && |vm.tab[TableOf(vm, d, v)]| == NPTE
    ensures Good(Mapped(vm, d, v, f, p)) <==> p.frame == f
  {
    hide Sized, Refines, Tree, Isolated, Counted, Coherent;
    var w := Mapped(vm, d, v, f, p);
    if p.frame == f {
      StoreRefines(vm, w, d, v, p);
      AddsIsolated(vm, User(d, v), p, w);
      AddsCounted(vm, User(d, v), p, w);
      OwnersDirs(vm);
      StillCoherent(vm, w);
    } else {
      AtAdd(vm.M, User(d, v), p, f);
      CountsAt(vm, f);
      if Good(w) { CountsAt(w, f); assert false; }
    }
  }

  // page_insert of the frame that is already there: only the permission changes.
  function Repermed(vm: VM, d: nat, v: nat, p: Pte): VM
    requires TableOf(vm, d, v) < |vm.tab| && |vm.tab[TableOf(vm, d, v)]| == NPTE
  {
    Store(vm, d, v, p).(M := vm.M[User(d, v) := p])
  }

  lemma RepermedGood(vm: VM, d: nat, v: nat, p: Pte)
    requires Good(vm) && d in vm.dirs && v < NUSER && HasTable(vm, d, v)
    requires User(d, v) in vm.M && p.valid && TlbClear(vm, d, v)
    requires TableOf(vm, d, v) < |vm.tab| && |vm.tab[TableOf(vm, d, v)]| == NPTE
    ensures Good(Repermed(vm, d, v, p)) <==> p.frame == vm.M[User(d, v)].frame
  {
    hide Sized, Tree, Isolated, Coherent, Distinct;
    var w, f := Repermed(vm, d, v, p), vm.M[User(d, v)].frame;
    assert SiteOk(vm, User(d, v));
    hide Refines;
    if p.frame == f {
      StoreRefines(vm, w, d, v, p);
      StaysIsolated(vm, w);
      forall g | 0 <= g < |w.ref| ensures w.ref[g] == |At(w.M, g)| { AtSame(vm.M, User(d, v), p, g); }
      OwnersDirs(vm);
      StillCoherent(vm, w);
    } else {
      AtMoves(vm.M, User(d, v), p);
      CountsAt(vm, f);
      hide Good;
      if Good(w) { CountsAt(w, f); assert false; }
    }
  }

  // page_decref: one reference less, and a frame nobody refers to heads the free list.
  function Decref(vm: VM, f: nat): VM
    requires f < |vm.ref| && vm.ref[f] > 0
  {
    vm.(ref := vm.ref[f := vm.ref[f] - 1], free := if vm.ref[f] == 1 then [f] + vm.free else vm.free)
  }

  // Dropping one reference keeps the counts right.
  lemma DecrefCounted(vm: VM, w: VM, s: Site)
    requires Good(vm) && s in vm.M && vm.M[s].frame < |vm.ref| && vm.ref[vm.M[s].frame] > 0
    requires w.M == vm.M - {s}
    requires var t := Decref(vm, vm.M[s].frame); w.ref == t.ref && w.free == t.free
    ensures Counted(w)
  {
    Referenced(vm, s);
    forall f | 0 <= f < |w.ref| ensures w.ref[f] == |At(w.M, f)| { AtRemove(vm.M, s, f); }
  }

  function Unmapped(vm: VM, d: nat, v: nat): VM
    requires User(d, v) in vm.M && vm.M[User(d, v)].frame < |vm.ref| && vm.ref[vm.M[User(d, v)].frame] > 0
    requires TableOf(vm, d, v) < |vm.tab| && |vm.tab[TableOf(vm, d, v)]| == NPTE
  {
    Store(Decref(vm, vm.M[User(d, v)].frame), d, v, ZERO).(M := vm.M - {User(d, v)})
  }

  lemma UnmappedGood(vm: VM, a: nat, d: nat, v: nat)
    requires Good(vm) && d in vm.dirs && v < NUSER && HasTable(vm, d, v) && User(d, v) in vm.M
    requires vm.M[User(d, v)].frame < |vm.ref| && vm.ref[vm.M[User(d, v)].frame] > 0
    requires TableOf(vm, d, v) < |vm.tab| && |vm.tab[TableOf(vm, d, v)]| == NPTE
    requires forall b :: b in vm.owner && vm.owner[b] == d ==> b == a
    ensures Good(Flush(Unmapped(vm, d, v), a, v))
  {
    hide Sized, Refines, Tree, Isolated, Counted, Coherent;
    var w := Flush(Unmapped(vm, d, v), a, v);
    StoreRefines(vm, w, d, v, ZERO);
    StaysIsolated(vm, w);
    DecrefCounted(vm, w, User(d, v));
    OwnersDirs(vm);
    StillCoherent(vm, w);
  }

  // page_alloc: the head of the free list, cleared.
  function Zeros(): seq<Pte> { seq(NPTE, i => ZERO) }

  function Taken(vm: VM): VM
    requires vm.free != [] && vm.free[0] < |vm.tab|
  {
    vm.(free := vm.free[1..], tab := vm.tab[vm.free[0] := Zeros()])
  }

  // A free frame is neither a directory nor a page table.
  lemma FreeUnused(vm: VM, f: nat)
    requires Good(vm) && f in vm.free
    ensures f < |vm.ref| && f !in vm.dirs
    ensures forall s :: s in vm.M ==> vm.M[s].frame != f
  {
    forall s | s in vm.M ensures vm.M[s].frame != f { Referenced(vm, s); }
    assert f in vm.dirs ==> Dir(f) in vm.M && SiteOk(vm, Dir(f));
  }

  ghost predicate Loose(vm: VM, f: nat) {
    && f < |vm.ref| && f !in vm.free && f !in vm.dirs
    && (forall s :: s in vm.M ==> vm.M[s].frame != f)
  }

  // What a user gets with one call: sys_mem_alloc hands out an even frame f, and perm has bit 12 set.
  // The word names f + 1, whose count stays as it was: if that frame is a page table, a user page
  // maps it; if it is free, it is mapped and free at once.
  lemma NamesNeighbour(vm: VM, d: nat, v: nat, f: nat, perm: Perm)
    requires Good(vm) && d in vm.dirs && v < NUSER && HasTable(vm, d, v)
    requires User(d, v) !in vm.M && f < |vm.ref| && Loose(vm, f) && f % 2 == 0 && perm.high == 1
    requires TableOf(vm, d, v) < |vm.tab| && |vm.tab[TableOf(vm, d, v)]| == NPTE
    ensures var w := Mapped(vm, d, v, f, Word(f, perm));
            && Walk(w.tab, d, v).frame == f + 1 && !Good(w)
            && (forall s :: s in vm.M && s.Table? && vm.M[s].frame == f + 1 ==> !Isolated(w))
            && (f + 1 in vm.free ==> f + 1 in w.free && User(d, v) in w.M && w.M[User(d, v)].frame == f + 1)
  {
    OrOne(f);
    var p := Word(f, perm);
    LooseData(vm, f);
    hide Tree, Isolated, Counted, Coherent, Walk;
    MappedGood(vm, d, v, f, p);
    StoreWalks(vm, d, v, p, d, v);
    var w := Mapped(vm, d, v, f, p);
    forall s | s in vm.M && s.Table? && vm.M[s].frame == f + 1 ensures !Isolated(w) {
      assert s in w.M && User(d, v) in w.M;
      Mixes(w, s, User(d, v));
    }
  }

  lemma TakenRefines(vm: VM)
    requires Good(vm) && vm.free != [] && vm.free[0] < |vm.tab|
    ensures var w := Taken(vm); Sized(w) && Refines(w) && Loose(w, vm.free[0])
  {
    hide Isolated, Tree, Coherent;
    var w, f := Taken(vm), vm.free[0];
    FreeUnused(vm, f);
    forall e, i | e in w.dirs && 0 <= i < NPDE ensures TableAt(w, e, i) { assert TableAt(vm, e, i); }
    forall e, u | e in w.dirs && 0 <= u < NUSER ensures UserAt(w, e, u) {
      assert UserAt(vm, e, u);
      if HasTable(vm, e, u) { TableFrame(vm, e, u); }
    }
    forall s | s in w.M ensures SiteOk(w, s) { assert SiteOk(vm, s); }
  }

  lemma TakenGood(vm: VM)
    requires Good(vm) && vm.free != [] && vm.free[0] < |vm.tab|
    ensures Good(Taken(vm)) && Loose(Taken(vm), vm.free[0])
    ensures forall j :: 0 <= j < NPTE ==> !Entry(Taken(vm).tab, vm.free[0], j).valid
  {
    hide Isolated, Tree, Coherent, Refines;
    var w := Taken(vm);
    TakenRefines(vm);
    StaysIsolated(vm, w);
    StaysTree(vm, w);
    OwnersDirs(vm);
    StillCoherent(vm, w);
    assert forall g :: g in w.free ==> g in vm.free;
  }

  // A taken, cleared frame hooked in as the page table of slot i.
  function Hooked(vm: VM, d: nat, i: nat, f: nat): VM
    requires d < |vm.tab| && i < |vm.tab[d]| && f < |vm.ref|
  {
    var p := Pte(true, f, false, 0);
    vm.(tab := Put(vm.tab, d, i, p), M := vm.M[Table(d, i) := p], ref := vm.ref[f := vm.ref[f] + 1])
  }

  lemma HookedRefines(vm: VM, d: nat, i: nat, f: nat)
    requires Good(vm) && d in vm.dirs && i < NPDE && d < |vm.tab| && i < |vm.tab[d]|
    requires !Entry(vm.tab, d, i).valid && Loose(vm, f)
    requires forall j :: 0 <= j < NPTE ==> !Entry(vm.tab, f, j).valid
    ensures var w := Hooked(vm, d, i, f); Table(d, i) !in vm.M && Sized(w) && Refines(w) && Tree(w)
  {
    hide Isolated, Counted, Coherent;
    var w := Hooked(vm, d, i, f);
    assert TableAt(vm, d, i);
    forall e, k | e in w.dirs && 0 <= k < NPDE ensures TableAt(w, e, k) { assert TableAt(vm, e, k); }
    forall e, u | e in w.dirs && 0 <= u < NUSER ensures UserAt(w, e, u) {
      assert UserAt(vm, e, u);
      if HasTable(vm, e, u) { TableFrame(vm, e, u); }
    }
    forall s | s in w.M ensures SiteOk(w, s) { assert s in vm.M ==> SiteOk(vm, s); }
  }

  lemma HookedGood(vm: VM, d: nat, i: nat, f: nat)
    requires Good(vm) && d in vm.dirs && i < NPDE && d < |vm.tab| && i < |vm.tab[d]|
    requires !Entry(vm.tab, d, i).valid && Loose(vm, f)
    requires forall j :: 0 <= j < NPTE ==> !Entry(vm.tab, f, j).valid
    ensures Good(Hooked(vm, d, i, f))
  {
    hide Sized, Refines, Tree, Isolated, Counted, Coherent;
    var w := Hooked(vm, d, i, f);
    HookedRefines(vm, d, i, f);
    AddsIsolated(vm, Table(d, i), Pte(true, f, false, 0), w);
    AddsCounted(vm, Table(d, i), Pte(true, f, false, 0), w);
    OwnersDirs(vm);
    StillCoherent(vm, w);
  }

  // Unhooking an empty page table.
  function Unhooked(vm: VM, d: nat, i: nat): VM
    requires d < |vm.tab| && i < |vm.tab[d]| && Entry(vm.tab, d, i).frame < |vm.ref|
    requires vm.ref[Entry(vm.tab, d, i).frame] > 0
  {
    Decref(vm, Entry(vm.tab, d, i).frame).(tab := Put(vm.tab, d, i, ZERO), M := vm.M - {Table(d, i)})
  }

  lemma UnhookedRefines(vm: VM, d: nat, i: nat)
    requires Good(vm) && d in vm.dirs && i < NPDE && d < |vm.tab| && i < |vm.tab[d]|
    requires Entry(vm.tab, d, i).valid && Entry(vm.tab, d, i).frame < |vm.ref|
    requires vm.ref[Entry(vm.tab, d, i).frame] > 0
    requires forall v :: v / NPTE == i ==> User(d, v) !in vm.M
    ensures var w, t := Unhooked(vm, d, i), Table(d, i);
            && t in vm.M && vm.M[t].frame == Entry(vm.tab, d, i).frame
            && Sized(w) && Refines(w) && Tree(w)
  {
    hide Isolated, Counted, Coherent;
    var w := Unhooked(vm, d, i);
    assert TableAt(vm, d, i);
    StaysTree(vm, w);
    hide Tree;
    forall e, k | e in w.dirs && 0 <= k < NPDE ensures TableAt(w, e, k) { assert TableAt(vm, e, k); }
    forall e, u | e in w.dirs && 0 <= u < NUSER ensures UserAt(w, e, u) {
      assert UserAt(vm, e, u);
      if HasTable(vm, e, u) { TableFrame(vm, e, u); }
    }
    forall s | s in w.M ensures SiteOk(w, s) { assert SiteOk(vm, s); }
  }

  lemma UnhookedGood(vm: VM, d: nat, i: nat)
    requires Good(vm) && d in vm.dirs && i < NPDE && d < |vm.tab| && i < |vm.tab[d]|
    requires Entry(vm.tab, d, i).valid && Entry(vm.tab, d, i).frame < |vm.ref|
    requires vm.ref[Entry(vm.tab, d, i).frame] > 0
    requires forall v :: v / NPTE == i ==> User(d, v) !in vm.M
    ensures Good(Unhooked(vm, d, i))
  {
    hide Sized, Refines, Tree, Isolated, Counted, Coherent;
    var w := Unhooked(vm, d, i);
    UnhookedRefines(vm, d, i);
    StaysIsolated(vm, w);
    DecrefCounted(vm, w, Table(d, i));
    OwnersDirs(vm);
    StillCoherent(vm, w);
  }

  // env_setup_vm: a taken frame becomes a directory. Its user range is empty; above UTOP it
  // holds whatever the template has there.
  function NewDir(vm: VM, f: nat, above: seq<Pte>): VM
    requires f < |vm.ref| && f < |vm.tab| && |above| == NPTE - NPDE
  {
    vm.(tab := vm.tab[f := Zeros()[..NPDE] + above], dirs := vm.dirs + {f},
        M := vm.M[Dir(f) := Pte(true, f, false, 0)], ref := vm.ref[f := vm.ref[f] + 1])
  }

  // A loose frame has never been a directory, and nothing hangs below it.
  lemma LooseEmpty(vm: VM, f: nat)
    requires Good(vm) && Loose(vm, f)
    ensures Dir(f) !in vm.M && (forall v :: User(f, v) !in vm.M) && (forall i :: Table(f, i) !in vm.M)
  {
    assert forall s :: s in vm.M && (s.Table? || s.User?) ==> SiteOk(vm, s);
  }

  // A loose frame becomes a directory: no table is one.
  lemma NewDirTree(vm: VM, f: nat, above: seq<Pte>)
    requires Tree(vm) && Loose(vm, f) && f < |vm.tab| && |above| == NPTE - NPDE
    ensures Tree(NewDir(vm, f, above))
  {
  }

  lemma NewDirRefines(vm: VM, f: nat, above: seq<Pte>)
    requires Good(vm) && Loose(vm, f) && |above| == NPTE - NPDE
    ensures var w := NewDir(vm, f, above); Sized(w) && Refines(w) && Tree(w)
  {
    hide Counted, Coherent, Isolated, Tree;
    var w := NewDir(vm, f, above);
    LooseEmpty(vm, f);
    NewDirTree(vm, f, above);
    assert forall i :: 0 <= i < NPDE ==> !Entry(w.tab, f, i).valid;
    forall e, k | e in w.dirs && 0 <= k < NPDE ensures TableAt(w, e, k) {
      if e != f { assert TableAt(vm, e, k); }
    }
    forall e, u | e in w.dirs && 0 <= u < NUSER ensures UserAt(w, e, u) {
      if e != f {
        assert UserAt(vm, e, u);
        if HasTable(vm, e, u) { TableFrame(vm, e, u); }
      }
    }
    forall s | s in w.M ensures SiteOk(w, s) { assert s in vm.M ==> SiteOk(vm, s); }
  }

  lemma NewDirGood(vm: VM, f: nat, above: seq<Pte>)
    requires Good(vm) && Loose(vm, f) && |above| == NPTE - NPDE
    ensures Good(NewDir(vm, f, above))
    ensures forall v :: User(f, v) !in NewDir(vm, f, above).M
  {
    hide Refines, Tree, Isolated, Counted, Coherent;
    var w := NewDir(vm, f, above);
    LooseEmpty(vm, f);
    NewDirRefines(vm, f, above);
    AddsIsolated(vm, Dir(f), Pte(true, f, false, 0), w);
    AddsCounted(vm, Dir(f), Pte(true, f, false, 0), w);
    OwnersDirs(vm);
    StillCoherent(vm, w);
  }

  // env_free: an empty directory is given back together with its ASID.
  function NoDir(vm: VM, a: nat, d: nat): VM
    requires d < |vm.ref| && vm.ref[d] > 0
  {
    Decref(vm, d).(dirs := vm.dirs - {d}, M := vm.M - {Dir(d)}, owner := vm.owner - {a})
  }

  ghost predicate Bare(vm: VM, d: nat) {
    forall s :: s in vm.M ==> !(s.Table? && s.pd == d) && !(s.User? && s.env == d)
  }

  lemma NoDirRefines(vm: VM, a: nat, d: nat)
    requires Good(vm) && d in vm.dirs && d < |vm.ref| && vm.ref[d] > 0 && Bare(vm, d)
    ensures var w := NoDir(vm, a, d); Dir(d) in vm.M && SiteOk(vm, Dir(d)) && Sized(w) && Refines(w) && Tree(w)
  {
    hide Counted, Coherent, Isolated, Tree;
    var w := NoDir(vm, a, d);
    StaysTree(vm, w);
    assert Dir(d) in vm.M && SiteOk(vm, Dir(d));
    forall e, k | e in w.dirs && 0 <= k < NPDE ensures TableAt(w, e, k) { assert TableAt(vm, e, k); }
    forall e, u | e in w.dirs && 0 <= u < NUSER ensures UserAt(w, e, u) { assert UserAt(vm, e, u); }
    forall s | s in w.M ensures SiteOk(w, s) { assert SiteOk(vm, s); }
  }

  lemma NoDirGood(vm: VM, a: nat, d: nat)
    requires Good(vm) && d in vm.dirs && d < |vm.ref| && vm.ref[d] > 0 && Bare(vm, d)
    requires forall b :: b in vm.owner && vm.owner[b] == d ==> b == a
    requires a in vm.owner ==> vm.owner[a] == d
    ensures Good(NoDir(vm, a, d))
  {
    hide Sized, Refines, Tree, Isolated, Counted, Coherent;
    var w := NoDir(vm, a, d);
    NoDirRefines(vm, a, d);
    StaysIsolated(vm, w);
    DecrefCounted(vm, w, Dir(d));
    OwnersDirs(vm);
    StillCoherent(vm, w);
  }

  lemma OwnsNone(vm: VM, a: nat, d: nat, b: nat, v: nat, h: Lo)
    requires HalfOk(vm, b, v, h) && a !in vm.owner
    ensures HalfOk(vm.(owner := vm.owner[a := d]), b, v, h)
  {
  }

  // asid_alloc for a directory that has none: no stale translation can answer for it.
  lemma OwnGood(vm: VM, a: nat, d: nat)
    requires Good(vm) && a !in vm.owner && d in vm.dirs
    requires forall b :: b in vm.owner ==> vm.owner[b] != d
    ensures Good(vm.(owner := vm.owner[a := d]))
  {
    hide Sized, Refines, Tree, Isolated, Counted, HalfOk;
    var w := vm.(owner := vm.owner[a := d]);
    SameTables(vm, w);
    SameCounts(vm, w);
    forall b, p | (b, p) in w.tlb
      ensures HalfOk(w, b, 2 * p, w.tlb[(b, p)].0) && HalfOk(w, b, 2 * p + 1, w.tlb[(b, p)].1)
    {
      OwnsNone(vm, a, d, b, 2 * p, w.tlb[(b, p)].0);
      OwnsNone(vm, a, d, b, 2 * p + 1, w.tlb[(b, p)].1);
    }
  }

  // What a page-table word tells the TLB: whether the page is mapped, and where and how.
  ghost predicate Answers(vm: VM, d: nat, v: nat, h: Lo) {
    && (h.valid <==> User(d, v) in vm.M)
    && (h.valid ==> h.frame == vm.M[User(d, v)].frame && h.d == vm.M[User(d, v)].d)
  }

  lemma HalfAnswers(vm: VM, d: nat, v: nat)
    requires Good(vm) && d in vm.dirs && v < NUSER
    ensures Answers(vm, d, v, Half(Walk(vm.tab, d, v)))
  {
    WalkFinds(vm, d, v);
  }

  // tlbwr: the pair of pages 2p and 2p+1 as the page table has them now.
  function Filled(vm: VM, a: nat, d: nat, v: nat): VM {
    var p := v / 2;
    vm.(tlb := vm.tlb[(a, p) := (Half(Walk(vm.tab, d, 2 * p)), Half(Walk(vm.tab, d, 2 * p + 1)))])
  }

  lemma FilledHalf(vm: VM, a: nat, d: nat, v: nat)
    requires Good(vm) && a in vm.owner && vm.owner[a] == d && d in vm.dirs
    ensures HalfOk(vm, a, v, Half(Walk(vm.tab, d, v)))
  {
    if v < NUSER { WalkFinds(vm, d, v); }
  }

  lemma FilledGood(vm: VM, a: nat, d: nat, v: nat)
    requires Good(vm) && a in vm.owner && vm.owner[a] == d && v < NUSER
    ensures Good(Filled(vm, a, d, v))
  {
    hide Sized, Refines, Tree, Isolated, Counted, Walk, Half;
    var w, p := Filled(vm, a, d, v), v / 2;
    OwnersDirs(vm);
    FilledHalf(vm, a, d, 2 * p);
    FilledHalf(vm, a, d, 2 * p + 1);
    SameTables(vm, w);
    SameCounts(vm, w);
    forall b, q | (b, q) in w.tlb
      ensures HalfOk(w, b, 2 * q, w.tlb[(b, q)].0) && HalfOk(w, b, 2 * q + 1, w.tlb[(b, q)].1)
    {
      if (b, q) != (a, p) { assert HalfOk(vm, b, 2 * q, vm.tlb[(b, q)].0); }
    }
  }

  // A store by a user program through a writable TLB half.
  function Written(vm: VM, f: nat, j: nat, p: Pte): VM
    requires f < |vm.tab| && j < |vm.tab[f]|
  {
    vm.(tab := Put(vm.tab, f, j, p))
  }

  // Counts, free list, isolation and TLB do not depend on the frames' words.
  lemma WrittenRest(vm: VM, w: VM)
    requires Isolated(vm) && Counted(vm) && Coherent(vm) && Tree(vm) && w == vm.(tab := w.tab)
    ensures Isolated(w) && Counted(w) && Coherent(w) && Tree(w)
  {
  }

  // A word stored in a page that users map changes no lookup.
  lemma WrittenWalks(vm: VM, f: nat, j: nat, p: Pte, e: nat, u: nat)
    requires Good(vm) && Data(vm, f) && f < |vm.tab| && j < |vm.tab[f]| && e in vm.dirs && u < NUSER
    ensures var w := Written(vm, f, j, p);
      Entry(w.tab, e, u / NPTE) == Entry(vm.tab, e, u / NPTE) && Walk(w.tab, e, u) == Walk(vm.tab, e, u)
  {
    hide Distinct, Counted, Coherent, Isolated, Tree;
    assert Dir(e) in vm.M && SiteOk(vm, Dir(e));
    if HasTable(vm, e, u) { TableFrame(vm, e, u); }
  }

  lemma MappedData(vm: VM, d: nat, v: nat)
    requires Good(vm) && User(d, v) in vm.M
    ensures var f := vm.M[User(d, v)].frame; f < |vm.tab| && |vm.tab[f]| == NPTE && Data(vm, f)
  {
    assert SiteOk(vm, User(d, v));
  }

  // Whatever word a user stores in a page it maps: no lookup of any env changes.
  lemma WrittenGood(vm: VM, d: nat, v: nat, j: nat, p: Pte)
    requires Good(vm) && User(d, v) in vm.M && j < NPTE
    ensures vm.M[User(d, v)].frame < |vm.tab| && |vm.tab[vm.M[User(d, v)].frame]| == NPTE
    ensures Good(Written(vm, vm.M[User(d, v)].frame, j, p))
    ensures forall e: nat, u: nat :: e in vm.dirs && u < NUSER ==>
              Walk(Written(vm, vm.M[User(d, v)].frame, j, p).tab, e, u) == Walk(vm.tab, e, u)
  {
    hide Counted, Coherent, Isolated, Tree, Walk, Entry, Data;
    MappedData(vm, d, v);
    var f := vm.M[User(d, v)].frame;
    var w := Written(vm, f, j, p);
    WrittenRest(vm, w);
    forall e: nat, u: nat | e in vm.dirs && u < NUSER
      ensures Entry(w.tab, e, u / NPTE) == Entry(vm.tab, e, u / NPTE) && Walk(w.tab, e, u) == Walk(vm.tab, e, u)
    {
      WrittenWalks(vm, f, j, p, e, u);
    }
    forall e, i | e in w.dirs && 0 <= i < NPDE ensures TableAt(w, e, i) {
      assert TableAt(vm, e, i) && i * NPTE / NPTE == i;
    }
    forall e, u | e in w.dirs && 0 <= u < NUSER ensures UserAt(w, e, u) { assert UserAt(vm, e, u); }
    forall s | s in w.M ensures SiteOk(w, s) { assert SiteOk(vm, s); }
  }

  // What the invariant means to a load or store: a translation that the TLB holds for a user page is
  // the one the page tables of the ASID's owner give now, and its frame is in use.
  lemma TlbIsCurrent(vm: VM, a: nat, v: nat)
    requires Good(vm) && v < NUSER && (a, v / 2) in vm.tlb
    requires var pair := vm.tlb[(a, v / 2)]; (if v % 2 == 0 then pair.0 else pair.1).valid
    ensures a in vm.owner
    ensures var pair := vm.tlb[(a, v / 2)];
      (if v % 2 == 0 then pair.0 else pair.1) == Half(Walk(vm.tab, vm.owner[a], v))
    ensures Walk(vm.tab, vm.owner[a], v).frame !in vm.free
  {
    var p := v / 2;
    assert HalfOk(vm, a, 2 * p, vm.tlb[(a, p)].0) && HalfOk(vm, a, 2 * p + 1, vm.tlb[(a, p)].1);
    var d := vm.owner[a];
    WalkFinds(vm, d, v);
    Referenced(vm, User(d, v));
  }

  // An ASID that is not in use has no valid translation left for any user page, so its next owner
  // starts with none.
  lemma FreeAsidIsSilent(vm: VM, a: nat, v: nat)
    requires Good(vm) && v < NUSER && a !in vm.owner && (a, v / 2) in vm.tlb
    ensures var pair := vm.tlb[(a, v / 2)]; !(if v % 2 == 0 then pair.0 else pair.1).valid
  {
    var p := v / 2;
    assert HalfOk(vm, a, 2 * p, vm.tlb[(a, p)].0) && HalfOk(vm, a, 2 * p + 1, vm.tlb[(a, p)].1);
  }

  // The references held from boot on.
  ghost function BootRefs(boot: nat): map<Site, Pte> {
    map s | s in (set f: nat | f < boot :: Boot(f)) :: Pte(true, if s.Boot? then s.f else 0, false, 0)
  }

  // The state page_init leaves: frames below `boot` taken for good, all others free.
  lemma InitGood(vm: VM, boot: nat)
    requires boot <= |vm.ref| == |vm.tab| && (forall f: nat :: f < |vm.tab| ==> vm.tab[f] == Zeros())
    requires forall f: nat :: f < |vm.ref| ==> vm.ref[f] == if f < boot then 1 else 0
    requires Distinct(vm.free) && (forall f: nat :: f in vm.free <==> boot <= f < |vm.ref|)
    requires vm.dirs == {} && vm.tlb == map[] && vm.owner == map[]
    requires vm.M == BootRefs(boot)
    ensures Good(vm)
  {
    forall f: nat | f < |vm.ref| ensures vm.ref[f] == |At(vm.M, f)| {
      assert At(vm.M, f) == if f < boot then {Boot(f)} else {};
    }
  }

  // A frame whose references are all in `gone` loses them all, and no other frame does.
  lemma CountGone(vm: VM, w: VM, gone: set<Site>, f: nat)
    requires Good(vm) && Good(w) && w.M == vm.M - gone && f < |vm.ref| == |w.ref|
    ensures vm.ref[f] > 0 <==> At(vm.M, f) != {}
    ensures w.ref[f] == 0 <==> At(vm.M, f) <= gone
  {
    assert At(w.M, f) == At(vm.M, f) - gone;
    if At(w.M, f) == {} {
      forall x | x in At(vm.M, f) ensures x in gone { assert x !in At(w.M, f); }
    }
    hide Good, Counted;
    assert At(w.M, f) != {} ==> |At(w.M, f)| > 0;
  }
}
