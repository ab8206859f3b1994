// Any run of the memory operations, from page_init on: what holds at its end.
module VmRuns {
  import opened Common
  import opened VmSpec
  import opened Pmap

  // The operations name an env by its ASID.
  datatype Op =
    | Create(above: seq<Pte>)                                   // env_alloc
    | Allocate(a: nat, v: nat, perm: Perm)                      // sys_mem_alloc
    | Share(a: nat, v: nat, b: nat, u: nat, perm: Perm)         // sys_mem_map
    | Remove(a: nat, v: nat)                                    // sys_mem_unmap
    | Refill(a: nat, v: nat)                                    // _do_tlb_refill
    | Write(a: nat, v: nat, j: nat, p: Pte)                     // a store by a user program
    | Free(a: nat)                                              // env_free

  // Every count is the number of references, and the free list is free of duplicates and of frames
  // that anything refers to.
  ghost predicate FramesRight(m: Memory)
    reads m
  {
    && (forall f {:trigger At(m.M, f)} :: 0 <= f < |m.ref| ==> m.ref[f] == |At(m.M, f)|)
    && Distinct(m.free)
    && (forall s :: s in m.M ==> m.M[s].frame !in m.free)
  }

  // No page that a user program can reach is a page table, a directory or a frame the kernel kept.
  ghost predicate PagesApart(m: Memory)
    reads m
  {
    forall d: nat, v: nat, s :: User(d, v) in m.M && s in m.M && m.M[s].frame == m.M[User(d, v)].frame ==> s.User?
  }

  function HalfAt(tlb: map<(nat, nat), (Lo, Lo)>, a: nat, v: nat): Lo {
    if (a, v / 2) !in tlb then Lo(false, 0, false)
    else if v % 2 == 0 then tlb[(a, v / 2)].0 else tlb[(a, v / 2)].1
  }

  // Every valid half of a TLB entry for a user page is the present page-table entry of the env that
  // owns the ASID, for a frame that is in use.
  ghost predicate TlbRight(m: Memory)
    reads m
  {
    forall a: nat, v: nat {:trigger HalfAt(m.tlb, a, v)} :: v < NUSER && HalfAt(m.tlb, a, v).valid ==>
      && a in m.owner && HalfAt(m.tlb, a, v) == Half(Walk(m.tab, m.owner[a], v))
      && Walk(m.tab, m.owner[a], v).frame !in m.free
  }

  lemma GoodIsRight(m: Memory)
    requires Good(m.Snap())
    ensures FramesRight(m) && TlbRight(m) && PagesApart(m)
  {
    forall s | s in m.M ensures m.M[s].frame !in m.free { Referenced(m.Snap(), s); }
    forall a: nat, v: nat | v < NUSER && HalfAt(m.tlb, a, v).valid
      ensures a in m.owner && HalfAt(m.tlb, a, v) == Half(Walk(m.tab, m.owner[a], v))
      ensures Walk(m.tab, m.owner[a], v).frame !in m.free
    {
      TlbIsCurrent(m.Snap(), a, v);
    }
  }

  lemma OwnersPair(m: Memory)
    requires Good(m.Snap())
    ensures forall a :: a in m.owner ==> m.Pair(m.owner[a], a)
  {}

  // The operation stores a page-table word that names another frame than the one it maps.
  ghost predicate Misnames(vm: VM, op: Op) {
    match op
    case Allocate(a, v, perm) =>
      && a in vm.owner && v < NUSER && |vm.free| >= (if HasTable(vm, vm.owner[a], v) then 1 else 2)
      && !Names(vm.free[0], perm)
    case Share(a, v, b, u, perm) =>
      && a in vm.owner && b in vm.owner && v < NUSER && u < NUSER && User(vm.owner[a], v) in vm.M
      && (HasTable(vm, vm.owner[b], u) || vm.free != [])
      && !Names(vm.M[User(vm.owner[a], v)].frame, perm)
    case _ => false
  }

  // No bit of perm outside the low twelve: then no word can misname its frame.
  predicate Plain(op: Op) { op.Allocate? || op.Share? ==> op.perm.high == 0 }

  lemma PlainNames(vm: VM, op: Op)
    requires Plain(op)
    ensures !Misnames(vm, op)
  {
  }

  lemma PlainUnless(vm: VM, op: Op)
    ensures Misnames(vm, op) ==> op.Allocate? || op.Share?
  {
  }

  // The two operations that store a page-table word. One on an env that is not there does nothing.
  method Insert(m: Memory, envs: map<nat, nat>, a: nat, v: nat, perm: Perm) returns (kept: bool)
    requires Good(m.Snap()) && envs == m.owner
    modifies m`free, m`tab, m`ref, m`M, m`tlb
    ensures kept <==> Good(m.Snap())
    ensures kept <==> !Misnames(old(m.Snap()), Allocate(a, v, perm))
  {
    OwnersPair(m);
    hide Good, Loose, Changed, HasTable, Names;
    kept := true;
    if a in envs && v < NUSER && m.free != [] {
      var f := m.free[0];
      var r := m.SysMemAlloc(envs[a], a, v, perm);
      kept := r != 0 || Names(f, perm);
    }
  }

  method Copy(m: Memory, envs: map<nat, nat>, a: nat, v: nat, b: nat, u: nat, perm: Perm) returns (kept: bool)
    requires Good(m.Snap()) && envs == m.owner
    modifies m`free, m`tab, m`ref, m`M, m`tlb
    ensures kept <==> Good(m.Snap())
    ensures kept <==> !Misnames(old(m.Snap()), Share(a, v, b, u, perm))
  {
    OwnersPair(m);
    hide Good, Walk, Changed, HasTable, Names;
    kept := true;
    if a in envs && b in envs && v < NUSER && u < NUSER {
      WalkFinds(m.Snap(), envs[a], v);
      var f := Walk(m.tab, envs[a], v).frame;
      var r := m.SysMemMap(envs[a], v, envs[b], b, u, perm);
      kept := r != 0 || Names(f, perm);
    }
  }

  // The operations on one env's pages.
  method Page(m: Memory, envs: map<nat, nat>, op: Op) returns (kept: bool)
    requires Good(m.Snap()) && envs == m.owner
    modifies m`free, m`tab, m`ref, m`M, m`tlb
    ensures kept <==> Good(m.Snap())
    ensures kept <==> !Misnames(old(m.Snap()), op)
  {
    OwnersPair(m);
    PlainUnless(m.Snap(), op);
    hide Good, Walk, Entry, Loose, Changed, Memory.Refuses, Reclaims, HasTable, Misnames;
    kept := true;
    match op {
      case Allocate(a, v, perm) => kept := Insert(m, envs, a, v, perm);
      case Share(a, v, b, u, perm) => kept := Copy(m, envs, a, v, b, u, perm);
      case Remove(a, v) =>
        if a in envs && v < NUSER {
          m.PageRemove(envs[a], a, v);
        }
      case Refill(a, v) =>
        if a in envs && v < NUSER {
          var _ := m.TlbRefill(envs[a], a, v);
        }
      case Write(a, v, j, p) =>
        if v < NUSER && j < NPTE {
          var _ := m.UserStore(a, v, j, p);
        }
      case _ =>
    }
  }

  // An address space comes or goes. envs: the directory of each ASID in use.
  method Space(m: Memory, envs: map<nat, nat>, op: Op) returns (after: map<nat, nat>)
    requires m.Valid() && envs == m.owner
    modifies m
    ensures m.Valid() && after == m.owner
  {
    OwnersPair(m);
    hide Good, HasTable, At, Memory.OfEnv, SiteOk, Distinct;
    after := envs;
    match op {
      case Create(above) =>
        if |above| == NPTE - NPDE {
          var r, d, a := m.EnvAlloc(above);
          if r == 0 {
            after := envs[a := d];
          }
        }
      case Free(a) =>
        if a in envs {
          m.EnvFree(envs[a], a);
          after := envs - {a};
        }
      case _ =>
    }
  }

  method Perform(m: Memory, envs: map<nat, nat>, op: Op) returns (after: map<nat, nat>, kept: bool)
    requires m.Valid() && envs == m.owner
    modifies m
    ensures kept <==> m.Valid()
    ensures kept <==> !Misnames(old(m.Snap()), op)
    ensures after == m.owner
  {
    hide Good, Misnames;
    PlainUnless(m.Snap(), op);
    if op.Create? || op.Free? {
      kept := true;
      after := Space(m, envs, op);
    } else {
      after := envs;
      kept := Page(m, envs, op);
    }
  }

  // From page_init on, whatever the envs do and in whatever order, up to the first word that misnames
  // its frame, if one does: that word, and nothing else, breaks the invariant.
  method Run(npage: nat, boot: nat, ops: seq<Op>) returns (m: Memory, kept: bool)
    requires boot <= npage
    ensures kept <==> m.Valid()
    ensures kept ==> FramesRight(m) && TlbRight(m) && PagesApart(m)
    ensures (forall i :: 0 <= i < |ops| ==> Plain(ops[i])) ==> kept
  {
    m := new Memory(npage, boot);
    var envs: map<nat, nat> := map[];
    hide Good, FramesRight, TlbRight, PagesApart, Misnames, Plain;
    kept := true;
    var i := 0;
    while i < |ops| && kept
      invariant 0 <= i <= |ops| && fresh(m)
      invariant (kept <==> m.Valid()) && (kept ==> envs == m.owner)
      invariant (forall k :: 0 <= k < i ==> Plain(ops[k])) ==> kept
    {
      if Plain(ops[i]) { PlainNames(m.Snap(), ops[i]); }
      envs, kept := Perform(m, envs, ops[i]);
      i := i + 1;
    }
    if kept { GoodIsRight(m); }
  }
}
