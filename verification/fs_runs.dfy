// Runs of the file server's block operations, and exactly when file_map_block does what it says.
module FsRuns {
  import opened Common
  import opened FsSpec

  // file_map_block did what it says: block k of f is block v, which was free, and the file's other
  // entries are absent as before.
  ghost predicate Served(s: FS, t: FS, f: nat, k: nat, b: nat, v: nat) {
    && v != b && v in s.free && t.free == s.free - {b, v}
    && forall j :: j != k ==> Val(t, Entry(f, j)) == 0
  }

  lemma FirstFreeExists(s: FS, f: nat, k: nat)
    requires Good(s) && f < |s.files| && NeedsIndirect(s, f, k) && MapBlock(s, f, k, true).1.Ok?
    ensures FirstFree(s, 3).Some? && Walk(s, f, k, true).1.Ok?
  {}

  lemma CleanIndirect(s: FS, f: nat, k: nat)
    requires Good(s) && f < |s.files| && NeedsIndirect(s, f, k) && MapBlock(s, f, k, true).1.Ok?
    requires FirstFree(s, 3).Some? && Clean(s, FirstFree(s, 3).value)
    ensures Val(MapBlock(s, f, k, true).0, Indirect(f)) == FirstFree(s, 3).value
  {
    hide Apart, Refs;
    AllocBlockKeeps(s);
    WalkAllocates(s, f, k);
    var s1 := Walk(s, f, k, true).0;
    if Val(s1, SlotOf(f, k)) == 0 { FillSlot(s1, f, k); }
  }

  // Another stale word is still there after the slot is filled.
  lemma StaleStays(s: FS, f: nat, k: nat, j: nat, b: nat)
    requires f < |s.files| && NDIRECT <= k < NINDIRECT && NDIRECT <= j < NINDIRECT && j != k
    requires s.files[f].indirect == b && b != 0 && b !in s.free && b in s.cache && |s.cache[b]| == NINDIRECT
    requires AllocBlock(s).1.Ok? && Val(s, Entry(f, j)) != 0
    ensures Val(Put(AllocBlock(s).0, f, k, AllocBlock(s).1.v), Entry(f, j)) != 0
  {
    FirstFreeIs(s, 3);
    var (t, r) := AllocBlock(s);
    assert r.v != b && t.cache[b] == s.cache[b];
  }

  lemma MapStale(s: FS, f: nat, k: nat)
    requires Good(s) && f < |s.files| && NeedsIndirect(s, f, k) && MapBlock(s, f, k, true).1.Ok?
    requires FirstFree(s, 3).Some? && !Clean(s, FirstFree(s, 3).value)
    ensures var (t, r), b := MapBlock(s, f, k, true), FirstFree(s, 3).value; !Served(s, t, f, k, b, r.v)
  {
    AllocBlockKeeps(s);
    WalkAllocates(s, f, k);
    hide Good;
    var s1, b := Walk(s, f, k, true).0, FirstFree(s, 3).value;
    if Val(s1, Entry(f, k)) == 0 {
      var j :| NDIRECT <= j < NINDIRECT && Val(s1, Entry(f, j)) != 0;
      StaleStays(s1, f, k, j, b);
    }
  }

  // With a new indirect block it does so if and only if that block was clean.
  lemma MapExact(s: FS, f: nat, k: nat)
    requires Good(s) && f < |s.files| && NeedsIndirect(s, f, k) && MapBlock(s, f, k, true).1.Ok?
    ensures FirstFree(s, 3).Some?
    ensures var (t, r), b := MapBlock(s, f, k, true), FirstFree(s, 3).value; Served(s, t, f, k, b, r.v) <==> Clean(s, b)
  {
    hide Sized, Refs, MapBlock, Clean;
    FirstFreeExists(s, f, k);
    if Clean(s, FirstFree(s, 3).value) {
      hide Walk;
      MapKeeps(s, f, k, true);
      var (t, r) := MapBlock(s, f, k, true);
      var b := FirstFree(s, 3).value;
      assert Val(s, SlotOf(f, k)) == 0 && Val(t, SlotOf(f, k)) == r.v;
      assert forall j :: j != k ==> Val(s, Entry(f, j)) == 0;
      assert Val(t, Indirect(f)) == b by { CleanIndirect(s, f, k); }
    } else {
      MapStale(s, f, k);
    }
  }

  // How it goes wrong: a data block whose cached words a client wrote is given back, becomes the
  // next indirect block, and its word number k is taken for the file's block k.
  lemma StaleAfterClear(s: FS, g: nat, i: nat, f: nat, k: nat)
    requires Good(s) && g < |s.files| && f < |s.files| && i < NDIRECT && NeedsIndirect(s, f, k)
    requires var b := Val(s, Direct(g, i));
             b != 0 && b in s.cache && s.cache[b][k] != 0 && forall c :: c in s.free ==> b < c
    ensures var s1 := ClearBlock(s, g, i).0;
      var b := Val(s, Direct(g, i));
      && Good(s1) && f < |s1.files|
      && var (t, r) := MapBlock(s1, f, k, true);
      && r == Ok(s.cache[b][k]) && t.free == s.free
      && (s.cache[b][k] in s.free ==> !Good(t))
  {
    var b := Val(s, Direct(g, i));
    ClearKeeps(s, g, i);
    var s1 := ClearBlock(s, g, i).0;
    assert s1.cache == s.cache && s1.free == s.free + {b} && Val(s1, Indirect(f)) == Val(s, Indirect(f));
    FirstFreeIs(s1, 3);
    assert 3 <= b && InUse(s, b);
    assert FirstFree(s1, 3) == Some(b);
    var (t, r) := MapBlock(s1, f, k, true);
    assert Val(t, Entry(f, k)) == s.cache[b][k];
  }

  datatype Op =
    | Map(f: nat, k: nat, alloc: bool)
    | Clear(f: nat, k: nat)
    | Shrink(f: nat, size: nat)
    | Grow(f: nat, size: nat)                 // file_set_size upwards
    | Store(f: nat, k: nat, words: Block)     // a client writes to the mapped block k of file f

  function Apply(s: FS, op: Op): (FS, Ret)
    requires op.f < |s.files|
  {
    match op
    case Map(f, k, alloc) => MapBlock(s, f, k, alloc)
    case Clear(f, k) => ClearBlock(s, f, k)
    case Shrink(f, size) => Truncate(s, f, size)
    case Grow(f, size) => (s.(files := s.files[f := s.files[f].(size := size)]), Ok(0))
    case Store(f, k, words) =>
      var b := Val(s, SlotOf(f, k));
      if b != 0 && b in s.cache && |words| == NINDIRECT then (s.(cache := s.cache[b := words]), Ok(0)) else (s, Ok(0))
  }

  // A file's data is not anybody's indirect block.
  lemma StoreKeeps(s: FS, f: nat, k: nat, words: Block)
    requires Good(s) && f < |s.files|
    ensures Good(Apply(s, Store(f, k, words)).0)
  {
    var t, b := Apply(s, Store(f, k, words)).0, Val(s, SlotOf(f, k));
    forall q ensures Val(t, q) == Val(s, q) {
      if q.Entry? && b != 0 { assert Val(s, Indirect(q.f)) != b; }
    }
  }

  lemma ApplyKeeps(s: FS, op: Op)
    requires Good(s) && op.f < |s.files| && (op.Map? ==> Tidy(s, op.f, op.k, op.alloc))
    ensures var (t, r) := Apply(s, op); Good(t) && |t.files| == |s.files| && t.nblocks == s.nblocks
    ensures Apply(s, op).1.Panic? ==> op.Shrink?
  {
    match op
    case Map(f, k, alloc) => MapKeeps(s, f, k, alloc);
    case Clear(f, k) => ClearKeeps(s, f, k);
    case Shrink(f, size) => TruncateKeeps(s, f, size);
    case Grow(f, size) => ResizeKeeps(s, f, size);
    case Store(f, k, words) => StoreKeeps(s, f, k, words);
  }

  ghost predicate IsRun(s: FS, ops: seq<Op>)
    decreases |ops|
  {
    ops != [] ==>
      && ops[0].f < |s.files| && (ops[0].Map? ==> Tidy(s, ops[0].f, ops[0].k, ops[0].alloc))
      && !Apply(s, ops[0]).1.Panic?
      && IsRun(Apply(s, ops[0]).0, ops[1..])
  }

  ghost function Final(s: FS, ops: seq<Op>): FS
    requires IsRun(s, ops)
    decreases |ops|
  {
    if ops == [] then s else Final(Apply(s, ops[0]).0, ops[1..])
  }

  lemma ReadsSafely(s: FS)
    requires Good(s)
    ensures forall q :: Val(s, q) != 0 ==> !ReadBlock(s, Val(s, q)).1.Panic?
  {}

  // Over any run on any files: no block is in two slots, every block in a slot is within the disk
  // and marked used, so reading it cannot panic.
  lemma {:induction false} RunsStayGood(s: FS, ops: seq<Op>)
    requires Good(s) && IsRun(s, ops)
    ensures Good(Final(s, ops))
    ensures forall q :: Val(Final(s, ops), q) != 0 ==> !ReadBlock(Final(s, ops), Val(Final(s, ops), q)).1.Panic?
    decreases |ops|
  {
    hide Good, Apply;
    if ops == [] {
      ReadsSafely(s);
    } else {
      ApplyKeeps(s, ops[0]);
      RunsStayGood(Apply(s, ops[0]).0, ops[1..]);
    }
  }

  lemma ShrinkPanics(t: FS, f: nat, newsize: nat)
    requires Good(t) && f < |t.files| && Val(t, Indirect(f)) == 0
    requires Blocks(t.files[f].size) > NDIRECT && Blocks(newsize) < Blocks(t.files[f].size)
    ensures Truncate(t, f, newsize).1.Panic?
  {
    hide Good, Truncate, Blocks;
    TruncateKeeps(t, f, newsize);
  }

  // How truncation comes to panic: a file without an indirect block is made larger than its direct
  // slots reach, which maps nothing, and then smaller again.
  lemma GrowThenShrink(s: FS, f: nat, size: nat, newsize: nat)
    requires Good(s) && f < |s.files| && Val(s, Indirect(f)) == 0
    requires Blocks(size) > NDIRECT && Blocks(newsize) < Blocks(size)
    ensures Blocks(11 * BLOCK_SIZE) == 11 && Blocks(0) == 0
    ensures var (t, r) := Apply(s, Grow(f, size));
      r.Ok? && Good(t) && f < |t.files| && Apply(t, Shrink(f, newsize)).1.Panic?
  {
    assert Blocks(11 * BLOCK_SIZE) == 11 && Blocks(0) == 0;
    hide Good, Truncate, Blocks;
    ResizeKeeps(s, f, size);
    ShrinkPanics(Apply(s, Grow(f, size)).0, f, newsize);
  }

  // Mapping a block leaves the size alone.
  lemma MapSize(s: FS, f: nat, k: nat)
    requires Good(s) && f < |s.files| && Tidy(s, f, k, true)
    ensures var t := MapBlock(s, f, k, true).0; f < |t.files| && t.files[f].size == s.files[f].size
  {
    hide Refs, Apart;
    WalkKeeps(s, f, k, true);
    var s1 := Walk(s, f, k, true).0;
    assert s1.files[f].size == s.files[f].size;
    AllocBlockKeeps(s1);
  }

  // Truncating a file of at most ten blocks drops whatever its indirect block lists.
  lemma ShrinkLoses(t: FS, f: nat, k: nat, newsize: nat)
    requires Good(t) && f < |t.files| && Val(t, Entry(f, k)) != 0
    requires Blocks(t.files[f].size) <= NDIRECT <= k && Blocks(newsize) <= NDIRECT
    ensures var (u, r) := Truncate(t, f, newsize);
      r.Ok? && Good(u) && Val(t, Entry(f, k)) !in u.free && forall p :: Val(u, p) != Val(t, Entry(f, k))
  {
    hide Good, Truncate, Blocks;
    TruncateKeeps(t, f, newsize);
    TruncateLoses(t, f, newsize, Entry(f, k));
  }

  // How truncation comes to lose a block: block k of a file of at most ten blocks is mapped without
  // the size being raised, and the file is truncated. The block is then neither free nor in a slot.
  lemma MapThenShrink(s: FS, f: nat, k: nat, newsize: nat)
    requires Good(s) && f < |s.files| && NDIRECT <= k && Tidy(s, f, k, true)
    requires Blocks(s.files[f].size) <= NDIRECT && Blocks(newsize) <= NDIRECT
    requires Apply(s, Map(f, k, true)).1.Ok?
    ensures var (t, r) := Apply(s, Map(f, k, true));
      && Good(t) && f < |t.files|
      && var (u, r1) := Apply(t, Shrink(f, newsize));
      r1.Ok? && Good(u) && r.v !in u.free && forall p :: Val(u, p) != r.v
  {
    hide Good, Walk, MapBlock, Tidy, Val, Truncate, Blocks;
    MapSize(s, f, k);
    var (t, r) := MapBlock(s, f, k, true);
    assert Good(t) && f < |t.files| && r.v != 0 && r.v == Val(t, Entry(f, k)) by { MapKeeps(s, f, k, true); }
    ShrinkLoses(t, f, k, newsize);
  }
}
