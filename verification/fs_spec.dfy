// The file server's block map (fs/fs.c) as functions on its state: the free blocks, the File
// structures with their direct and indirect slots, and the block cache.
module FsSpec {
  import opened Common

  const NDIRECT: nat := 10
  const NINDIRECT: nat := 1024
  const BLOCK_SIZE: nat := 4096

  // A disk block as 32-bit words, which is how the server reads an indirect block.
  type Block = seq<nat>

  datatype Inode = Inode(size: nat, direct: seq<nat>, indirect: nat)

  // Where a block number can be kept.
  datatype Slot = Direct(f: nat, k: nat) | Indirect(f: nat) | Entry(f: nat, k: nat)

  // pages: how many pages the server can still get for its cache.
  datatype FS = FS(nblocks: nat, free: set<nat>, files: seq<Inode>, cache: map<nat, Block>,
                   disk: map<nat, Block>, pages: nat)

  datatype Ret = Ok(v: nat) | Err(e: int) | Panic

  function Zeros(): Block { seq(NINDIRECT, i => 0) }

  function Content(s: FS, b: nat): Block {
    if b in s.cache then s.cache[b] else if b in s.disk then s.disk[b] else Zeros()
  }

  function Word(s: FS, b: nat, k: nat): nat { if k < |Content(s, b)| then Content(s, b)[k] else 0 }

  function Val(s: FS, r: Slot): nat {
    match r
    case Direct(f, k) => if f < |s.files| && k < |s.files[f].direct| then s.files[f].direct[k] else 0
    case Indirect(f) => if f < |s.files| then s.files[f].indirect else 0
    case Entry(f, k) =>
      if f < |s.files| && NDIRECT <= k < NINDIRECT && s.files[f].indirect != 0
      then Word(s, s.files[f].indirect, k) else 0
  }

  // The slot of block k of file f.
  function SlotOf(f: nat, k: nat): Slot { if k < NDIRECT then Direct(f, k) else Entry(f, k) }

  ghost predicate Sized(s: FS) {
    && (forall f :: 0 <= f < |s.files| ==> |s.files[f].direct| == NDIRECT)
    && (forall b :: b in s.cache ==> |s.cache[b]| == NINDIRECT)
    && (forall b :: b in s.disk ==> |s.disk[b]| == NINDIRECT)
    && (forall b :: b in s.free ==> 3 <= b < s.nblocks)
  }

  // Block b may be read: read_block's two panics do not strike.
  predicate InUse(s: FS, b: nat) { b < s.nblocks && b !in s.free }

  ghost predicate Refs(s: FS) {
    forall r {:trigger Val(s, r)} :: Val(s, r) != 0 ==> 3 <= Val(s, r) && InUse(s, Val(s, r))
  }

  ghost predicate Apart(s: FS) {
    forall q, r {:trigger Val(s, q), Val(s, r)} :: q != r && Val(s, q) != 0 ==> Val(s, q) != Val(s, r)
  }

  ghost predicate Good(s: FS) { Sized(s) && Refs(s) && Apart(s) }

  function FirstFree(s: FS, b: nat): Option<nat>
    decreases s.nblocks - b
  {
    if b >= s.nblocks then None else if b in s.free then Some(b) else FirstFree(s, b + 1)
  }

  function FreeBlock(s: FS, b: nat): FS {
    if b == 0 || b >= s.nblocks then s else s.(free := s.free + {b})
  }

  function AllocBlock(s: FS): (FS, Ret) {
    match FirstFree(s, 3)
    case None => (s, Err(E_NO_DISK))
    case Some(b) =>
      if b in s.cache then (s.(free := s.free - {b}), Ok(b))
      else if s.pages == 0 then (s, Err(E_NO_MEM))
      else (s.(free := s.free - {b}, cache := s.cache[b := Zeros()], pages := s.pages - 1), Ok(b))
  }

  function ReadBlock(s: FS, b: nat): (FS, Ret) {
    if !InUse(s, b) then (s, Panic)
    else if b in s.cache then (s, Ok(b))
    else if s.pages == 0 then (s, Err(E_NO_MEM))
    else (s.(cache := s.cache[b := Content(s, b)], pages := s.pages - 1), Ok(b))
  }

  function SetIndirect(s: FS, f: nat, b: nat): FS
    requires f < |s.files|
  {
    s.(files := s.files[f := s.files[f].(indirect := b)])
  }

  // *ppdiskbno = v, where file_block_walk has found the slot of block k.
  function Put(s: FS, f: nat, k: nat, v: nat): FS
    requires f < |s.files|
  {
    var ino := s.files[f];
    if k < NDIRECT then
      (if k < |ino.direct| then s.(files := s.files[f := ino.(direct := ino.direct[k := v])]) else s)
    else if k < |Content(s, ino.indirect)| then
      s.(cache := s.cache[ino.indirect := Content(s, ino.indirect)[k := v]])
    else s
  }

  function Walk(s: FS, f: nat, k: nat, alloc: bool): (FS, Ret)
    requires f < |s.files|
  {
    if k < NDIRECT then (s, Ok(0))
    else if k >= NINDIRECT then (s, Err(E_INVAL))
    else if s.files[f].indirect == 0 then
      if !alloc then (s, Err(E_NOT_FOUND))
      else
        var (s1, r) := AllocBlock(s);
        if r.Ok? then ReadBlock(SetIndirect(s1, f, r.v), r.v) else (s1, r)
    else ReadBlock(s, s.files[f].indirect)
  }

  function MapBlock(s: FS, f: nat, k: nat, alloc: bool): (FS, Ret)
    requires f < |s.files|
  {
    var (s1, r) := Walk(s, f, k, alloc);
    if !r.Ok? then (s1, r)
    else
      var v := Val(s1, SlotOf(f, k));
      if v != 0 then (s1, Ok(v))
      else if !alloc then (s1, Err(E_NOT_FOUND))
      else
        var (s2, r2) := AllocBlock(s1);
        if r2.Ok? && f < |s2.files| then (Put(s2, f, k, r2.v), r2) else (s2, r2)
  }

  function ClearBlock(s: FS, f: nat, k: nat): (FS, Ret)
    requires f < |s.files|
  {
    var (s1, r) := Walk(s, f, k, false);
    if !r.Ok? then (s1, r)
    else
      var v := Val(s1, SlotOf(f, k));
      if v != 0 && f < |s1.files| then (Put(FreeBlock(s1, v), f, k, 0), Ok(0)) else (s1, Ok(0))
  }

  // Reading a block into the cache changes no slot.
  lemma ReadBlockKeeps(s: FS, b: nat)
    requires Good(s)
    ensures var (t, r) := ReadBlock(s, b);
      && Good(t) && t.free == s.free && t.files == s.files && t.nblocks == s.nblocks
      && (forall q :: Val(t, q) == Val(s, q))
      && (r.Panic? <==> !InUse(s, b))
      && (r.Ok? ==> r.v == b && b in t.cache)
  {
    var (t, r) := ReadBlock(s, b);
    forall q ensures Val(t, q) == Val(s, q) {}
  }

  lemma FirstFreeIs(s: FS, b: nat)
    ensures var o := FirstFree(s, b);
      && (o.Some? ==> b <= o.value < s.nblocks && o.value in s.free && forall c :: b <= c < o.value ==> c !in s.free)
      && (o.None? ==> forall c :: b <= c < s.nblocks ==> c !in s.free)
    decreases s.nblocks - b
  {}

  // alloc_block takes the lowest free block, which no slot refers to, and changes no slot.
  lemma AllocBlockKeeps(s: FS)
    requires Good(s)
    ensures var (t, r) := AllocBlock(s);
      && Good(t) && t.files == s.files && t.nblocks == s.nblocks
      && (forall q :: Val(t, q) == Val(s, q))
      && !r.Panic?
      && (r.Ok? ==>
        && r.v in s.free && t.free == s.free - {r.v} && r.v in t.cache
        && (forall q :: Val(s, q) != r.v)
        && Content(t, r.v) == (if r.v in s.cache then s.cache[r.v] else Zeros()))
      && (!r.Ok? ==> t == s && r == Err(if s.free == {} then E_NO_DISK else E_NO_MEM))
  {
    FirstFreeIs(s, 3);
    var (t, r) := AllocBlock(s);
    if r.Ok? {
      forall q ensures Val(s, q) != r.v && Val(t, q) == Val(s, q) {
        if q.Entry? { assert Val(s, Indirect(q.f)) != r.v; }
      }
    }
    if r == Err(E_NO_DISK) { assert s.free == {}; }
    if r == Err(E_NO_MEM) { assert s.free != {}; }
  }

  // Slots of t as in s, but slot r holds v.
  ghost predicate Only(s: FS, t: FS, r: Slot, v: nat) {
    && |t.files| == |s.files| && t.nblocks == s.nblocks
    && forall q {:trigger Val(t, q)} :: Val(t, q) == if q == r then v else Val(s, q)
  }

  lemma PutSets(s: FS, f: nat, k: nat, v: nat)
    requires Good(s) && f < |s.files|
    requires k < NDIRECT || (k < NINDIRECT && s.files[f].indirect != 0)
    ensures var t := Put(s, f, k, v); Sized(t) && t.free == s.free && Only(s, t, SlotOf(f, k), v)
  {
    var t := Put(s, f, k, v);
    forall q ensures Val(t, q) == if q == SlotOf(f, k) then v else Val(s, q) {
      if q.Entry? && q.f != f && Val(s, Indirect(f)) != 0 {
        assert Val(s, Indirect(q.f)) != Val(s, Indirect(f));
      }
    }
  }

  // A slot that was empty gets a block of its own.
  lemma AttachGood(s: FS, t: FS, r: Slot, b: nat)
    requires Good(s) && Sized(t) && t.free == s.free && Only(s, t, r, b)
    requires 3 <= b && InUse(s, b) && forall q :: Val(s, q) != b
    ensures Good(t)
  {}

  // A slot gives up its block, which may be free from then on.
  lemma DetachGood(s: FS, t: FS, r: Slot)
    requires Good(s) && Sized(t) && t.free <= s.free + {Val(s, r)} && Only(s, t, r, 0)
    ensures Good(t)
  {}

  // Whether file_block_walk is about to make an indirect block.
  predicate NeedsIndirect(s: FS, f: nat, k: nat)
    requires f < |s.files|
  {
    NDIRECT <= k < NINDIRECT && s.files[f].indirect == 0
  }

  // A block that would read as an indirect block without entries: it is not in the cache, or its
  // cached words are zero. map_block zeroes only what it maps.
  predicate Clean(s: FS, b: nat) {
    b in s.cache ==> forall k :: NDIRECT <= k < NINDIRECT && k < |s.cache[b]| ==> s.cache[b][k] == 0
  }

  // file_block_walk without a new indirect block: it finds the slot and changes none.
  lemma WalkFinds(s: FS, f: nat, k: nat, alloc: bool)
    requires Good(s) && f < |s.files| && !(alloc && NeedsIndirect(s, f, k))
    ensures var (t, r) := Walk(s, f, k, alloc);
      && Good(t) && !r.Panic? && t.free == s.free && t.files == s.files && t.nblocks == s.nblocks
      && (forall q :: Val(t, q) == Val(s, q))
      && (r == Err(E_INVAL) <==> k >= NINDIRECT)
      && (r == Err(E_NOT_FOUND) <==> NeedsIndirect(s, f, k))
      && (r.Ok? && k >= NDIRECT ==> s.files[f].indirect in t.cache)
  {
    if NDIRECT <= k < NINDIRECT && s.files[f].indirect != 0 {
      assert Val(s, Indirect(f)) == s.files[f].indirect;
      ReadBlockKeeps(s, s.files[f].indirect);
    }
  }

  // A new indirect block b brings the entries its cached words are.
  lemma EntriesOf(s: FS, s1: FS, t: FS, f: nat, b: nat)
    requires Sized(s) && Sized(s1) && f < |s1.files| && b != 0 && t == SetIndirect(s1, f, b) && b in s1.cache
    requires Content(s1, b) == (if b in s.cache then s.cache[b] else Zeros())
    requires s1.files[f].indirect == 0
    ensures (forall j :: Val(t, Entry(f, j)) == 0) <==> Clean(s, b)
    ensures Clean(s, b) ==> Only(s1, t, Indirect(f), b)
  {
    assert Content(t, b) == Content(s1, b);
    if forall j :: Val(t, Entry(f, j)) == 0 {
      forall j | NDIRECT <= j < NINDIRECT && b in s.cache && j < |s.cache[b]| ensures s.cache[b][j] == 0 {
        assert Val(t, Entry(f, j)) == 0;
      }
    }
  }

  // file_block_walk with a new indirect block b. It never panics. The file's other entries are as
  // absent as they were if and only if b was clean.
  lemma WalkAllocates(s: FS, f: nat, k: nat)
    requires Good(s) && f < |s.files| && NeedsIndirect(s, f, k)
    ensures var (t, r) := Walk(s, f, k, true);
      && !r.Panic? && t.nblocks == s.nblocks && |t.files| == |s.files| && Sized(t)
      && (!r.Ok? ==> t == s)
      && (r.Ok? ==>
        var b := t.files[f].indirect;
        && b in s.free && t.free == s.free - {b} && b in t.cache && NDIRECT <= k
        && t.files == s.files[f := s.files[f].(indirect := b)]
        && ((forall j :: Val(t, Entry(f, j)) == 0) <==> Clean(s, b))
        && (Clean(s, b) ==> Good(t) && Only(s, t, Indirect(f), b)))
  {
    AllocBlockKeeps(s);
    var (s1, r1) := AllocBlock(s);
    if r1.Ok? {
      var b := r1.v;
      var t := SetIndirect(s1, f, b);
      assert Walk(s, f, k, true) == (t, Ok(b));
      EntriesOf(s, s1, t, f, b);
      if Clean(s, b) { AttachGood(s1, t, Indirect(f), b); }
    }
  }

  // When file_map_block does what it says: the indirect block it makes, if it makes one, is clean.
  predicate Tidy(s: FS, f: nat, k: nat, alloc: bool)
    requires f < |s.files|
  {
    alloc && NeedsIndirect(s, f, k) && FirstFree(s, 3).Some? ==> Clean(s, FirstFree(s, 3).value)
  }

  // file_block_walk either way.
  lemma WalkKeeps(s: FS, f: nat, k: nat, alloc: bool)
    requires Good(s) && f < |s.files| && Tidy(s, f, k, alloc)
    ensures var (t, r) := Walk(s, f, k, alloc);
      var made := r.Ok? && NeedsIndirect(s, f, k);
      && Good(t) && !r.Panic? && |t.files| == |s.files| && t.nblocks == s.nblocks && (made ==> alloc)
      && (forall q :: q != Indirect(f) ==> Val(t, q) == Val(s, q))
      && (!made ==> t.free == s.free && Val(t, Indirect(f)) == Val(s, Indirect(f)))
      && (made ==> Val(t, Indirect(f)) in s.free && t.free == s.free - {Val(t, Indirect(f))})
      && (r.Ok? ==> k < NDIRECT || (k < NINDIRECT && Val(t, Indirect(f)) != 0))
      && (r == Err(E_INVAL) <==> k >= NINDIRECT)
      && (r == Err(E_NOT_FOUND) <==> !alloc && NeedsIndirect(s, f, k))
      && (r == Err(E_NO_DISK) ==> alloc && s.free == {})
  {
    hide Refs, Apart;
    if alloc && NeedsIndirect(s, f, k) {
      AllocBlockKeeps(s);
      WalkAllocates(s, f, k);
    } else {
      WalkFinds(s, f, k, alloc);
    }
  }

  // The second half of file_map_block, from a state in which the slot has been found.
  lemma FillSlot(s: FS, f: nat, k: nat)
    requires Good(s) && f < |s.files| && Val(s, SlotOf(f, k)) == 0
    requires k < NDIRECT || (k < NINDIRECT && s.files[f].indirect != 0)
    ensures var (t, r) := AllocBlock(s);
      && t.files == s.files && !r.Panic?
      && (!r.Ok? ==> t == s && r == Err(if s.free == {} then E_NO_DISK else E_NO_MEM))
      && (r.Ok? ==>
        var t1 := Put(t, f, k, r.v);
        r.v in s.free && 3 <= r.v && Good(t1) && t1.free == s.free - {r.v} && Only(s, t1, SlotOf(f, k), r.v))
  {
    AllocBlockKeeps(s);
    var (t, r) := AllocBlock(s);
    if r.Ok? {
      PutSets(t, f, k, r.v);
      AttachGood(t, Put(t, f, k, r.v), SlotOf(f, k), r.v);
    }
  }

  // file_map_block: it finds the slot's block, or takes the free block it says it takes, and
  // leaves every other slot of every file alone.
  lemma MapKeeps(s: FS, f: nat, k: nat, alloc: bool)
    requires Good(s) && f < |s.files| && Tidy(s, f, k, alloc)
    ensures var (t, r), slot := MapBlock(s, f, k, alloc), SlotOf(f, k);
      && Good(t) && !r.Panic? && |t.files| == |s.files| && t.nblocks == s.nblocks
      && (forall q :: q != slot && q != Indirect(f) ==> Val(t, q) == Val(s, q))
      && (Val(s, Indirect(f)) != 0 || !alloc || k < NDIRECT ==> Val(t, Indirect(f)) == Val(s, Indirect(f)))
      && (r == Err(E_INVAL) <==> k >= NINDIRECT)
      && (r == Err(E_NOT_FOUND) ==> !alloc && Val(s, slot) == 0)
      && (!r.Ok? ==> Val(t, slot) == Val(s, slot))
      && (r.Ok? ==> r.v != 0 && r.v == Val(t, slot))
      && (r.Ok? && Val(s, slot) != 0 ==> r.v == Val(s, slot) && t.free == s.free)
      && (r.Ok? && Val(s, slot) == 0 ==>
        && alloc && r.v in s.free
        && t.free == s.free - {r.v} - (if NeedsIndirect(s, f, k) then {Val(t, Indirect(f))} else {}))
      && (!alloc ==> t.free == s.free)
      && (r == Err(E_NO_DISK) ==> alloc && t.free == {})
  {
    hide Good, Walk, AllocBlock, Put;
    var (s1, r) := Walk(s, f, k, alloc);
    WalkKeeps(s, f, k, alloc);
    if r.Ok? && Val(s1, SlotOf(f, k)) == 0 && alloc {
      FillSlot(s1, f, k);
    }
  }

  lemma ClearPut(s: FS, f: nat, k: nat)
    requires Good(s) && f < |s.files| && Val(s, SlotOf(f, k)) != 0
    ensures var v := Val(s, SlotOf(f, k));
      var t := Put(FreeBlock(s, v), f, k, 0);
      Good(t) && t.free == s.free + {v} && Only(s, t, SlotOf(f, k), 0)
  {
    hide Apart;
    var v := Val(s, SlotOf(f, k));
    assert 3 <= v && InUse(s, v);
    PutSets(s, f, k, 0);
    var t := Put(FreeBlock(s, v), f, k, 0);
    assert t == Put(s, f, k, 0).(free := s.free + {v});
    forall q ensures Val(t, q) == Val(Put(s, f, k, 0), q) {}
    DetachGood(s, t, SlotOf(f, k));
  }

  // file_clear_block gives the slot's block back, once.
  lemma ClearKeeps(s: FS, f: nat, k: nat)
    requires Good(s) && f < |s.files|
    ensures var (t, r), slot := ClearBlock(s, f, k), SlotOf(f, k);
      && Good(t) && !r.Panic? && t.nblocks == s.nblocks && |t.files| == |s.files|
      && (r == Err(E_INVAL) <==> k >= NINDIRECT)
      && (r == Err(E_NOT_FOUND) <==> NeedsIndirect(s, f, k))
      && (!r.Ok? ==> t == s)
      && (r.Ok? ==>
        && Only(s, t, slot, 0)
        && t.free == s.free + (if Val(s, slot) == 0 then {} else {Val(s, slot)})
        && |t.free| == |s.free| + (if Val(s, slot) == 0 then 0 else 1)
        && Val(t, Indirect(f)) == Val(s, Indirect(f)))
  {
    WalkFinds(s, f, k, false);
    var (s1, r) := Walk(s, f, k, false);
    var v := Val(s1, SlotOf(f, k));
    if r.Ok? && v != 0 {
      var s2 := FreeBlock(s1, v);
      assert InUse(s, v) && s2.free == s.free + {v};
      ClearPut(s1, f, k);
    }
  }

  // ROUND(size, BLOCK_SIZE) / BLOCK_SIZE in u_int arithmetic.
  function Blocks(size: nat): nat { (size + BLOCK_SIZE - 1) % U32 / BLOCK_SIZE }

  // The blocks that size bytes reach into, unless rounding up passes 2^32: then there are none.
  lemma BlocksCover(size: nat)
    requires size < U32
    ensures size <= U32 - BLOCK_SIZE ==>
              size <= Blocks(size) * BLOCK_SIZE && (Blocks(size) > 0 ==> (Blocks(size) - 1) * BLOCK_SIZE < size)
    ensures size > U32 - BLOCK_SIZE ==> Blocks(size) == 0
  {
    var up := size + BLOCK_SIZE - 1;
    if size <= U32 - BLOCK_SIZE { assert up == Blocks(size) * BLOCK_SIZE + up % BLOCK_SIZE; }
  }

  // The loop of file_truncate; panic_on ends it.
  function ClearFrom(s: FS, f: nat, k: nat, n: nat): (FS, Ret)
    requires f < |s.files|
    decreases n - k
  {
    if k >= n then (s, Ok(0))
    else
      var (t, r) := ClearBlock(s, f, k);
      if r.Ok? && f < |t.files| then ClearFrom(t, f, k + 1, n) else (t, Panic)
  }

  function DropIndirect(s: FS, f: nat): FS
    requires f < |s.files|
  {
    if s.files[f].indirect == 0 then s else SetIndirect(FreeBlock(s, s.files[f].indirect), f, 0)
  }

  function Truncate(s: FS, f: nat, newsize: nat): (FS, Ret)
    requires f < |s.files|
  {
    var n := Blocks(newsize);
    var (t, r) := ClearFrom(s, f, n, Blocks(s.files[f].size));
    if !r.Ok? || f >= |t.files| then (t, r)
    else
      var t1 := if n <= NDIRECT then DropIndirect(t, f) else t;
      (t1.(files := t1.files[f := t1.files[f].(size := newsize)]), Ok(0))
  }

  // How many of the slots of blocks k to n - 1 hold a block.
  function Held(s: FS, f: nat, k: nat, n: nat): nat
    decreases n - k
  {
    if k >= n then 0 else (if Val(s, SlotOf(f, k)) != 0 then 1 else 0) + Held(s, f, k + 1, n)
  }

  // file_clear_block cannot find block k: past the last entry, no indirect block, or no page to
  // read it into.
  predicate Stuck(s: FS, f: nat, k: nat)
    requires f < |s.files|
  {
    k >= NDIRECT && (k >= NINDIRECT || s.files[f].indirect == 0
                     || (s.pages == 0 && s.files[f].indirect !in s.cache))
  }

  lemma ClearSticks(s: FS, f: nat, k: nat)
    requires Good(s) && f < |s.files|
    ensures var (t, r) := ClearBlock(s, f, k);
      && (r.Ok? <==> !Stuck(s, f, k))
      && (r.Ok? && k >= NDIRECT ==> s.files[f].indirect in t.cache)
      && (r.Ok? ==> f < |t.files| && t.files[f].indirect == s.files[f].indirect)
      && (r.Ok? && k < NDIRECT ==> t.cache == s.cache && t.pages == s.pages)
  {
    WalkFinds(s, f, k, false);
    ReadBlockKeeps(s, s.files[f].indirect);
    assert Val(s, Indirect(f)) == s.files[f].indirect;
  }

  // The slots of blocks k to n - 1.
  predicate Swept(q: Slot, f: nat, k: nat, n: nat) {
    !q.Indirect? && q.f == f && k <= q.k < n && (q.Direct? <==> q.k < NDIRECT)
  }

  // The blocks that become free are those of the slots it empties.
  lemma {:induction false} ClearFromFrees(s: FS, f: nat, k: nat, n: nat)
    requires Good(s) && f < |s.files| && ClearFrom(s, f, k, n).1.Ok?
    ensures var t := ClearFrom(s, f, k, n).0;
      s.free <= t.free && forall q :: Val(s, q) != 0 ==> (Val(s, q) in t.free <==> Swept(q, f, k, n))
    decreases n - k
  {
    if k < n {
      hide Good, ClearBlock;
      ClearKeeps(s, f, k);
      var t1, t := ClearBlock(s, f, k).0, ClearFrom(s, f, k, n).0;
      ClearFromFrees(t1, f, k + 1, n);
      forall q | Val(s, q) != 0 ensures Val(s, q) in t.free <==> Swept(q, f, k, n) {
        if q != SlotOf(f, k) { assert Val(t1, q) == Val(s, q); }
      }
    }
  }

  lemma {:induction false} HeldSame(s: FS, t: FS, f: nat, k: nat, n: nat)
    requires forall j :: k <= j < n ==> Val(t, SlotOf(f, j)) == Val(s, SlotOf(f, j))
    ensures Held(t, f, k, n) == Held(s, f, k, n)
    decreases n - k
  {
    if k < n { HeldSame(s, t, f, k + 1, n); }
  }

  // The whole loop: it panics if and only if the last block is one it cannot find, and otherwise
  // frees exactly the blocks of the slots it empties.
  lemma {:induction false} ClearFromKeeps(s: FS, f: nat, k: nat, n: nat)
    requires Good(s) && f < |s.files|
    ensures var (t, r) := ClearFrom(s, f, k, n);
      && Good(t) && (r.Ok? || r.Panic?) && |t.files| == |s.files| && t.nblocks == s.nblocks
      && (r.Panic? <==> k < n && Stuck(s, f, n - 1))
      && (r.Ok? ==>
        && |t.free| == |s.free| + Held(s, f, k, n)
        && (forall q :: Val(t, q) == if Swept(q, f, k, n) then 0 else Val(s, q)))
    decreases n - k
  {
    hide Good, ClearBlock, Val, Swept, Stuck;
    if k < n {
      ClearKeeps(s, f, k);
      ClearSticks(s, f, k);
      var (t, r) := ClearBlock(s, f, k);
      StuckLater(s, t, f, k, n);
      if r.Ok? {
        ClearFromKeeps(t, f, k + 1, n);
        HeldSame(s, t, f, k + 1, n);
        var u := ClearFrom(s, f, k, n).0;
        forall q | ClearFrom(s, f, k, n).1.Ok? ensures Val(u, q) == if Swept(q, f, k, n) then 0 else Val(s, q) {
          SweptNext(q, f, k, n);
        }
      }
    } else {
      SweptNone(f, k, n);
    }
  }

  lemma SweptNext(q: Slot, f: nat, k: nat, n: nat)
    requires k < n
    ensures Swept(q, f, k, n) <==> q == SlotOf(f, k) || Swept(q, f, k + 1, n)
  {
  }

  lemma SweptNone(f: nat, k: nat, n: nat)
    requires k >= n
    ensures forall q :: !Swept(q, f, k, n)
  {
  }

  // Whether the last block can be found does not change before it is reached.
  lemma StuckLater(s: FS, t: FS, f: nat, k: nat, n: nat)
    requires Good(s) && f < |s.files| && k < n && (t, ClearBlock(s, f, k).1) == ClearBlock(s, f, k)
    ensures !ClearBlock(s, f, k).1.Ok? ==> Stuck(s, f, n - 1)
    ensures ClearBlock(s, f, k).1.Ok? && k + 1 < n ==> f < |t.files| && (Stuck(t, f, n - 1) <==> Stuck(s, f, n - 1))
    ensures ClearBlock(s, f, k).1.Ok? && k + 1 == n ==> !Stuck(s, f, n - 1)
  {
    hide Good, ClearBlock, Val;
    ClearSticks(s, f, k);
  }

  // Slots are emptied, and block v, which was in one of them, may be free from then on.
  lemma FewerGood(s: FS, t: FS, v: nat)
    requires Good(s) && Sized(t) && t.nblocks == s.nblocks && t.free <= s.free + {v}
    requires forall q :: Val(t, q) != 0 ==> Val(t, q) == Val(s, q) && Val(s, q) != v
    ensures Good(t)
  {
    hide Val, Sized;
  }

  // The indirect block goes, and every entry with it.
  lemma DropKeeps(s: FS, f: nat)
    requires Good(s) && f < |s.files|
    ensures var t, v := DropIndirect(s, f), Val(s, Indirect(f));
      && Good(t) && |t.files| == |s.files| && t.nblocks == s.nblocks
      && t.free == s.free + (if v == 0 then {} else {v})
      && |t.free| == |s.free| + (if v == 0 then 0 else 1)
      && (forall q :: Val(t, q) == if q == Indirect(f) || (q.Entry? && q.f == f) then 0 else Val(s, q))
  {
    var t, v := DropIndirect(s, f), Val(s, Indirect(f));
    assert v != 0 ==> 3 <= v && InUse(s, v);
    forall q ensures Val(t, q) == if q == Indirect(f) || (q.Entry? && q.f == f) then 0 else Val(s, q) {}
    assert Sized(t);
    hide Val, Sized;
    FewerGood(s, t, v);
  }

  // Slots that truncation from m to n blocks empties.
  predicate Cut(q: Slot, f: nat, n: nat, m: nat) {
    Swept(q, f, n, m) || (n <= NDIRECT && (q == Indirect(f) || (q.Entry? && q.f == f)))
  }

  lemma ResizeKeeps(s: FS, f: nat, size: nat)
    requires Good(s) && f < |s.files|
    ensures var t := s.(files := s.files[f := s.files[f].(size := size)]); Good(t) && forall q :: Val(t, q) == Val(s, q)
  {
    var t := s.(files := s.files[f := s.files[f].(size := size)]);
    forall q ensures Val(t, q) == Val(s, q) {}
  }

  // file_truncate: no block ends up shared or both free and in use; it panics exactly when the
  // old size reaches a block it cannot find; and it frees as many blocks as it empties slots, the
  // indirect block's included.
  lemma TruncateKeeps(s: FS, f: nat, newsize: nat)
    requires Good(s) && f < |s.files|
    ensures var (t, r), n, m := Truncate(s, f, newsize), Blocks(newsize), Blocks(s.files[f].size);
      && Good(t) && (r.Ok? || r.Panic?) && |t.files| == |s.files| && t.nblocks == s.nblocks
      && (r.Panic? <==> n < m && Stuck(s, f, m - 1))
      && (r.Ok? ==>
        && t.files[f].size == newsize
        && |t.free| == |s.free| + Held(s, f, n, m) + (if n <= NDIRECT && Val(s, Indirect(f)) != 0 then 1 else 0)
        && (forall q :: Val(t, q) == if Cut(q, f, n, m) then 0 else Val(s, q)))
  {
    hide Good, ClearFrom, DropIndirect;
    var n, m := Blocks(newsize), Blocks(s.files[f].size);
    ClearFromKeeps(s, f, n, m);
    var (t, r) := ClearFrom(s, f, n, m);
    if r.Ok? {
      DropKeeps(t, f);
      ResizeKeeps(if n <= NDIRECT then DropIndirect(t, f) else t, f, newsize);
    }
  }

  // Truncation loses a block, in use but in no slot, exactly when it drops the indirect block and
  // the block was an entry beyond the old size.
  lemma TruncateLoses(s: FS, f: nat, newsize: nat, q: Slot)
    requires Good(s) && f < |s.files| && Val(s, q) != 0 && Truncate(s, f, newsize).1.Ok?
    ensures var t, n, m := Truncate(s, f, newsize).0, Blocks(newsize), Blocks(s.files[f].size);
      (Val(s, q) !in t.free && forall p :: Val(t, p) != Val(s, q))
      <==> n <= NDIRECT && q.Entry? && q.f == f && q.k >= m
  {
    hide Stuck;
    var n, m := Blocks(newsize), Blocks(s.files[f].size);
    TruncateKeeps(s, f, newsize);
    ClearFromKeeps(s, f, n, m);
    ClearFromFrees(s, f, n, m);
    var t := ClearFrom(s, f, n, m).0;
    DropKeeps(t, f);
    var u := Truncate(s, f, newsize).0;
    if !Cut(q, f, n, m) { assert Val(u, q) == Val(s, q); }
    assert forall p :: p != q ==> Val(s, p) != Val(s, q);
    if q == Indirect(f) { assert Val(t, q) == Val(s, q); }
  }
}
