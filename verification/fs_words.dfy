// What the server's blocks hold, word for word (fs/fs.c): a block read from disk holds what the disk
// has, and none of the block operations touches the words of a block that is none of its business.
module FsWords {
  import opened Common
  import opened FsSpec

  // Block b stays in the cache as it is.
  ghost predicate Keeps(s: FS, t: FS, b: nat) { b in s.cache ==> b in t.cache && t.cache[b] == s.cache[b] }

  // ... but for word k.
  ghost predicate KeepsBut(s: FS, t: FS, b: nat, k: nat) {
    b in s.cache ==>
      && b in t.cache && |t.cache[b]| == |s.cache[b]|
      && forall j :: 0 <= j < |s.cache[b]| && j != k ==> t.cache[b][j] == s.cache[b][j]
  }

  // Cached block b is the disk's, zeros where nothing has been written.
  ghost predicate FromDisk(s: FS, b: nat, words: Block) {
    && |words| == NINDIRECT
    && forall k :: 0 <= k < NINDIRECT ==> words[k] == if b in s.disk && k < |s.disk[b]| then s.disk[b][k] else 0
  }

  ghost predicate FromDiskBut(s: FS, b: nat, words: Block, i: nat) {
    && |words| == NINDIRECT
    && forall k :: 0 <= k < NINDIRECT && k != i ==>
         words[k] == if b in s.disk && k < |s.disk[b]| then s.disk[b][k] else 0
  }

  predicate AllZero(words: Block) { |words| == NINDIRECT && forall k :: 0 <= k < NINDIRECT ==> words[k] == 0 }

  // read_block: an uncached block comes from disk, and no cached block changes.
  lemma ReadBlockWords(s: FS, b: nat)
    requires Sized(s)
    ensures var (t, r) := ReadBlock(s, b);
      && t == s.(cache := t.cache, pages := t.pages)
      && (r.Ok? <==> InUse(s, b) && (b in s.cache || s.pages > 0))
      && (InUse(s, b) && !r.Ok? ==> r == Err(E_NO_MEM))
      && (!r.Ok? ==> t == s)
      && (forall c :: Keeps(s, t, c))
      && (r.Ok? ==> r.v == b && t.cache.Keys == s.cache.Keys + {b})
      && (r.Ok? ==> t.pages == s.pages - if b in s.cache then 0 else 1)
      && (r.Ok? && b !in s.cache ==> FromDisk(s, b, t.cache[b]))
  {
  }

  // alloc_block: a new block not in the cache gets a page of zeros there.
  lemma AllocWords(s: FS)
    requires Sized(s)
    ensures var (t, r) := AllocBlock(s);
      && t == s.(free := t.free, cache := t.cache, pages := t.pages)
      && (forall c :: Keeps(s, t, c))
      && (!r.Ok? ==> t == s)
      && (r.Ok? ==> r.v in s.free && t.cache.Keys == s.cache.Keys + {r.v})
      && (r.Ok? && r.v !in s.cache ==> AllZero(t.cache[r.v]))
  {
    FirstFreeIs(s, 3);
  }

  lemma PutWords(s: FS, f: nat, k: nat, v: nat)
    requires Sized(s) && f < |s.files| && k < NINDIRECT
    requires k < NDIRECT || s.files[f].indirect in s.cache
    ensures var t := Put(s, f, k, v);
      && t == s.(files := t.files, cache := t.cache) && t.cache.Keys == s.cache.Keys && |t.files| == |s.files|
      && t.files[f].indirect == s.files[f].indirect
      && (forall c :: c != s.files[f].indirect || k < NDIRECT ==> Keeps(s, t, c))
      && KeepsBut(s, t, s.files[f].indirect, k)
  {
  }

  // The index block of a file, if it has one.
  function Index(s: FS, f: nat): nat { Val(s, Indirect(f)) }

  // What finding a slot does to the cache: at most the index block comes in.
  ghost predicate Found(s: FS, t: FS, f: nat, k: nat)
    requires f < |s.files|
  {
    && t.disk == s.disk && |t.files| == |s.files|
    && (forall c :: Keeps(s, t, c))
    && (forall c :: c in t.cache ==> c in s.cache || (k >= NDIRECT && c == Index(t, f)))
    && (k >= NDIRECT && Index(s, f) != 0 && Index(s, f) in t.cache && Index(s, f) !in s.cache ==>
          FromDisk(s, Index(s, f), t.cache[Index(s, f)]))
  }

  lemma WalkWords(s: FS, f: nat, k: nat, alloc: bool)
    requires Good(s) && f < |s.files|
    ensures var (t, r) := Walk(s, f, k, alloc);
      && Found(s, t, f, k) && Sized(t)
      && (r.Ok? ==> k < NINDIRECT && (k >= NDIRECT ==> Index(t, f) in t.cache && Index(t, f) != 0))
      && (Index(s, f) != 0 ==> Index(t, f) == Index(s, f))
  {
    if NDIRECT <= k < NINDIRECT {
      if Index(s, f) != 0 {
        ReadBlockWords(s, Index(s, f));
        ReadBlockKeeps(s, Index(s, f));
      } else if alloc {
        WalkAllocates(s, f, k);
        AllocWords(s);
        AllocBlockKeeps(s);
      }
    }
  }

  // What looking up or changing slot k of file f does to words: it changes word k of the index block
  // and no other word of any cached block; it brings in the index block as it is on disk, and at
  // most one new block more, of zeros.
  ghost predicate Touches(s: FS, t: FS, f: nat, k: nat, added: Option<nat>)
    requires f < |s.files|
  {
    && t.disk == s.disk && |t.files| == |s.files|
    && (forall c :: c != Index(t, f) || k < NDIRECT ==> Keeps(s, t, c))
    && KeepsBut(s, t, Index(t, f), k)
    && (forall c :: c in t.cache ==> c in s.cache || (k >= NDIRECT && c == Index(t, f)) || added == Some(c))
    && (k >= NDIRECT && Index(s, f) != 0 && Index(s, f) in t.cache && Index(s, f) !in s.cache ==>
          Index(t, f) == Index(s, f) && FromDiskBut(s, Index(s, f), t.cache[Index(s, f)], k))
  }

  lemma FoundTouches(s: FS, t: FS, f: nat, k: nat)
    requires f < |s.files| && Found(s, t, f, k) && (Index(s, f) != 0 ==> Index(t, f) == Index(s, f))
    ensures Touches(s, t, f, k, None)
  {
    assert Keeps(s, t, Index(t, f));
  }

  // Slot k of f is stored, after it has been found and perhaps a block been allocated.
  lemma StoreTouches(s: FS, s1: FS, s2: FS, f: nat, k: nat, v: nat, added: Option<nat>)
    requires f < |s.files| && k < NINDIRECT && Found(s, s1, f, k) && Sized(s2) && f < |s2.files|
    requires Index(s, f) != 0 ==> Index(s1, f) == Index(s, f)
    requires k >= NDIRECT ==> Index(s1, f) in s1.cache && Index(s1, f) != 0
    requires s2.files == s1.files && s2.disk == s1.disk && (forall c :: Keeps(s1, s2, c))
    requires forall c :: c in s2.cache ==> c in s1.cache || added == Some(c)
    ensures Touches(s, Put(s2, f, k, v), f, k, added)
  {
    assert k >= NDIRECT ==> Keeps(s1, s2, Index(s1, f));
    PutWords(s2, f, k, v);
    var t := Put(s2, f, k, v);
    hide Put;
    forall c ensures c != Index(t, f) || k < NDIRECT ==> Keeps(s, t, c) {
      assert Keeps(s, s1, c) && Keeps(s1, s2, c);
      assert c != s2.files[f].indirect || k < NDIRECT ==> Keeps(s2, t, c);
    }
    assert Keeps(s, s1, Index(t, f)) && Keeps(s1, s2, Index(t, f));
  }

  // A block is taken for slot k of f, which has been found.
  lemma TakeTouches(s: FS, s1: FS, f: nat, k: nat)
    requires f < |s.files| && k < NINDIRECT && Good(s1) && Found(s, s1, f, k) && AllocBlock(s1).1.Ok?
    requires Index(s, f) != 0 ==> Index(s1, f) == Index(s, f)
    requires k >= NDIRECT ==> Index(s1, f) in s1.cache && Index(s1, f) != 0
    ensures var (s2, r) := AllocBlock(s1); f < |s2.files| && r.v != s2.files[f].indirect
    ensures var (s2, r) := AllocBlock(s1); var t := Put(s2, f, k, r.v);
      && Touches(s, t, f, k, Some(r.v))
      && r.v in t.cache && Keeps(s, t, r.v) && (r.v !in s.cache ==> r.v in s1.cache || AllZero(t.cache[r.v]))
  {
    AllocWords(s1);
    AllocBlockKeeps(s1);
    var (s2, r) := AllocBlock(s1);
    hide AllocBlock, Good;
    assert r.v != Index(s1, f);
    StoreTouches(s, s1, s2, f, k, r.v, Some(r.v));
    PutWords(s2, f, k, r.v);
    hide Put;
    assert Keeps(s, s1, r.v) && Keeps(s1, s2, r.v) && Keeps(s2, Put(s2, f, k, r.v), r.v);
  }

  // file_map_block. A block it takes for the slot holds zeros, or what was cached of it.
  lemma MapWords(s: FS, f: nat, k: nat, alloc: bool)
    requires Good(s) && f < |s.files| && Tidy(s, f, k, alloc)
    ensures var (t, r) := MapBlock(s, f, k, alloc);
      var takes := r.Ok? && Val(s, SlotOf(f, k)) == 0;
      && Touches(s, t, f, k, if takes then Some(r.v) else None)
      && (takes ==> r.v in t.cache && Keeps(s, t, r.v) && (r.v !in s.cache ==> AllZero(t.cache[r.v])))
  {
    WalkWords(s, f, k, alloc);
    WalkKeeps(s, f, k, alloc);
    var (s1, r1) := Walk(s, f, k, alloc);
    hide Walk, Tidy, Good, Put, AllocBlock;
    FoundTouches(s, s1, f, k);
    if r1.Ok? && Val(s1, SlotOf(f, k)) == 0 && alloc {
      AllocBlockKeeps(s1);
      if AllocBlock(s1).1.Ok? { TakeTouches(s, s1, f, k); }
    }
  }

  // file_clear_block
  lemma ClearWords(s: FS, f: nat, k: nat)
    requires Good(s) && f < |s.files|
    ensures Touches(s, ClearBlock(s, f, k).0, f, k, None)
  {
    WalkWords(s, f, k, false);
    WalkFinds(s, f, k, false);
    var (s1, r1) := Walk(s, f, k, false);
    hide Walk, Refs, Apart;
    FoundTouches(s, s1, f, k);
    var v := Val(s1, SlotOf(f, k));
    if r1.Ok? && v != 0 {
      StoreTouches(s, s1, FreeBlock(s1, v), f, k, 0, None);
    }
  }

  // Only the file's index block may have changed in the cache, or come in.
  ghost predicate Outside(s: FS, t: FS, f: nat) {
    && t.disk == s.disk
    && (forall c :: c != Index(s, f) ==> Keeps(s, t, c))
    && (forall c :: c in t.cache ==> c in s.cache || c == Index(s, f))
  }

  lemma ClearOutside(s: FS, f: nat, k: nat)
    requires Good(s) && f < |s.files|
    ensures Outside(s, ClearBlock(s, f, k).0, f)
  {
    ClearWords(s, f, k);
    ClearKeeps(s, f, k);
    var (t, r) := ClearBlock(s, f, k);
    hide ClearBlock, Good;
    assert r.Ok? ==> Index(t, f) == Index(s, f);
  }

  lemma {:induction false} ClearFromOutside(s: FS, f: nat, k: nat, n: nat)
    requires Good(s) && f < |s.files|
    ensures Outside(s, ClearFrom(s, f, k, n).0, f)
    decreases n - k
  {
    hide ClearBlock, Good, Val;
    if k < n {
      ClearOutside(s, f, k);
      ClearKeeps(s, f, k);
      var (t, r) := ClearBlock(s, f, k);
      if r.Ok? {
        ClearFromOutside(t, f, k + 1, n);
        var u := ClearFrom(t, f, k + 1, n).0;
        forall c | c != Index(s, f) ensures Keeps(s, u, c) { assert Keeps(s, t, c) && Keeps(t, u, c); }
      }
    }
  }

  // file_truncate
  lemma TruncateWords(s: FS, f: nat, newsize: nat)
    requires Good(s) && f < |s.files|
    ensures Outside(s, Truncate(s, f, newsize).0, f)
  {
    hide Blocks, Good, ClearFrom;
    ClearFromOutside(s, f, Blocks(newsize), Blocks(s.files[f].size));
    var t, u := ClearFrom(s, f, Blocks(newsize), Blocks(s.files[f].size)).0, Truncate(s, f, newsize).0;
    assert u.cache == t.cache && u.disk == t.disk;
    forall c | c != Index(s, f) ensures Keeps(s, u, c) { assert Keeps(s, t, c); }
  }

  // file_get_block
  function GetBlock(s: FS, f: nat, k: nat): (FS, Ret)
    requires f < |s.files|
  {
    var (s1, r) := MapBlock(s, f, k, true);
    if r.Ok? then ReadBlock(s1, r.v) else (s1, r)
  }

  // A block that is there already comes back with its words: those in the cache, or the disk's.
  lemma GetBlockReads(s: FS, f: nat, k: nat)
    requires Good(s) && f < |s.files| && Val(s, SlotOf(f, k)) != 0
    ensures var (t, r), v := GetBlock(s, f, k), Val(s, SlotOf(f, k));
      && !r.Panic? && (s.pages >= 2 ==> r.Ok?)
      && (r.Ok? ==>
        && r.v == v && v in t.cache
        && (v in s.cache ==> t.cache[v] == s.cache[v])
        && (v !in s.cache ==> FromDisk(s, v, t.cache[v])))
  {
    var v := Val(s, SlotOf(f, k));
    MapKeeps(s, f, k, true);
    MapWords(s, f, k, true);
    FindsWithPages(s, f, k);
    var (s1, r1) := MapBlock(s, f, k, true);
    if r1.Ok? {
      assert Val(s1, SlotOf(f, k)) == v && InUse(s1, v);
      assert v != Index(s1, f);
      hide MapBlock, Val, Refs, Apart;
      ReadBlockWords(s1, v);
      assert Keeps(s, s1, v) && Keeps(s1, ReadBlock(s1, v).0, v);
    }
  }

  // Finding a block that is there takes at most one page, for the index block.
  lemma FindsWithPages(s: FS, f: nat, k: nat)
    requires Good(s) && f < |s.files| && Val(s, SlotOf(f, k)) != 0
    ensures var (t, r) := MapBlock(s, f, k, true); t.pages + 1 >= s.pages && (s.pages >= 1 ==> r.Ok?)
  {
    if k >= NDIRECT {
      assert InUse(s, Val(s, Indirect(f)));
      ReadBlockWords(s, Index(s, f));
      ReadBlockKeeps(s, Index(s, f));
    }
  }

  // One that is not there is taken, and holds zeros unless it was still in the cache.
  lemma GetBlockTakes(s: FS, f: nat, k: nat)
    requires Good(s) && f < |s.files| && Tidy(s, f, k, true) && Val(s, SlotOf(f, k)) == 0
    ensures var (t, r) := GetBlock(s, f, k);
      && !r.Panic?
      && (r.Ok? ==>
        && r.v in s.free && r.v in t.cache
        && if r.v in s.cache then t.cache[r.v] == s.cache[r.v] else AllZero(t.cache[r.v]))
  {
    MapKeeps(s, f, k, true);
    MapWords(s, f, k, true);
    var (s1, r1) := MapBlock(s, f, k, true);
    if r1.Ok? {
      assert InUse(s1, Val(s1, SlotOf(f, k)));
      hide MapBlock, Val, Refs, Apart, Tidy;
      ReadBlockWords(s1, r1.v);
      assert Keeps(s, s1, r1.v) && Keeps(s1, ReadBlock(s1, r1.v).0, r1.v);
    }
  }
}
