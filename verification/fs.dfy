// The file server (fs/fs.c): bitmap words, File structures and cached blocks changed in place.
// Each operation takes the step that FsSpec gives for it.
module Fs {
  import opened Common
  import opened FsSpec
  import opened FsWords
  import B = Bitmap

  ghost function FreeSet(words: seq<bv32>, n: nat): set<nat>
    requires B.Covers(words, n)
  {
    set b | 0 <= b < n && B.Test(words, b)
  }

  lemma AllocKeepsFiles(s: FS)
    ensures AllocBlock(s).0.files == s.files
  {}

  lemma FreeKeepsFiles(s: FS, b: nat)
    ensures FreeBlock(s, b).files == s.files
  {}

  lemma UsedIsInRange(s: FS, q: Slot)
    requires Good(s) && Val(s, q) != 0
    ensures 3 <= Val(s, q) < s.nblocks
  {}

  // After file_block_walk the slot can be loaded and stored.
  lemma WalkReady(s: FS, f: nat, k: nat, alloc: bool)
    requires Good(s) && f < |s.files|
    ensures var (t, r) := Walk(s, f, k, alloc);
      r.Ok? ==>
        && Sized(t) && f < |t.files| && k < NINDIRECT
        && (k >= NDIRECT ==> t.files[f].indirect in t.cache && t.files[f].indirect != 0)
  {
    if alloc && NeedsIndirect(s, f, k) {
      WalkAllocates(s, f, k);
    } else {
      WalkFinds(s, f, k, alloc);
    }
  }

  // And so it can after one more block was allocated.
  lemma AllocReady(s: FS, f: nat, k: nat)
    requires Sized(s) && f < |s.files| && (k >= NDIRECT ==> s.files[f].indirect in s.cache)
    ensures var t := AllocBlock(s).0;
      Sized(t) && t.files == s.files && (k >= NDIRECT ==> s.files[f].indirect in t.cache)
  {}

  class FileServer {
    const nblocks: nat
    const disk: map<nat, Block>
    var bitmap: seq<bv32>
    var files: seq<Inode>
    var cache: map<nat, Block>
    var pages: nat

    constructor (disk: map<nat, Block>, bitmap: seq<bv32>, nblocks: nat, files: seq<Inode>, pages: nat)
      requires B.Covers(bitmap, nblocks)
      ensures Valid() && Snap() == FS(nblocks, FreeSet(bitmap, nblocks), files, map[], disk, pages)
    {
      this.disk, this.bitmap, this.nblocks, this.files, this.pages := disk, bitmap, nblocks, files, pages;
      cache := map[];
    }

    ghost predicate Valid()
      reads this
    {
      B.Covers(bitmap, nblocks)
    }

    ghost function Snap(): FS
      reads this
      requires Valid()
    {
      FS(nblocks, FreeSet(bitmap, nblocks), files, cache, disk, pages)
    }

    method BlockIsFree(b: nat) returns (free: bool)
      requires Valid()
      ensures free <==> b in Snap().free
    {
      if b >= nblocks {
        return false;
      }
      free := B.And(bitmap[b / 32], B.Mask(b)) != 0;
    }

    method FreeBlock(b: nat)
      requires Valid()
      modifies this`bitmap
      ensures Valid() && Snap() == FsSpec.FreeBlock(old(Snap()), b)
    {
      if b == 0 || b >= nblocks {
        return;
      }
      hide B.And, B.Mask, B.With, B.Sans;
      forall c | 0 <= c < nblocks { B.SetBit(bitmap, b, c); }
      bitmap := bitmap[b / 32 := B.With(bitmap[b / 32], B.Mask(b))];
    }

    // The lowest free block from 3 on, now marked used.
    method AllocBlockNum() returns (r: Ret)
      requires Valid()
      modifies this`bitmap
      ensures Valid() && (r.Ok? || r == Err(E_NO_DISK))
      ensures FirstFree(old(Snap()), 3) == if r.Ok? then Some(r.v) else None
      ensures Snap() == old(Snap()).(free := if r.Ok? then old(Snap()).free - {r.v} else old(Snap()).free)
    {
      hide B.And, B.Mask, B.With, B.Sans;
      ghost var s := Snap();
      var b := 3;
      while b < nblocks
        invariant 3 <= b && Valid() && Snap() == s && FirstFree(s, b) == FirstFree(s, 3)
      {
        if B.Test(bitmap, b) {
          forall c | 0 <= c < nblocks { B.SetBit(bitmap, b, c); }
          bitmap := bitmap[b / 32 := B.Sans(bitmap[b / 32], B.Mask(b))];
          assert Snap().free == s.free - {b};
          return Ok(b);
        }
        b := b + 1;
      }
      r := Err(E_NO_DISK);
    }

    method MapBlock(b: nat) returns (ok: bool)
      modifies this`cache, this`pages
      ensures ok <==> b in old(cache) || old(pages) > 0
      ensures cache == if ok && b !in old(cache) then old(cache)[b := Zeros()] else old(cache)
      ensures pages == if ok && b !in old(cache) then old(pages) - 1 else old(pages)
    {
      if b in cache {
        return true;
      }
      if pages == 0 {
        return false;
      }
      cache, pages, ok := cache[b := Zeros()], pages - 1, true;
    }

    method AllocBlock() returns (r: Ret)
      requires Valid()
      modifies this`bitmap, this`cache, this`pages
      ensures Valid() && (Snap(), r) == FsSpec.AllocBlock(old(Snap()))
    {
      FirstFreeIs(Snap(), 3);
      r := AllocBlockNum();
      if !r.Ok? {
        return;
      }
      var bno := r.v;
      var ok := MapBlock(bno);
      if !ok {
        FreeBlock(bno);
        assert Snap().free == old(Snap()).free;
        return Err(E_NO_MEM);
      }
      r := Ok(bno);
    }

    method ReadBlock(b: nat) returns (r: Ret)
      requires Valid()
      modifies this`cache, this`pages
      ensures Valid() && (Snap(), r) == FsSpec.ReadBlock(old(Snap()), b)
      ensures r.Ok? && b !in old(cache) ==>
                b in cache && cache[b] == (if b in disk then disk[b] else seq(NINDIRECT, k => 0))
      ensures forall c :: c in old(cache) ==> c in cache && cache[c] == old(cache)[c]
    {
      if b >= nblocks {
        return Panic;
      }
      var free := BlockIsFree(b);
      if free {
        return Panic;
      }
      if b !in cache {
        if pages == 0 {
          return Err(E_NO_MEM);
        }
        cache, pages := cache[b := if b in disk then disk[b] else Zeros()], pages - 1;
      }
      r := Ok(b);
    }

    // Ok(b): the slot of block k is a direct slot of f or word k of the cached block b.
    method FileBlockWalk(f: nat, k: nat, alloc: bool) returns (r: Ret)
      requires Valid() && f < |files|
      modifies this`bitmap, this`cache, this`pages, this`files
      ensures Valid() && (Snap(), r) == FsSpec.Walk(old(Snap()), f, k, alloc)
    {
      hide FreeSet, FsSpec.AllocBlock, FsSpec.ReadBlock;
      if k < NDIRECT {
        return Ok(0);
      }
      if k >= NINDIRECT {
        return Err(E_INVAL);
      }
      if files[f].indirect == 0 {
        if !alloc {
          return Err(E_NOT_FOUND);
        }
        r := AllocBlock();
        if !r.Ok? {
          return;
        }
        AllocKeepsFiles(old(Snap()));
        files := files[f := files[f].(indirect := r.v)];
      }
      r := ReadBlock(files[f].indirect);
    }

    // *ptr = v
    method PutSlot(f: nat, k: nat, v: nat)
      requires Valid() && Sized(Snap()) && f < |files| && k < NINDIRECT
      requires k >= NDIRECT ==> files[f].indirect in cache
      modifies this`cache, this`files
      ensures Valid() && Snap() == Put(old(Snap()), f, k, v)
    {
      if k < NDIRECT {
        var ino := files[f];
        files := files[f := ino.(direct := ino.direct[k := v])];
      } else {
        var b := files[f].indirect;
        var words: Block := cache[b];
        words := words[k := v];
        cache := cache[b := words];
      }
    }

    // *ptr
    method GetSlot(f: nat, k: nat) returns (v: nat)
      requires Valid() && Sized(Snap()) && f < |files| && k < NINDIRECT
      requires k >= NDIRECT ==> files[f].indirect in cache && files[f].indirect != 0
      ensures v == Val(Snap(), SlotOf(f, k))
    {
      v := if k < NDIRECT then files[f].direct[k] else cache[files[f].indirect][k];
    }

    method FileMapBlock(f: nat, k: nat, alloc: bool) returns (r: Ret)
      requires Valid() && Good(Snap()) && f < |files|
      modifies this`bitmap, this`cache, this`pages, this`files
      ensures Valid() && (Snap(), r) == FsSpec.MapBlock(old(Snap()), f, k, alloc)
    {
      hide FreeSet, Good, Walk, Val, Sized, FsSpec.AllocBlock, Put;
      WalkReady(Snap(), f, k, alloc);
      r := FileBlockWalk(f, k, alloc);
      if !r.Ok? {
        return;
      }
      var v := GetSlot(f, k);
      if v == 0 {
        if !alloc {
          return Err(E_NOT_FOUND);
        }
        ghost var s1 := Snap();
        AllocReady(s1, f, k);
        r := AllocBlock();
        if !r.Ok? {
          return;
        }
        PutSlot(f, k, r.v);
        v := r.v;
      }
      r := Ok(v);
    }

    // file_get_block: GetBlockReads and GetBlockTakes say what words it hands out.
    method FileGetBlock(f: nat, k: nat) returns (r: Ret)
      requires Valid() && Good(Snap()) && f < |files|
      modifies this`bitmap, this`cache, this`pages, this`files
      ensures Valid() && (Snap(), r) == GetBlock(old(Snap()), f, k)
    {
      hide FreeSet, Good, FsSpec.MapBlock, FsSpec.ReadBlock;
      r := FileMapBlock(f, k, true);
      if r.Ok? {
        r := ReadBlock(r.v);
      }
    }

    method FileClearBlock(f: nat, k: nat) returns (r: Ret)
      requires Valid() && Good(Snap()) && f < |files|
      modifies this`bitmap, this`cache, this`pages, this`files
      ensures Valid() && (Snap(), r) == FsSpec.ClearBlock(old(Snap()), f, k)
    {
      hide FreeSet, Good, Walk, Val, Put;
      WalkReady(Snap(), f, k, false);
      WalkFinds(Snap(), f, k, false);
      r := FileBlockWalk(f, k, false);
      if !r.Ok? {
        return;
      }
      var v := GetSlot(f, k);
      if v != 0 {
        UsedIsInRange(Snap(), SlotOf(f, k));
        FreeBlock(v);
        PutSlot(f, k, 0);
      }
      r := Ok(0);
    }

    method FreeIndirect(f: nat)
      requires Valid() && f < |files|
      modifies this`bitmap, this`files
      ensures Valid() && |files| == |old(files)| && Snap() == DropIndirect(old(Snap()), f)
    {
      hide FreeSet, FsSpec.FreeBlock;
      if files[f].indirect != 0 {
        FreeKeepsFiles(Snap(), files[f].indirect);
        FreeBlock(files[f].indirect);
        files := files[f := files[f].(indirect := 0)];
      }
    }

    method FileTruncate(f: nat, newsize: nat) returns (r: Ret)
      requires Valid() && Good(Snap()) && f < |files|
      modifies this`bitmap, this`cache, this`pages, this`files
      ensures Valid() && (Snap(), r) == Truncate(old(Snap()), f, newsize)
    {
      hide FreeSet, Good, FsSpec.ClearBlock, Val, DropIndirect;
      ghost var s := Snap();
      var oldNblocks, newNblocks := Blocks(files[f].size), Blocks(newsize);
      if newsize == 0 {
        newNblocks := 0;
      }
      var bno := newNblocks;
      while bno < oldNblocks
        invariant Valid() && Good(Snap()) && f < |files| && newNblocks <= bno
        invariant ClearFrom(Snap(), f, bno, oldNblocks) == ClearFrom(s, f, newNblocks, oldNblocks)
      {
        ClearKeeps(Snap(), f, bno);
        r := FileClearBlock(f, bno);
        if !r.Ok? {
          return Panic;
        }
        bno := bno + 1;
      }
      if newNblocks <= NDIRECT {
        FreeIndirect(f);
      }
      files := files[f := files[f].(size := newsize)];
      r := Ok(0);
    }
  }
}
