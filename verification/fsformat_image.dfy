// tools/fsformat.c as it is written: the disk array, nextbno, the File structures and the bitmap
// changed in place.
module FsFormatImage {
  import opened FsSpec
  import opened FsFormat
  import B = Bitmap
  import Fs

  // The number and the words of block k of file g.
  ghost function LinkIn(im: Image, g: nat, k: nat): nat { Val(Served(im, 0), SlotOf(g, k)) }

  ghost function Words(im: Image, g: nat, k: nat): Block { Content(Served(im, 0), LinkIn(im, g, k)) }

  // Every block of every file is where it was, with the same words.
  ghost predicate BlocksKept(im: Image, jm: Image) {
    && |im.files| <= |jm.files|
    && forall g: nat, k: nat :: g < |im.files| && LinkIn(im, g, k) != 0 ==>
         LinkIn(jm, g, k) == LinkIn(im, g, k) && Words(jm, g, k) == Words(im, g, k)
  }

  lemma KeptThen(a: Image, b: Image, c: Image)
    requires BlocksKept(a, b) && BlocksKept(b, c)
    ensures BlocksKept(a, c)
  {
    hide LinkIn, Words;
  }

  lemma KeptSame(im: Image, jm: Image)
    requires |im.files| <= |jm.files| && im.disk == jm.disk
    requires forall q: Slot :: Val(Served(jm, 0), q) == Val(Served(im, 0), q)
    ensures BlocksKept(im, jm)
  {
  }

  // A file's index block is no file's data block.
  lemma SlotApart(im: Image, f: nat, g: nat, k: nat)
    requires Sound(im) && f < |im.files| && LinkIn(im, g, k) != 0
    ensures LinkIn(im, g, k) != im.files[f].indirect
  {
    assert Val(Served(im, 0), Indirect(f)) == im.files[f].indirect;
  }

  lemma SoundSize(im: Image)
    requires Sound(im)
    ensures 3 <= im.nextbno <= NBLOCK
  {}

  lemma LinkReady(im: Image, f: nat, k: nat)
    requires Sound(im) && f < |im.files| && im.nextbno + LinkNeed(im, f, k) <= NBLOCK
    ensures |im.files[f].direct| == NDIRECT && im.nextbno < NBLOCK
    ensures MakesIndex(im, f, k) ==> im.nextbno + 1 < NBLOCK && im.nextbno + 1 !in im.disk
    ensures im.files[f].indirect in im.disk ==> |im.disk[im.files[f].indirect]| == NINDIRECT
    ensures im.nextbno !in im.disk && (im.files[f].indirect != 0 ==> im.files[f].indirect < im.nextbno)
  {
    assert Val(Served(im, 0), Indirect(f)) == im.files[f].indirect;
  }

  lemma LinkIs(im: Image, f: nat, k: nat)
    requires Sound(im) && f < |im.files| && k < NINDIRECT
    ensures |im.files[f].direct| == NDIRECT
    ensures im.files[f].indirect in im.disk ==> |im.disk[im.files[f].indirect]| == NINDIRECT
    ensures LinkIn(im, f, k) ==
            if k < NDIRECT then im.files[f].direct[k]
            else if im.files[f].indirect != 0 && im.files[f].indirect in im.disk then im.disk[im.files[f].indirect][k]
            else 0
  {
  }

  lemma LinkSize(im: Image, f: nat, k: nat, words: Block)
    requires f < |im.files|
    ensures var jm := Link(im, f, k, words);
      |jm.files| == |im.files| && forall g :: 0 <= g < |im.files| ==> jm.files[g].size == im.files[g].size
  {}

  // A link writes its data block and the file's index block, and no other.
  lemma LinkData(im: Image, f: nat, k: nat, words: Block)
    requires Sound(im) && f < |im.files| && k < NINDIRECT
    ensures var jm := Link(im, f, k, words);
      && f < |jm.files| && im.nextbno in jm.disk && jm.disk[im.nextbno] == words
      && (jm.files[f].indirect == if MakesIndex(im, f, k) then im.nextbno + 1 else im.files[f].indirect)
      && (forall b :: b in jm.disk && b < im.nextbno && b != im.files[f].indirect ==> b in im.disk)
      && (forall b :: b in im.disk && b != im.files[f].indirect ==> b in jm.disk && jm.disk[b] == im.disk[b])
  {
    assert Val(Served(im, 0), Indirect(f)) == im.files[f].indirect;
  }

  lemma SizeKeeps(im: Image, f: nat, size: nat)
    requires Sound(im) && f < |im.files|
    ensures var jm := im.(files := im.files[f := im.files[f].(size := size)]);
      Sound(jm) && forall q :: Val(Served(jm, 0), q) == Val(Served(im, 0), q)
  {
    ResizeKeeps(Served(im, 0), f, size);
    assert Served(im, 0).(files := im.files[f := im.files[f].(size := size)])
        == Served(im.(files := im.files[f := im.files[f].(size := size)]), 0);
  }

  // One more structure in the table, without a block.
  lemma AddsFile(im: Image, size: nat)
    requires Sound(im)
    ensures var jm := im.(files := im.files + [Inode(size, seq(NDIRECT, i => 0), 0)]);
      && Sound(jm) && forall q :: Val(Served(jm, 0), q) == Val(Served(im, 0), q)
  {
    var jm := im.(files := im.files + [Inode(size, seq(NDIRECT, i => 0), 0)]);
    forall q ensures Val(Served(jm, 0), q) == Val(Served(im, 0), q) {}
  }

  // The blocks that slots name have been handed out.
  lemma LinksBelow(im: Image)
    requires Sound(im)
    ensures forall q :: Val(Served(im, 0), q) < im.nextbno
  {
  }

  // One link: its two blocks are nobody's before.
  lemma LinkKeepsBlocks(im: Image, f: nat, k: nat, words: Block)
    requires Sound(im) && f < |im.files| && k < NINDIRECT && |words| == NINDIRECT
    requires LinkIn(im, f, k) == 0 && im.nextbno + LinkNeed(im, f, k) <= NBLOCK
    ensures BlocksKept(im, Link(im, f, k, words))
  {
    var jm := Link(im, f, k, words);
    LinkKeeps(im, f, k, words);
    LinkData(im, f, k, words);
    LinksBelow(im);
    hide Link, Sound;
    forall g: nat, i: nat | g < |im.files| && LinkIn(im, g, i) != 0
      ensures LinkIn(jm, g, i) == LinkIn(im, g, i) && Words(jm, g, i) == Words(im, g, i)
    {
      SlotApart(im, f, g, i);
      assert Val(Served(im, 0), SlotOf(g, i)) < im.nextbno;
    }
  }

  lemma FreshFile(im: Image, f: nat)
    requires Sound(im) && f < |im.files| && im.files[f].indirect == 0
    requires forall k :: 0 <= k < NDIRECT && k < |im.files[f].direct| ==> im.files[f].direct[k] == 0
    ensures forall k: nat :: k < NINDIRECT ==> Val(Served(im, 0), SlotOf(f, k)) == 0
  {}

  // Which File structures of which directory blocks have a name, and which entry of the file table
  // each place in use is.
  type Names = map<nat, seq<bool>>
  type Places = map<(nat, nat), nat>

  ghost predicate PlacedIn(im: Image, named: Names, at: Places) {
    && (forall p :: p in at ==>
          && p.0 < im.nextbno && p.0 in named && p.1 < |named[p.0]| && named[p.0][p.1] && at[p] < |im.files|)
    && (forall p, q :: p in at && q in at && at[p] == at[q] ==> p == q)
  }

  ghost predicate DirOkIn(im: Image, named: Names, dir: nat) {
    && dir < |im.files| && im.files[dir].size / BLOCK_SIZE <= NINDIRECT
    && forall i :: 0 <= i < im.files[dir].size / BLOCK_SIZE ==>
      LinkIn(im, dir, i) != 0 && LinkIn(im, dir, i) in named && |named[LinkIn(im, dir, i)]| == FILE2BLK
  }

  ghost predicate FullIn(im: Image, named: Names, dir: nat, n: nat) {
    forall i :: 0 <= i < n ==>
      && LinkIn(im, dir, i) in named
      && forall j :: 0 <= j < |named[LinkIn(im, dir, i)]| ==> named[LinkIn(im, dir, i)][j]
  }

  // b is one of the directory's blocks.
  ghost predicate InDirIn(im: Image, dir: nat, b: nat) {
    dir < |im.files| && exists i :: 0 <= i < im.files[dir].size / BLOCK_SIZE && b == LinkIn(im, dir, i)
  }

  // No structure of the directory is unused.
  ghost predicate NeedsBlock(im: Image, named: Names, dir: nat)
    requires dir < |im.files|
  {
    FullIn(im, named, dir, im.files[dir].size / BLOCK_SIZE)
  }

  // The blocks create_file takes, and whether there are slot and blocks for that.
  ghost function DirNeed(im: Image, named: Names, dir: nat): nat
    requires dir < |im.files|
  {
    if NeedsBlock(im, named, dir) then LinkNeed(im, dir, im.files[dir].size / BLOCK_SIZE) else 0
  }

  ghost predicate CanCreate(im: Image, named: Names, dir: nat) {
    && dir < |im.files|
    && (NeedsBlock(im, named, dir) ==>
          var n := im.files[dir].size / BLOCK_SIZE;
          n < NINDIRECT && LinkIn(im, dir, n) == 0 && im.nextbno + LinkNeed(im, dir, n) <= NBLOCK)
  }

  // The first n files have the slots, sizes and words they had.
  ghost predicate Quiet(im: Image, jm: Image, n: nat) {
    && n <= |im.files| <= |jm.files| && BlocksKept(im, jm)
    && (forall g :: 0 <= g < n ==> jm.files[g].size == im.files[g].size)
    && (forall q: Slot :: q.f < n ==> Val(Served(jm, 0), q) == Val(Served(im, 0), q))
  }

  // A structure has been found in dir, and at most the directory has grown, by one link.
  ghost predicate Grew(im: Image, jm: Image, named: Names, dir: nat) {
    && dir < |im.files| <= |jm.files| && BlocksKept(im, jm)
    && (forall i :: 0 <= i < NINDIRECT && i != im.files[dir].size / BLOCK_SIZE ==>
          LinkIn(jm, dir, i) == LinkIn(im, dir, i))
    && (forall q: Slot :: q.f < |im.files| && q.f != dir ==> Val(Served(jm, 0), q) == Val(Served(im, 0), q))
    && jm.files[dir].size == im.files[dir].size + if NeedsBlock(im, named, dir) then BLOCK_SIZE else 0
  }

  lemma GrewThen(a: Image, b: Image, c: Image, named: Names, dir: nat)
    requires Grew(a, b, named, dir) && Quiet(b, c, |a.files|)
    ensures Grew(a, c, named, dir)
  {
    hide BlocksKept, NeedsBlock, Val;
    KeptThen(a, b, c);
    forall i | 0 <= i < NINDIRECT ensures LinkIn(c, dir, i) == LinkIn(b, dir, i) { assert SlotOf(dir, i).f == dir; }
  }

  lemma DirStays(im: Image, jm: Image, named: Names, dir: nat, b: nat, n: nat)
    requires DirOkIn(im, named, dir) && InDirIn(im, dir, b) && Quiet(im, jm, n) && dir < n
    ensures DirOkIn(jm, named, dir) && InDirIn(jm, dir, b)
  {
    hide BlocksKept, Val;
    forall i | 0 <= i < NINDIRECT ensures LinkIn(jm, dir, i) == LinkIn(im, dir, i) { assert SlotOf(dir, i).f == dir; }
    var i :| 0 <= i < im.files[dir].size / BLOCK_SIZE && b == LinkIn(im, dir, i);
    assert b == LinkIn(jm, dir, i);
  }

  // A place that becomes used keeps the directory in order.
  lemma DirNamed(im: Image, named: Names, dir: nat, b: nat, j: nat)
    requires DirOkIn(im, named, dir) && b in named && j < |named[b]|
    ensures DirOkIn(im, named[b := named[b][j := true]], dir)
  {
    hide LinkIn;
  }

  lemma PlaceTaken(im: Image, jm: Image, named: Names, at: Places, b: nat, j: nat)
    requires PlacedIn(im, named, at) && b < im.nextbno && b in named && j < |named[b]| && !named[b][j]
    requires jm.nextbno == im.nextbno && |jm.files| == |im.files| + 1
    ensures (b, j) !in at && PlacedIn(jm, named[b := named[b][j := true]], at[(b, j) := |im.files|])
  {
  }

  // A new directory block has no place in use.
  lemma PlacesStay(im: Image, jm: Image, named: Names, at: Places, b: nat, fresh': seq<bool>)
    requires PlacedIn(im, named, at) && im.nextbno <= jm.nextbno && |im.files| == |jm.files|
    ensures PlacedIn(jm, named, at)
    ensures b >= im.nextbno ==> PlacedIn(jm, named[b := fresh'], at)
  {
  }

  // The directory with its new last link.
  lemma DirGrown(im: Image, jm: Image, named: Names, dir: nat, b: nat, made: seq<bool>)
    requires DirOkIn(im, named, dir) && im.files[dir].size / BLOCK_SIZE < NINDIRECT && dir < |jm.files|
    requires jm.files[dir].size == im.files[dir].size + BLOCK_SIZE && |made| == FILE2BLK && b != 0
    requires LinkIn(jm, dir, im.files[dir].size / BLOCK_SIZE) == b
    requires forall i :: 0 <= i < NINDIRECT && i != im.files[dir].size / BLOCK_SIZE ==>
               LinkIn(jm, dir, i) == LinkIn(im, dir, i)
    ensures DirOkIn(jm, named[b := made], dir) && InDirIn(jm, dir, b)
  {
    hide LinkIn;
    assert jm.files[dir].size / BLOCK_SIZE == im.files[dir].size / BLOCK_SIZE + 1;
  }

  lemma BlockBelow(im: Image, dir: nat, b: nat)
    requires Sound(im) && InDirIn(im, dir, b)
    ensures b < im.nextbno
  {
    LinksBelow(im);
  }

  lemma DirFile(im: Image, names: Names, dir: nat)
    requires DirOkIn(im, names, dir)
    ensures dir < |im.files|
  {
  }

  ghost predicate SizesKept(was: seq<Inode>, now: seq<Inode>) {
    |now| == |was| && forall g :: 0 <= g < |was| ==> now[g].size == was[g].size
  }

  // The number block k of a file gets that is written from block n0 on: one is skipped for its index.
  function NumberOf(n0: nat, k: nat): nat { n0 + k + if k > NDIRECT then 1 else 0 }

  // The first n blocks of file f, which had none, have been written.
  ghost predicate Halfway(im0: Image, im: Image, f: nat, blocks: seq<Block>, n: nat) {
    && Sound(im) && f < |im.files| && n <= |blocks| <= NINDIRECT && SizesKept(im0.files, im.files)
    && im.nextbno == NumberOf(im0.nextbno, n) && 3 <= im0.nextbno
    && im.files[f].indirect == (if n > NDIRECT then im0.nextbno + NDIRECT + 1 else 0)
    && (forall k :: 0 <= k < n ==>
          && LinkIn(im, f, k) == NumberOf(im0.nextbno, k)
          && NumberOf(im0.nextbno, k) in im.disk && im.disk[NumberOf(im0.nextbno, k)] == blocks[k])
    && (forall k :: n <= k < NINDIRECT ==> LinkIn(im, f, k) == 0)
    && BlocksKept(im0, im)
    && (forall q: Slot :: q.f != f ==> Val(Served(im, 0), q) == Val(Served(im0, 0), q))
  }

  lemma HalfwayStarts(im: Image, f: nat, blocks: seq<Block>)
    requires Sound(im) && f < |im.files| && |blocks| <= NINDIRECT && im.files[f].indirect == 0
    requires forall k :: 0 <= k < NDIRECT && k < |im.files[f].direct| ==> im.files[f].direct[k] == 0
    ensures Halfway(im, im, f, blocks, 0)
  {
    hide Sound, Val, BlocksKept;
    SoundSize(im);
    FreshFile(im, f);
    KeptSame(im, im);
  }

  lemma HalfwayOn(im0: Image, im: Image, f: nat, blocks: seq<Block>, n: nat)
    requires Halfway(im0, im, f, blocks, n) && n < |blocks| && |blocks[n]| == NINDIRECT
    requires im0.nextbno + |blocks| + (if |blocks| > NDIRECT then 1 else 0) <= NBLOCK
    ensures Sound(im) && f < |im.files| && LinkIn(im, f, n) == 0 && im.nextbno + LinkNeed(im, f, n) <= NBLOCK
    ensures Halfway(im0, Link(im, f, n, blocks[n]), f, blocks, n + 1)
  {
    hide Sound, Val, BlocksKept, Link;
    var jm := Link(im, f, n, blocks[n]);
    assert LinkIn(im, f, n) == 0;
    LinkKeeps(im, f, n, blocks[n]);
    LinkData(im, f, n, blocks[n]);
    LinkSize(im, f, n, blocks[n]);
    LinkKeepsBlocks(im, f, n, blocks[n]);
    KeptThen(im0, im, jm);
    forall k | 0 <= k < NINDIRECT && k != n ensures LinkIn(jm, f, k) == LinkIn(im, f, k) {
      assert SlotOf(f, k) != SlotOf(f, n) && SlotOf(f, k) != Indirect(f);
    }
  }

  lemma HalfwayEnds(im0: Image, im: Image, f: nat, blocks: seq<Block>)
    requires Halfway(im0, im, f, blocks, |blocks|)
    ensures Sound(im) && im.nextbno == NumberOf(im0.nextbno, |blocks|)
    ensures SizesKept(im0.files, im.files) && BlocksKept(im0, im)
    ensures forall k :: 0 <= k < |blocks| ==>
      LinkIn(im, f, k) == NumberOf(im0.nextbno, k) && Words(im, f, k) == blocks[k]
    ensures forall q: Slot :: q.f != f ==> Val(Served(im, 0), q) == Val(Served(im0, 0), q)
  {
    hide Sound, Val, BlocksKept;
  }

  class ImageBuilder {
    var nextbno: nat
    var files: seq<Inode>
    var disk: map<nat, Block>
    var bitmap: seq<bv32>
    // Directory blocks: which of the File structures in them have a name.
    var named: Names
    // The structures in use: place in a directory block -> entry of files.
    var at: Places

    ghost function Im(): Image
      reads this`nextbno, this`files, this`disk
    {
      Image(nextbno, files, disk)
    }

    ghost predicate Valid()
      reads this
    {
      Sound(Im()) && |bitmap| == NINDIRECT
    }

    // The bits of blocks past the end of the disk are zero.
    ghost predicate Trimmed()
      requires |bitmap| == NINDIRECT
      reads this
    {
      forall c :: NBLOCK <= c < BLOCK_SIZE_BIT ==> !B.Test(bitmap, c)
    }

    // Each place in use holds a named structure of its own.
    ghost predicate Placed()
      reads this
    {
      PlacedIn(Im(), named, at)
    }

    // init_disk
    constructor ()
      ensures Valid() && Im() == Empty().im && named == map[] && at == map[]
      ensures Trimmed() && Fs.FreeSet(bitmap, NBLOCK) == FreeFrom(0)
    {
      var nbitblock := (NBLOCK + BLOCK_SIZE_BIT - 1) / BLOCK_SIZE_BIT;
      nextbno := 2 + nbitblock;
      var diff := NBLOCK % BLOCK_SIZE_BIT / 8;
      bitmap := seq(NINDIRECT, i => if i < diff / 4 then B.ONES else 0);
      files := [Inode(0, seq(NDIRECT, i => 0), 0)];
      disk, named, at := map[], map[], map[];
      new;
      hide B.And, B.Mask, Good;
      forall c: nat ensures B.And(B.ONES, B.Mask(c)) != 0 && B.And(0, B.Mask(c)) == 0 { B.AllOnes(c); }
      EmptyFaithful();
    }

    method NextBlock() returns (bno: nat)
      requires nextbno < NBLOCK
      modifies this`nextbno
      ensures bno == old(nextbno) && nextbno == old(nextbno) + 1
    {
      bno := nextbno;
      nextbno := nextbno + 1;
    }

    method SaveBlockLink(f: nat, nblk: nat, bno: nat)
      requires f < |files| && nblk < NINDIRECT && |files[f].direct| == NDIRECT
      requires MakesIndex(Im(), f, nblk) ==> nextbno < NBLOCK && nextbno !in disk
      requires files[f].indirect in disk ==> |disk[files[f].indirect]| == NINDIRECT
      modifies this`nextbno, this`files, this`disk
      ensures Im() == Save(old(Im()), f, nblk, bno)
    {
      if nblk < NDIRECT {
        files := files[f := files[f].(direct := files[f].direct[nblk := bno])];
      } else {
        if files[f].indirect == 0 {
          var b := NextBlock();
          files := files[f := files[f].(indirect := b)];
        }
        var ind := files[f].indirect;
        var words: Block := if ind in disk then disk[ind] else Zeros();
        words := words[nblk := bno];
        disk := disk[ind := words];
      }
    }

    // A block with the given words becomes block k of file f: write_file's loop body.
    method AddBlock(f: nat, k: nat, words: Block)
      requires Valid() && f < |files| && k < NINDIRECT && |words| == NINDIRECT
      requires Val(Served(Im(), 0), SlotOf(f, k)) == 0 && nextbno + LinkNeed(Im(), f, k) <= NBLOCK
      modifies this`nextbno, this`files, this`disk
      ensures Valid() && Im() == Link(old(Im()), f, k, words) && BlocksKept(old(Im()), Im())
    {
      hide LinkNeed, BlocksKept, Sound, Save;
      LinkKeepsBlocks(Im(), f, k, words);
      LinkKeeps(Im(), f, k, words);
      LinkReady(Im(), f, k);
      disk := disk[nextbno := words];
      var bno := NextBlock();
      SaveBlockLink(f, k, bno);
    }

    // The loop of write_file: every block of the host file, in order.
    method WriteBlocks(f: nat, blocks: seq<Block>)
      requires Valid() && f < |files| && |blocks| <= NINDIRECT && files[f].indirect == 0
      requires forall k :: 0 <= k < NDIRECT ==> files[f].direct[k] == 0
      requires forall i :: 0 <= i < |blocks| ==> |blocks[i]| == NINDIRECT
      requires nextbno + |blocks| + (if |blocks| > NDIRECT then 1 else 0) <= NBLOCK
      modifies this`nextbno, this`files, this`disk
      ensures Valid() && |files| == |old(files)|
      ensures nextbno == NumberOf(old(nextbno), |blocks|)
      ensures forall k :: 0 <= k < |blocks| ==>
        LinkIn(Im(), f, k) == NumberOf(old(nextbno), k) && Words(Im(), f, k) == blocks[k]
      ensures SizesKept(old(files), files) && BlocksKept(old(Im()), Im())
      ensures forall q: Slot :: q.f != f ==> Val(Served(Im(), 0), q) == Val(Served(old(Im()), 0), q)
    {
      hide Sound, Link, Val, BlocksKept, Halfway, LinkNeed, Content;
      ghost var im0 := Im();
      var iblk := 0;
      HalfwayStarts(im0, f, blocks);
      while iblk < |blocks|
        invariant iblk <= |blocks| && |bitmap| == NINDIRECT && Halfway(im0, Im(), f, blocks, iblk)
      {
        HalfwayOn(im0, Im(), f, blocks, iblk);
        AddBlock(f, iblk, blocks[iblk]);
        iblk := iblk + 1;
      }
      HalfwayEnds(im0, Im(), f, blocks);
    }

    // The directory block that link i of dir names, and whether all its structures are named.
    ghost function LinkOf(dir: nat, i: nat): nat
      reads this`nextbno, this`files, this`disk
    {
      LinkIn(Im(), dir, i)
    }

    ghost predicate DirOk(dir: nat)
      reads this
    {
      DirOkIn(Im(), named, dir)
    }

    ghost predicate Full(dir: nat, n: nat)
      reads this
    {
      FullIn(Im(), named, dir, n)
    }

    ghost predicate InDir(dir: nat, b: nat)
      reads this`nextbno, this`files, this`disk
    {
      InDirIn(Im(), dir, b)
    }

    // Structure j of block b is the first unused one among the directory's links.
    ghost predicate FirstUnused(dir: nat, b: nat, j: nat)
      reads this
    {
      && dir < |files| && b in named && j < |named[b]| && !named[b][j]
      && (forall k :: 0 <= k < j ==> named[b][k])
      && exists i :: 0 <= i < files[dir].size / BLOCK_SIZE && b == LinkOf(dir, i) && Full(dir, i)
    }

    // create_file: the first unused structure of the directory, or the first of a new block that
    // becomes its next link. No block is taken while a structure is unused.
    method CreateFile(dir: nat) returns (b: nat, j: nat)
      requires Valid() && DirOk(dir) && CanCreate(Im(), named, dir)
      modifies this`nextbno, this`files, this`disk, this`named
      ensures Valid() && DirOk(dir) && |files| == |old(files)| && b in named && j < |named[b]| && !named[b][j]
      ensures InDir(dir, b) && Grew(old(Im()), Im(), old(named), dir)
      ensures nextbno == old(nextbno) + DirNeed(old(Im()), old(named), dir)
      ensures !NeedsBlock(old(Im()), old(named), dir) ==>
        Im() == old(Im()) && named == old(named) && FirstUnused(dir, b, j)
      ensures NeedsBlock(old(Im()), old(named), dir) ==>
        && j == 0 && b == old(nextbno) && b == LinkOf(dir, old(files[dir].size) / BLOCK_SIZE)
        && named == old(named)[b := seq(FILE2BLK, i => false)]
    {
      hide Sound, Link, Val, LinkNeed, BlocksKept, LinkIn;
      ghost var im := Im();
      KeptSame(im, im);
      var nblk := files[dir].size / BLOCK_SIZE;
      var i := 0;
      while i < nblk
        invariant i <= nblk && unchanged(this) && Full(dir, i)
      {
        b := ReadLink(dir, i);
        j := 0;
        while j < FILE2BLK
          invariant j <= FILE2BLK && unchanged(this) && forall k :: 0 <= k < j ==> named[b][k]
        {
          if !named[b][j] {
            assert b == LinkOf(dir, i) && Full(dir, i) && !NeedsBlock(im, named, dir);
            return;
          }
          j := j + 1;
        }
        i := i + 1;
      }
      SoundSize(im);
      b := MakeLinkBlock(dir, nblk);
      j := 0;
      DirGrown(im, Im(), named, dir, b, seq(FILE2BLK, i => false));
      named := named[b := seq(FILE2BLK, i => false)];
    }

    // The structure at a free place is named and given its size.
    method Name(b: nat, j: nat, size: nat) returns (place: (nat, nat))
      requires Valid() && Placed() && b < nextbno && b in named && j < |named[b]| && !named[b][j]
      modifies this`files, this`named, this`at
      ensures Valid() && Placed() && place == (b, j)
      ensures files == old(files) + [Inode(size, seq(NDIRECT, i => 0), 0)]
      ensures place !in old(at) && at == old(at)[place := |old(files)|]
      ensures named == old(named)[b := old(named)[b][j := true]]
      ensures Quiet(old(Im()), Im(), |old(files)|)
    {
      hide Sound, Val, BlocksKept, PlacedIn;
      place := (b, j);
      ghost var im := Im();
      AddsFile(im, size);
      PlaceTaken(im, im.(files := im.files + [Inode(size, seq(NDIRECT, i => 0), 0)]), named, at, b, j);
      at := at[place := |files|];
      files := files + [Inode(size, seq(NDIRECT, i => 0), 0)];
      named := named[b := named[b][j := true]];
      assert Im() == im.(files := im.files + [Inode(size, seq(NDIRECT, i => 0), 0)]);
      KeptSame(im, Im());
    }

    // The first half of write_file: a structure of the directory is found, named and given its size.
    // Its place was free, and is taken from then on.
    method TakePlace(dir: nat, size: nat) returns (place: (nat, nat))
      requires Valid() && Placed() && DirOk(dir) && CanCreate(Im(), named, dir)
      modifies this`nextbno, this`files, this`disk, this`named, this`at
      ensures Valid() && Placed() && DirOk(dir) && InDir(dir, place.0)
      ensures |files| == |old(files)| + 1 && files[|old(files)|] == Inode(size, seq(NDIRECT, i => 0), 0)
      ensures place !in old(at) && at == old(at)[place := |old(files)|]
      ensures nextbno == old(nextbno) + DirNeed(old(Im()), old(named), dir)
      ensures Grew(old(Im()), Im(), old(named), dir)
    {
      hide Sound, PlacedIn, DirOkIn, InDirIn, CanCreate, DirNeed, Grew, Quiet, NeedsBlock, FirstUnused;
      ghost var im, names := Im(), named;
      var b, j := CreateFile(dir);
      ghost var jm := Im();
      PlacesStay(im, jm, names, at, b, seq(FILE2BLK, i => false));
      BlockBelow(jm, dir, b);
      DirFile(jm, named, dir);
      DirNamed(jm, named, dir, b, j);
      place := Name(b, j, size);
      GrewThen(im, jm, Im(), names, dir);
      DirStays(jm, Im(), named, dir, b, |jm.files|);
    }

    // write_file: a place in the directory, and the blocks of the host file linked to the structure
    // there. Every block of every file, the directory's included, stays where it is with its words.
    method WriteFile(dir: nat, size: nat, blocks: seq<Block>) returns (place: (nat, nat))
      requires Valid() && Placed() && DirOk(dir) && CanCreate(Im(), named, dir) && |blocks| <= NINDIRECT
      requires forall i :: 0 <= i < |blocks| ==> |blocks[i]| == NINDIRECT
      requires nextbno + DirNeed(Im(), named, dir) + |blocks| + (if |blocks| > NDIRECT then 1 else 0) <= NBLOCK
      modifies this`nextbno, this`files, this`disk, this`named, this`at
      ensures Valid() && Placed() && DirOk(dir) && InDir(dir, place.0)
      ensures |files| == |old(files)| + 1 && files[|old(files)|].size == size
      ensures place !in old(at) && at == old(at)[place := |old(files)|]
      ensures forall k :: 0 <= k < |blocks| ==>
                            LinkOf(|old(files)|, k) != 0 && Words(Im(), |old(files)|, k) == blocks[k]
      ensures Grew(old(Im()), Im(), old(named), dir)
      ensures nextbno == old(nextbno) + DirNeed(old(Im()), old(named), dir)
                         + |blocks| + (if |blocks| > NDIRECT then 1 else 0)
    {
      hide Sound, Val, Content, PlacedIn, DirOkIn, InDirIn, CanCreate, DirNeed, Grew, BlocksKept;
      ghost var im, names := Im(), named;
      var f := |files|;
      DirFile(im, named, dir);
      place := TakePlace(dir, size);
      ghost var jm := Im();
      SoundSize(jm);
      WriteBlocks(f, blocks);
      PlacesStay(jm, Im(), named, at, jm.nextbno, []);
      assert Quiet(jm, Im(), f);
      hide Quiet;
      GrewThen(im, jm, Im(), names, dir);
      DirStays(jm, Im(), named, dir, place.0, f);
    }

    method ReadLink(dir: nat, i: nat) returns (b: nat)
      requires Valid() && DirOk(dir) && i < files[dir].size / BLOCK_SIZE
      ensures b == LinkOf(dir, i)
    {
      hide Sound;
      LinkIs(Im(), dir, i);
      if i < NDIRECT {
        b := files[dir].direct[i];
      } else {
        b := if files[dir].indirect in disk then disk[files[dir].indirect][i] else 0;
      }
    }

    method MakeLinkBlock(dir: nat, nblk: nat) returns (bno: nat)
      requires Valid() && dir < |files| && nblk < NINDIRECT
      requires LinkOf(dir, nblk) == 0 && nextbno + LinkNeed(Im(), dir, nblk) <= NBLOCK
      modifies this`nextbno, this`files, this`disk
      ensures Valid() && |files| == |old(files)| && bno == old(nextbno) && LinkOf(dir, nblk) == bno
      ensures nextbno == old(nextbno) + LinkNeed(old(Im()), dir, nblk)
      ensures files[dir].size == old(files[dir].size) + BLOCK_SIZE
      ensures BlocksKept(old(Im()), Im())
      ensures forall i :: 0 <= i < NINDIRECT && i != nblk ==> LinkIn(Im(), dir, i) == LinkIn(old(Im()), dir, i)
      ensures forall q: Slot :: q.f != dir ==> Val(Served(Im(), 0), q) == Val(Served(old(Im()), 0), q)
    {
      hide Sound, Link, Val, LinkNeed, BlocksKept;
      LinkKeeps(Im(), dir, nblk, Zeros());
      LinkSize(Im(), dir, nblk, Zeros());
      bno := nextbno;
      AddBlock(dir, nblk, Zeros());
      ghost var im := Im();
      SizeKeeps(im, dir, files[dir].size + BLOCK_SIZE);
      files := files[dir := files[dir].(size := files[dir].size + BLOCK_SIZE)];
      assert Im() == im.(files := im.files[dir := im.files[dir].(size := im.files[dir].size + BLOCK_SIZE)]);
      KeptSame(im, Im());
      KeptThen(old(Im()), im, Im());
    }

    // Marks exactly the blocks below nextbno used.
    method FlushBitmap()
      requires Valid() && Fs.FreeSet(bitmap, NBLOCK) == FreeFrom(0) && Trimmed()
      modifies this`bitmap
      ensures Valid() && Trimmed() && Fs.FreeSet(bitmap, NBLOCK) == FreeFrom(nextbno)
    {
      hide B.And, B.Mask, B.Sans, B.With, Sound;
      var i := 0;
      while i < nextbno
        invariant i <= nextbno && Valid() && Trimmed() && Fs.FreeSet(bitmap, NBLOCK) == FreeFrom(i)
      {
        SoundSize(Im());
        forall c: nat | c < BLOCK_SIZE_BIT { B.SetBit(bitmap, i, c); }
        ghost var was := Fs.FreeSet(bitmap, NBLOCK);
        bitmap := bitmap[i % BLOCK_SIZE_BIT / 32 := B.Sans(bitmap[i % BLOCK_SIZE_BIT / 32], B.Mask(i))];
        assert Fs.FreeSet(bitmap, NBLOCK) == was - {i};
        assert FreeFrom(i + 1) == FreeFrom(i) - {i};
        i := i + 1;
      }
    }

    // The server on the finished image.
    method Serve(pages: nat) returns (server: Fs.FileServer)
      requires Valid() && Fs.FreeSet(bitmap, NBLOCK) == FreeFrom(nextbno)
      ensures server.Valid() && server.Snap() == Served(Im(), pages)
    {
      server := new Fs.FileServer(disk, bitmap, NBLOCK, files, pages);
    }
  }
}
