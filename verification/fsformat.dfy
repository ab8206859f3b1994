// The image builder (tools/fsformat.c) and the server that must be able to read the image
// (fs/fs.c): what one saves as block k of a file is what the other finds there.
module FsFormat {
  import opened Common
  import opened FsSpec

  const NBLOCK: nat := 1024
  const BLOCK_SIZE_BIT: nat := BLOCK_SIZE * 8
  const FILE2BLK: nat := 16

  // disk has no entry for blocks that are still the zeros the array starts with.
  datatype Image = Image(nextbno: nat, files: seq<Inode>, disk: map<nat, Block>)

  predicate Unused(b: nat, nextbno: nat) { nextbno <= b }

  function FreeFrom(nextbno: nat): set<nat> { set b | 0 <= b < NBLOCK && Unused(b, nextbno) }

  // The server's state once it has read the bitmap of the finished image.
  function Served(im: Image, pages: nat): FS {
    FS(NBLOCK, FreeFrom(im.nextbno), im.files, map[], im.disk, pages)
  }

  // Blocks from nextbno on are untouched, and the image so far would serve.
  ghost predicate Sound(im: Image) {
    && 3 <= im.nextbno <= NBLOCK
    && (forall b :: b in im.disk ==> b < im.nextbno)
    && Good(Served(im, 0))
  }

  predicate MakesIndex(im: Image, f: nat, k: nat)
    requires f < |im.files|
  {
    k >= NDIRECT && im.files[f].indirect == 0
  }

  function SetWord(im: Image, b: nat, k: nat, v: nat): Image {
    var words := Content(Served(im, 0), b);
    if k < |words| then im.(disk := im.disk[b := words[k := v]]) else im
  }

  // save_block_link
  function Save(im: Image, f: nat, k: nat, bno: nat): Image
    requires f < |im.files|
  {
    var ino := im.files[f];
    if k < NDIRECT then
      (if k < |ino.direct| then im.(files := im.files[f := ino.(direct := ino.direct[k := bno])]) else im)
    else if ino.indirect == 0 then
      SetWord(Image(im.nextbno + 1, im.files[f := ino.(indirect := im.nextbno)], im.disk), im.nextbno, k, bno)
    else SetWord(im, ino.indirect, k, bno)
  }

  // A new block holding words, saved as block k of file f.
  function Link(im: Image, f: nat, k: nat, words: Block): Image
    requires f < |im.files|
  {
    Save(Image(im.nextbno + 1, im.files, im.disk[im.nextbno := words]), f, k, im.nextbno)
  }

  function LinkNeed(im: Image, f: nat, k: nat): nat
    requires f < |im.files|
  {
    if MakesIndex(im, f, k) then 2 else 1
  }

  lemma ValsFrom(im: Image, words: Block)
    requires Sound(im) && |words| == NINDIRECT && im.nextbno < NBLOCK
    ensures var jm := Image(im.nextbno + 1, im.files, im.disk[im.nextbno := words]);
      && Sound(jm)
      && (forall q :: Val(Served(jm, 0), q) == Val(Served(im, 0), q) && Val(Served(im, 0), q) != im.nextbno)
  {
    var s, t := Served(im, 0), Served(Image(im.nextbno + 1, im.files, im.disk[im.nextbno := words]), 0);
    forall q ensures Val(t, q) == Val(s, q) && Val(s, q) != im.nextbno {
      if q.Entry? { assert Val(s, Indirect(q.f)) != im.nextbno; }
    }
  }

  // Giving a file its index block.
  lemma IndexGood(im: Image, f: nat)
    requires Sound(im) && f < |im.files| && im.files[f].indirect == 0 && im.nextbno < NBLOCK
    ensures var jm := Image(im.nextbno + 1, im.files[f := im.files[f].(indirect := im.nextbno)], im.disk);
      Sound(jm) && Only(Served(im, 0), Served(jm, 0), Indirect(f), im.nextbno)
  {
    var s := Served(im, 0);
    var t0 := Served(im.(nextbno := im.nextbno + 1), 0);
    var t := Served(Image(im.nextbno + 1, im.files[f := im.files[f].(indirect := im.nextbno)], im.disk), 0);
    forall q ensures Val(t0, q) == Val(s, q) && Val(s, q) != im.nextbno {}
    assert im.nextbno !in im.disk;
    forall q ensures Val(t, q) == if q == Indirect(f) then im.nextbno else Val(t0, q) {}
    AttachGood(t0, t, Indirect(f), im.nextbno);
  }

  lemma SetWordGood(im: Image, f: nat, k: nat, v: nat)
    requires Sound(im) && f < |im.files| && NDIRECT <= k < NINDIRECT && im.files[f].indirect != 0
    requires 3 <= v < im.nextbno && (forall q :: Val(Served(im, 0), q) != v)
    ensures var jm := SetWord(im, im.files[f].indirect, k, v);
      && Sound(jm) && jm.nextbno == im.nextbno && jm.files == im.files
      && Only(Served(im, 0), Served(jm, 0), Entry(f, k), v)
  {
    var s, b := Served(im, 0), im.files[f].indirect;
    assert Val(s, Indirect(f)) == b && |Content(s, b)| == NINDIRECT;
    var t := Served(SetWord(im, b, k, v), 0);
    forall q ensures Val(t, q) == if q == Entry(f, k) then v else Val(s, q) {
      if q.Entry? && q.f != f { assert Val(s, Indirect(q.f)) != b; }
    }
    AttachGood(s, t, Entry(f, k), v);
  }

  // From im to jm, block v has become block k of file f, and nothing else but perhaps the file's
  // index block.
  ghost predicate Saves(im: Image, jm: Image, f: nat, k: nat, v: nat)
    requires f < |im.files|
  {
    var s, t := Served(im, 0), Served(jm, 0);
    && Sound(jm) && |jm.files| == |im.files|
    && jm.nextbno == im.nextbno + (if MakesIndex(im, f, k) then 1 else 0)
    && Val(t, SlotOf(f, k)) == v
    && (forall q :: q != SlotOf(f, k) && q != Indirect(f) ==> Val(t, q) == Val(s, q))
    && Val(t, Indirect(f)) == if MakesIndex(im, f, k) then im.nextbno else Val(s, Indirect(f))
  }

  // Block v has been handed out and is in no slot.
  ghost predicate Unlinked(im: Image, v: nat) {
    3 <= v < im.nextbno && forall q :: Val(Served(im, 0), q) != v
  }

  lemma SaveDirect(im: Image, f: nat, k: nat, v: nat)
    requires Sound(im) && f < |im.files| && k < NDIRECT && Unlinked(im, v)
    requires Val(Served(im, 0), SlotOf(f, k)) == 0
    ensures Saves(im, Save(im, f, k, v), f, k, v)
  {
    var t := Served(Save(im, f, k, v), 0);
    assert Only(Served(im, 0), t, SlotOf(f, k), v);
    AttachGood(Served(im, 0), t, SlotOf(f, k), v);
  }

  lemma SaveIndexed(im: Image, f: nat, k: nat, v: nat)
    requires Sound(im) && f < |im.files| && NDIRECT <= k < NINDIRECT && Unlinked(im, v)
    requires im.files[f].indirect != 0
    ensures Saves(im, Save(im, f, k, v), f, k, v)
  {
    hide Sound;
    SetWordGood(im, f, k, v);
  }

  lemma SaveFresh(im: Image, f: nat, k: nat, v: nat)
    requires Sound(im) && f < |im.files| && NDIRECT <= k < NINDIRECT && Unlinked(im, v)
    requires im.files[f].indirect == 0 && im.nextbno < NBLOCK
    ensures Saves(im, Save(im, f, k, v), f, k, v)
  {
    hide Sound, Val;
    IndexGood(im, f);
    SetWordGood(Image(im.nextbno + 1, im.files[f := im.files[f].(indirect := im.nextbno)], im.disk), f, k, v);
  }

  // One link: the slot holds the new block, no other slot changes but the file's index block, and
  // the image stays sound.
  lemma LinkKeeps(im: Image, f: nat, k: nat, words: Block)
    requires Sound(im) && f < |im.files| && k < NINDIRECT && |words| == NINDIRECT
    requires Val(Served(im, 0), SlotOf(f, k)) == 0 && im.nextbno + LinkNeed(im, f, k) <= NBLOCK
    ensures var jm, s := Link(im, f, k, words), Served(im, 0);
      var t := Served(jm, 0);
      && Sound(jm) && jm.nextbno == im.nextbno + LinkNeed(im, f, k) && |jm.files| == |im.files|
      && Val(t, SlotOf(f, k)) == im.nextbno
      && (forall q :: q != SlotOf(f, k) && q != Indirect(f) ==> Val(t, q) == Val(s, q))
      && Val(t, Indirect(f)) == if MakesIndex(im, f, k) then im.nextbno + 1 else Val(s, Indirect(f))
  {
    hide Sound, Val, Save, Served;
    ValsFrom(im, words);
    SoundFrom(im);
    var i1, v := Image(im.nextbno + 1, im.files, im.disk[im.nextbno := words]), im.nextbno;
    if k < NDIRECT {
      SaveDirect(i1, f, k, v);
    } else if im.files[f].indirect == 0 {
      SaveFresh(i1, f, k, v);
    } else {
      SaveIndexed(i1, f, k, v);
    }
  }

  lemma SoundFrom(im: Image)
    requires Sound(im)
    ensures 3 <= im.nextbno
  {
  }

  datatype Op = NewFile | NewLink(f: nat, k: nat, words: Block)

  datatype Slotted = Slotted(f: nat, k: nat)

  // saved: every link made so far.
  datatype Build = Build(im: Image, saved: map<Slotted, nat>)

  ghost predicate Fits(b: Build, op: Op) {
    op.NewLink? ==>
      && op.f < |b.im.files| && op.k < NINDIRECT && |op.words| == NINDIRECT
      && Slotted(op.f, op.k) !in b.saved
      && b.im.nextbno + LinkNeed(b.im, op.f, op.k) <= NBLOCK
  }

  ghost function Apply(b: Build, op: Op): Build
    requires Fits(b, op)
  {
    match op
    case NewFile => b.(im := b.im.(files := b.im.files + [Inode(0, seq(NDIRECT, i => 0), 0)]))
    case NewLink(f, k, words) =>
      Build(Link(b.im, f, k, words), b.saved[Slotted(f, k) := b.im.nextbno])
  }

  // Some slot names block c.
  ghost predicate Named(s: FS, c: nat) { exists q :: Val(s, q) == c }

  // The image holds exactly the links that were made, and the blocks used are exactly the blocks
  // that some slot names.
  ghost predicate Faithful(b: Build) {
    var s := Served(b.im, 0);
    && Sound(b.im)
    && (forall f: nat, k: nat :: Slotted(f, k) in b.saved ==>
          k < NINDIRECT && Val(s, SlotOf(f, k)) == b.saved[Slotted(f, k)] != 0)
    && (forall f: nat, k: nat :: k < NINDIRECT && Slotted(f, k) !in b.saved ==> Val(s, SlotOf(f, k)) == 0)
    && (forall c: nat :: 3 <= c < b.im.nextbno ==> Named(s, c))
  }

  ghost predicate IsRun(b: Build, ops: seq<Op>)
    decreases |ops|
  {
    ops != [] ==> Fits(b, ops[0]) && IsRun(Apply(b, ops[0]), ops[1..])
  }

  ghost function Final(b: Build, ops: seq<Op>): Build
    requires IsRun(b, ops)
    decreases |ops|
  {
    if ops == [] then b else Final(Apply(b, ops[0]), ops[1..])
  }

  lemma NewFileKeeps(b: Build)
    requires Faithful(b)
    ensures Faithful(Apply(b, NewFile))
  {
    var c := Apply(b, NewFile);
    var s, t := Served(b.im, 0), Served(c.im, 0);
    forall q ensures Val(t, q) == Val(s, q) {}
    forall d: nat | 3 <= d < c.im.nextbno ensures Named(t, d) {
      assert Named(s, d);
      var q :| Val(s, q) == d;
      assert Val(t, q) == d;
    }
  }

  lemma NeedIs(im: Image, f: nat, k: nat)
    requires f < |im.files|
    ensures LinkNeed(im, f, k) == if MakesIndex(im, f, k) then 2 else 1
  {}

  lemma NewLinkKeeps(b: Build, op: Op)
    requires Faithful(b) && Fits(b, op) && op.NewLink?
    ensures Faithful(Apply(b, op))
  {
    hide Good, Link, LinkNeed;
    LinkKeeps(b.im, op.f, op.k, op.words);
    var c := Apply(b, op);
    var s, t := Served(b.im, 0), Served(c.im, 0);
    forall d: nat | 3 <= d < c.im.nextbno ensures Named(t, d) {
      if d < b.im.nextbno {
        assert Named(s, d);
        var q :| Val(s, q) == d;
        assert Val(t, q) == d;
      } else {
        assert Val(t, SlotOf(op.f, op.k)) == b.im.nextbno;
        assert d != b.im.nextbno ==> Val(t, Indirect(op.f)) == d by { NeedIs(b.im, op.f, op.k); }
      }
    }
  }

  lemma {:induction false} RunIsFaithful(b: Build, ops: seq<Op>)
    requires Faithful(b) && IsRun(b, ops)
    ensures Faithful(Final(b, ops))
    decreases |ops|
  {
    hide Faithful, Apply, Fits;
    if ops != [] {
      match ops[0] {
        case NewFile => NewFileKeeps(b);
        case NewLink(_, _, _) => NewLinkKeeps(b, ops[0]);
      }
      RunIsFaithful(Apply(b, ops[0]), ops[1..]);
    }
  }

  // The disk that init_disk leaves, with the root directory in its super block.
  function Empty(): Build { Build(Image(3, [Inode(0, seq(NDIRECT, i => 0), 0)], map[]), map[]) }

  lemma EmptyFaithful()
    ensures Faithful(Empty())
  {
    forall q ensures Val(Served(Empty().im, 0), q) == 0 {}
  }

  lemma UsedIs(s: FS, q: Slot)
    requires Good(s) && Val(s, q) != 0
    ensures InUse(s, Val(s, q))
  {}

  lemma WalkNeedsPage(s: FS, f: nat, k: nat)
    requires Good(s) && f < |s.files| && k < NINDIRECT && s.pages > 0
    ensures Walk(s, f, k, false).1.Ok? <==> !NeedsIndirect(s, f, k)
  {
    if s.files[f].indirect != 0 { assert Val(s, Indirect(f)) == s.files[f].indirect; }
  }

  lemma Serves(b: Build, pages: nat, f: nat, k: nat)
    requires Faithful(b) && pages > 0 && f < |b.im.files| && k < NINDIRECT
    ensures var s := Served(b.im, pages);
      && Good(s)
      && MapBlock(s, f, k, false).1
         == (if Slotted(f, k) in b.saved then Ok(b.saved[Slotted(f, k)]) else Err(E_NOT_FOUND))
      && (forall c: nat :: c < 2 + (NBLOCK / BLOCK_SIZE_BIT + 1) ==> InUse(s, c))
      && (forall c: nat :: 3 <= c < NBLOCK ==> (InUse(s, c) <==> Named(s, c)))
  {
    var s0, s := Served(b.im, 0), Served(b.im, pages);
    forall q ensures Val(s, q) == Val(s0, q) {}
    assert Good(s);
    hide Good;
    WalkFinds(s, f, k, false);
    assert Val(s, SlotOf(f, k)) == Val(s0, SlotOf(f, k));
    WalkNeedsPage(s, f, k);
    forall c: nat | 3 <= c < NBLOCK ensures InUse(s, c) <==> Named(s, c) {
      if InUse(s, c) {
        assert Named(s0, c);
        var q :| Val(s0, q) == c;
        assert Val(s, q) == c;
      }
      if Named(s, c) {
        var q :| Val(s, q) == c;
        UsedIs(s, q);
      }
    }
  }

  // Whatever was built within NBLOCK blocks: the server finds as block k of file f exactly the
  // block saved there, and nothing where nothing was saved; read_bitmap's assertions hold; and
  // no link is shared.
  lemma ServerReadsImage(ops: seq<Op>, pages: nat, f: nat, k: nat)
    requires IsRun(Empty(), ops) && pages > 0 && f < |Final(Empty(), ops).im.files| && k < NINDIRECT
    ensures var b := Final(Empty(), ops);
      var s := Served(b.im, pages);
      && Good(s)
      && MapBlock(s, f, k, false).1
         == (if Slotted(f, k) in b.saved then Ok(b.saved[Slotted(f, k)]) else Err(E_NOT_FOUND))
      && (forall c: nat :: c < 2 + (NBLOCK / BLOCK_SIZE_BIT + 1) ==> InUse(s, c))
      && (forall c: nat :: 3 <= c < NBLOCK ==> (InUse(s, c) <==> Named(s, c)))
  {
    EmptyFaithful();
    RunIsFaithful(Empty(), ops);
    hide IsRun, Final;
    Serves(Final(Empty(), ops), pages, f, k);
  }
}
