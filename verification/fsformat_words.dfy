// From the words the image builder was given to the words the server hands out.
module FsFormatWords {
  import opened Common
  import opened FsSpec
  import opened FsWords
  import opened FsFormat
  import opened FsFormatImage

  // The words of every block linked so far.
  ghost function Given(ops: seq<Op>, sofar: map<Slotted, Block>): map<Slotted, Block>
    decreases |ops|
  {
    if ops == [] then sofar
    else if ops[0].NewLink? then Given(ops[1..], sofar[Slotted(ops[0].f, ops[0].k) := ops[0].words])
    else Given(ops[1..], sofar)
  }

  ghost predicate StoredAt(b: Build, l: Slotted, words: Block) {
    && l in b.saved && l.f < |b.im.files| && l.k < NINDIRECT
    && b.saved[l] in b.im.disk && b.im.disk[b.saved[l]] == words
  }

  // Each saved block is on the disk as it was given.
  ghost predicate Stored(b: Build, given: map<Slotted, Block>) {
    given.Keys == b.saved.Keys && forall l :: l in given ==> StoredAt(b, l, given[l])
  }

  lemma SavedIs(b: Build, l: Slotted)
    requires Faithful(b) && l in b.saved
    ensures LinkIn(b.im, l.f, l.k) == b.saved[l] != 0 && Sound(b.im)
  {
    assert Slotted(l.f, l.k) == l;
  }

  // A link stores its own block and leaves those saved before.
  lemma LinkStores(b: Build, op: Op, l: Slotted, words: Block)
    requires Faithful(b) && Fits(b, op) && op.NewLink?
    ensures StoredAt(Apply(b, op), Slotted(op.f, op.k), op.words)
    ensures StoredAt(b, l, words) && l != Slotted(op.f, op.k) ==> StoredAt(Apply(b, op), l, words)
  {
    assert Sound(b.im);
    LinkData(b.im, op.f, op.k, op.words);
    LinkKeeps(b.im, op.f, op.k, op.words);
    hide Link, Sound, Val, LinkNeed;
    if StoredAt(b, l, words) && l != Slotted(op.f, op.k) {
      SavedIs(b, l);
      hide Faithful;
      SlotApart(b.im, op.f, l.f, l.k);
    }
  }

  lemma SavedKeys(b: Build, op: Op)
    requires Fits(b, op) && op.NewLink?
    ensures Apply(b, op).saved.Keys == b.saved.Keys + {Slotted(op.f, op.k)}
  {
    hide Link, LinkNeed;
  }

  lemma NewLinkStored(b: Build, op: Op, given: map<Slotted, Block>)
    requires Faithful(b) && Fits(b, op) && op.NewLink? && Stored(b, given)
    ensures Stored(Apply(b, op), given[Slotted(op.f, op.k) := op.words])
  {
    SavedKeys(b, op);
    hide Faithful, Fits, Apply, StoredAt;
    var link := Slotted(op.f, op.k);
    var more := given[link := op.words];
    forall l | l in more ensures StoredAt(Apply(b, op), l, more[l]) {
      LinkStores(b, op, l, if l == link then op.words else given[l]);
    }
  }

  lemma {:induction false} RunStored(b: Build, ops: seq<Op>, given: map<Slotted, Block>)
    requires Faithful(b) && IsRun(b, ops) && Stored(b, given)
    ensures Stored(Final(b, ops), Given(ops, given))
    decreases |ops|
  {
    hide Faithful, Fits, Link, LinkNeed;
    if ops != [] {
      match ops[0] {
        case NewFile =>
          NewFileKeeps(b);
          RunStored(Apply(b, ops[0]), ops[1..], given);
        case NewLink(f, k, words) =>
          NewLinkKeeps(b, ops[0]);
          NewLinkStored(b, ops[0], given);
          RunStored(Apply(b, ops[0]), ops[1..], given[Slotted(f, k) := words]);
      }
    }
  }

  // Block k of file f of any sound image, through the server: its number and its words.
  lemma ImageReads(im: Image, pages: nat, f: nat, k: nat)
    requires Sound(im) && pages >= 2 && f < |im.files| && k < NINDIRECT && LinkIn(im, f, k) != 0
    ensures var (t, r), v := GetBlock(Served(im, pages), f, k), LinkIn(im, f, k);
      r == Ok(v) && v in t.cache && FromDisk(Served(im, pages), v, t.cache[v])
  {
    var s0, s := Served(im, 0), Served(im, pages);
    forall q ensures Val(s, q) == Val(s0, q) {}
    assert Good(s);
    hide Good;
    GetBlockReads(s, f, k);
  }

  // Whatever was built within NBLOCK blocks: file_get_block of block k of file f hands out the very
  // words that were given for it.
  lemma ServerReadsWords(ops: seq<Op>, pages: nat, f: nat, k: nat)
    requires IsRun(Empty(), ops) && pages >= 2 && Slotted(f, k) in Given(ops, map[])
    ensures var im := Final(Empty(), ops).im;
      && f < |im.files|
      && var (t, r) := GetBlock(Served(im, pages), f, k);
      r.Ok? && r.v in t.cache && t.cache[r.v] == Given(ops, map[])[Slotted(f, k)]
  {
    EmptyFaithful();
    RunIsFaithful(Empty(), ops);
    RunStored(Empty(), ops, map[]);
    var b, l := Final(Empty(), ops), Slotted(f, k);
    assert StoredAt(b, l, Given(ops, map[])[l]);
    hide IsRun, Final, Given;
    SavedIs(b, l);
    ImageReads(b.im, pages, f, k);
    SoundSizes(b.im, b.saved[l]);
  }

  lemma SoundSizes(im: Image, v: nat)
    requires Sound(im) && v in im.disk
    ensures |im.disk[v]| == NINDIRECT
  {
  }
}
