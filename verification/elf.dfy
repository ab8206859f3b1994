// Loading an ELF segment (lib/elfloader.c) with the kernel's mapper, which puts a fresh zeroed page
// in place of whatever was mapped (kern/env.c).
module Elf {
  import opened Common

  type Page = seq<int>

  // One call of map_page: src is where in the file the bytes come from.
  datatype Call = Call(addr: nat, off: nat, src: Option<nat>, len: nat)

  function Min(a: nat, b: nat): nat { if a < b then a else b }

  function Offset(va: nat): nat { va % PAGE_SIZE }

  // The calls of the first loop, from i on, and where it leaves i.
  function FileCalls(va: nat, filesz: nat, i: nat): seq<Call>
    decreases filesz - i
  {
    if i >= filesz then []
    else [Call(va + i, 0, Some(i), Min(filesz - i, PAGE_SIZE))] + FileCalls(va, filesz, i + PAGE_SIZE)
  }

  function FileEnd(filesz: nat, i: nat): nat
    decreases filesz - i
  {
    if i >= filesz then i else FileEnd(filesz, i + PAGE_SIZE)
  }

  function ZeroCalls(va: nat, memsz: nat, i: nat): seq<Call>
    decreases memsz - i
  {
    if i >= memsz then [] else [Call(va + i, 0, None, Min(memsz - i, PAGE_SIZE))] + ZeroCalls(va, memsz, i + PAGE_SIZE)
  }

  function FirstLen(va: nat, filesz: nat): nat {
    if Offset(va) != 0 then Min(filesz, PAGE_SIZE - Offset(va)) else 0
  }

  function FirstCalls(va: nat, filesz: nat): seq<Call> {
    if Offset(va) != 0 then [Call(va, Offset(va), Some(0), FirstLen(va, filesz))] else []
  }

  function Calls(va: nat, filesz: nat, memsz: nat): seq<Call> {
    var i := FirstLen(va, filesz);
    FirstCalls(va, filesz) + FileCalls(va, filesz, i) + ZeroCalls(va, memsz, FileEnd(filesz, i))
  }

  // The page that a call leaves behind, byte by byte.
  function ByteOf(bin: seq<int>, c: Call, k: nat): int {
    if c.src.Some? && c.off <= k < c.off + c.len && c.src.value + (k - c.off) < |bin|
    then bin[c.src.value + (k - c.off)] else 0
  }

  function PageOf(bin: seq<int>, c: Call): Page { seq(PAGE_SIZE, (k: nat) => ByteOf(bin, c, k)) }

  // Memory and the pages mapped so far, in order.
  datatype Space = Space(pages: map<nat, Page>, log: seq<nat>)

  function Map(s: Space, bin: seq<int>, c: Call): Space {
    var vpn := c.addr / PAGE_SIZE;
    Space(s.pages[vpn := PageOf(bin, c)], s.log + [vpn])
  }

  function MapAll(s: Space, bin: seq<int>, cs: seq<Call>): Space
    decreases |cs|
  {
    if cs == [] then s else MapAll(Map(s, bin, cs[0]), bin, cs[1..])
  }

  // What the segment asks for at address a: the file's bytes, then zeros (TIS ELF specification,
  // Program Header).
  function Want(va: nat, bin: seq<int>, a: nat): int { if va <= a < va + |bin| then bin[a - va] else 0 }

  function WantPage(va: nat, bin: seq<int>, vpn: nat): Page {
    seq(PAGE_SIZE, (k: nat) => Want(va, bin, vpn * PAGE_SIZE + k))
  }

  // How many pages meet [va, va + memsz).
  function PageCount(va: nat, memsz: nat): nat {
    if memsz == 0 then 0 else (va + memsz - 1) / PAGE_SIZE - va / PAGE_SIZE + 1
  }

  // The next call maps the next page, as asked.
  predicate Next(va: nat, bin: seq<int>, n: nat, c: Call) {
    c.addr / PAGE_SIZE == va / PAGE_SIZE + n && PageOf(bin, c) == WantPage(va, bin, va / PAGE_SIZE + n)
  }

  function Pages(va: nat, bin: seq<int>, n: nat): map<nat, Page> {
    map v | va / PAGE_SIZE <= v < va / PAGE_SIZE + n :: WantPage(va, bin, v)
  }

  function Numbers(first: nat, n: nat): seq<nat> { seq(n, k => first + k) }

  // The first n pages of the segment, each mapped once and as asked, and nothing else.
  ghost predicate Mapped(s: Space, t: Space, va: nat, bin: seq<int>, n: nat) {
    && t.pages == s.pages + Pages(va, bin, n)
    && t.log == s.log + Numbers(va / PAGE_SIZE, n)
  }

  ghost predicate Loaded(s: Space, t: Space, va: nat, bin: seq<int>, memsz: nat) {
    Mapped(s, t, va, bin, PageCount(va, memsz))
  }

  lemma PagesNext(va: nat, bin: seq<int>, n: nat)
    ensures var v := va / PAGE_SIZE + n; Pages(va, bin, n + 1) == Pages(va, bin, n)[v := WantPage(va, bin, v)]
    ensures Numbers(va / PAGE_SIZE, n + 1) == Numbers(va / PAGE_SIZE, n) + [va / PAGE_SIZE + n]
  {
    hide WantPage;
  }

  lemma MapNext(s: Space, t: Space, va: nat, bin: seq<int>, n: nat, c: Call)
    requires Mapped(s, t, va, bin, n) && Next(va, bin, n, c)
    ensures Mapped(s, Map(t, bin, c), va, bin, n + 1)
  {
    hide WantPage, PageOf, Pages, Numbers;
    PagesNext(va, bin, n);
  }

  lemma SamePage(va: nat, bin: seq<int>, v: nat, c: Call)
    requires forall k: nat :: k < PAGE_SIZE ==> ByteOf(bin, c, k) == Want(va, bin, v * PAGE_SIZE + k)
    ensures PageOf(bin, c) == WantPage(va, bin, v)
  {}

  lemma NextFirst(va: nat, bin: seq<int>)
    requires Offset(va) != 0
    ensures Next(va, bin, 0, Call(va, Offset(va), Some(0), FirstLen(va, |bin|)))
  {
    var c := Call(va, Offset(va), Some(0), FirstLen(va, |bin|));
    var v := va / PAGE_SIZE;
    assert va == v * PAGE_SIZE + Offset(va);
    SamePage(va, bin, v, c);
  }

  lemma NextFile(va: nat, bin: seq<int>, i: nat, n: nat)
    requires (va + i) % PAGE_SIZE == 0 && i < |bin| && va / PAGE_SIZE + n == (va + i) / PAGE_SIZE
    ensures Next(va, bin, n, Call(va + i, 0, Some(i), Min(|bin| - i, PAGE_SIZE)))
  {
    var c := Call(va + i, 0, Some(i), Min(|bin| - i, PAGE_SIZE));
    var v := (va + i) / PAGE_SIZE;
    assert va + i == v * PAGE_SIZE;
    SamePage(va, bin, v, c);
  }

  lemma NextZero(va: nat, bin: seq<int>, i: nat, n: nat, len: nat)
    requires (va + i) % PAGE_SIZE == 0 && i >= |bin| && va / PAGE_SIZE + n == (va + i) / PAGE_SIZE
    ensures Next(va, bin, n, Call(va + i, 0, None, len))
  {
    var v := (va + i) / PAGE_SIZE;
    assert va + i == v * PAGE_SIZE;
    SamePage(va, bin, v, Call(va + i, 0, None, len));
  }

  // i stands at a page boundary, behind the n pages mapped so far.
  predicate At(va: nat, i: nat, n: nat) { (va + i) % PAGE_SIZE == 0 && va / PAGE_SIZE + n == (va + i) / PAGE_SIZE }

  lemma {:induction false} FileLoads(s: Space, t: Space, va: nat, bin: seq<int>, i: nat, n: nat) returns (m: nat)
    requires Mapped(s, t, va, bin, n) && At(va, i, n)
    ensures var e := FileEnd(|bin|, i); e >= |bin| && (e < |bin| + PAGE_SIZE || e == i) && At(va, e, m)
    ensures Mapped(s, MapAll(t, bin, FileCalls(va, |bin|, i)), va, bin, m)
    decreases |bin| - i
  {
    hide Mapped, Next, PageOf;
    if i >= |bin| {
      m := n;
    } else {
      var c := Call(va + i, 0, Some(i), Min(|bin| - i, PAGE_SIZE));
      NextFile(va, bin, i, n);
      MapNext(s, t, va, bin, n, c);
      m := FileLoads(s, Map(t, bin, c), va, bin, i + PAGE_SIZE, n + 1);
      var rest := FileCalls(va, |bin|, i + PAGE_SIZE);
      assert ([c] + rest)[1..] == rest;
    }
  }

  lemma {:induction false} ZerosLoad(s: Space, t: Space, va: nat, bin: seq<int>, memsz: nat, i: nat, n: nat)
    returns (m: nat)
    requires Mapped(s, t, va, bin, n) && At(va, i, n) && i >= |bin|
    ensures m * PAGE_SIZE - va % PAGE_SIZE >= memsz
    ensures m * PAGE_SIZE - va % PAGE_SIZE < memsz + PAGE_SIZE || m == n
    ensures Mapped(s, MapAll(t, bin, ZeroCalls(va, memsz, i)), va, bin, m)
    decreases memsz - i
  {
    hide Mapped, Next, PageOf;
    if i >= memsz {
      m := n;
    } else {
      var c := Call(va + i, 0, None, Min(memsz - i, PAGE_SIZE));
      NextZero(va, bin, i, n, c.len);
      MapNext(s, t, va, bin, n, c);
      m := ZerosLoad(s, Map(t, bin, c), va, bin, memsz, i + PAGE_SIZE, n + 1);
      var rest := ZeroCalls(va, memsz, i + PAGE_SIZE);
      assert ([c] + rest)[1..] == rest;
    }
  }

  lemma {:induction false} MapAllJoins(s: Space, bin: seq<int>, a: seq<Call>, b: seq<Call>)
    ensures MapAll(s, bin, a + b) == MapAll(MapAll(s, bin, a), bin, b)
    decreases |a|
  {
    if a == [] {
      assert a + b == b;
    } else {
      assert (a + b)[1..] == a[1..] + b;
      MapAllJoins(Map(s, bin, a[0]), bin, a[1..], b);
    }
  }

  lemma {:induction false} LogOf(s: Space, bin: seq<int>, cs: seq<Call>)
    ensures var t := MapAll(s, bin, cs);
      |t.log| == |s.log| + |cs| && t.log[..|s.log|] == s.log
      && forall k :: 0 <= k < |cs| ==> t.log[|s.log| + k] == cs[k].addr / PAGE_SIZE
    decreases |cs|
  {
    if cs != [] {
      var s1 := Map(s, bin, cs[0]);
      LogOf(s1, bin, cs[1..]);
      var t := MapAll(s, bin, cs);
      assert t.log[..|s1.log|] == s1.log;
      forall k | 0 <= k < |cs| ensures t.log[|s.log| + k] == cs[k].addr / PAGE_SIZE {
        if k > 0 { assert t.log[|s1.log| + (k - 1)] == cs[1..][k - 1].addr / PAGE_SIZE; }
      }
    }
  }

  // The condition under which the loops stay on page boundaries.
  predicate Loadable(va: nat, filesz: nat, memsz: nat) {
    Offset(va) == 0 || (memsz > 0 && (Offset(va) + filesz >= PAGE_SIZE || filesz == memsz))
  }

  lemma FirstLoads(s: Space, va: nat, bin: seq<int>)
    ensures Mapped(s, MapAll(s, bin, FirstCalls(va, |bin|)), va, bin, if Offset(va) != 0 then 1 else 0)
  {
    hide PageOf, WantPage, Next;
    assert Mapped(s, s, va, bin, 0);
    hide Mapped;
    if Offset(va) != 0 {
      NextFirst(va, bin);
      var c := FirstCalls(va, |bin|)[0];
      MapNext(s, s, va, bin, 0, c);
      assert FirstCalls(va, |bin|) == [c];
      assert MapAll(Map(s, bin, c), bin, []) == Map(s, bin, c);
    }
  }

  lemma NoCalls(s: Space, bin: seq<int>)
    ensures MapAll(s, bin, []) == s
  {}

  lemma CountIs(va: nat, memsz: nat, l: nat)
    requires memsz <= l * PAGE_SIZE - va % PAGE_SIZE < memsz + PAGE_SIZE
    requires memsz > 0 || va % PAGE_SIZE == 0
    ensures PageCount(va, memsz) == l
  {}

  lemma LoadsRight(s: Space, va: nat, bin: seq<int>, memsz: nat)
    requires |bin| <= memsz && Loadable(va, |bin|, memsz)
    ensures Loaded(s, MapAll(s, bin, Calls(va, |bin|, memsz)), va, bin, memsz)
  {
    hide PageOf, WantPage, Mapped, MapAll, FirstCalls;
    var first, i := FirstCalls(va, |bin|), FirstLen(va, |bin|);
    var file, zeros := FileCalls(va, |bin|, i), ZeroCalls(va, memsz, FileEnd(|bin|, i));
    MapAllJoins(s, bin, first + file, zeros);
    MapAllJoins(s, bin, first, file);
    FirstLoads(s, va, bin);
    var t := MapAll(s, bin, first);
    if Offset(va) == 0 || Offset(va) + |bin| >= PAGE_SIZE {
      hide FileCalls, ZeroCalls, FileEnd;
      var m := FileLoads(s, t, va, bin, i, if Offset(va) != 0 then 1 else 0);
      var l := ZerosLoad(s, MapAll(t, bin, file), va, bin, memsz, FileEnd(|bin|, i), m);
      CountIs(va, memsz, l);
    } else {
      assert file == [] && zeros == [];
      NoCalls(t, bin);
    }
  }

  // Otherwise the page with the file's bytes is mapped again, over them.
  lemma MapsTwice(va: nat, filesz: nat, memsz: nat)
    requires filesz <= memsz && !Loadable(va, filesz, memsz)
    ensures var cs := Calls(va, filesz, memsz);
      if memsz == 0 then |cs| == 1 else |cs| >= 2 && cs[1].addr / PAGE_SIZE == va / PAGE_SIZE && cs[1].src == None
  {
    if memsz > 0 {
      assert ZeroCalls(va, memsz, filesz)[0].addr == va + filesz;
      assert FileCalls(va, filesz, filesz) == [];
    }
  }

  // elf_load_seg loads a segment as asked, every page once, if and only if its start is page
  // aligned, or its file part fills the first page, or memory ends where the file does.
  lemma LoadsExactly(s: Space, va: nat, bin: seq<int>, memsz: nat)
    requires |bin| <= memsz
    ensures Loaded(s, MapAll(s, bin, Calls(va, |bin|, memsz)), va, bin, memsz) <==> Loadable(va, |bin|, memsz)
  {
    if Loadable(va, |bin|, memsz) {
      LoadsRight(s, va, bin, memsz);
    } else {
      var cs := Calls(va, |bin|, memsz);
      LogOf(s, bin, cs);
      var t, n := MapAll(s, bin, cs), PageCount(va, memsz);
      MapsTwice(va, |bin|, memsz);
      var k := |s.log| + 1;
      assert memsz > 0 ==> t.log[k] == va / PAGE_SIZE;
      assert memsz == 0 ==> |t.log| == k;
      assert memsz > 0 && n >= 2 ==> Numbers(va / PAGE_SIZE, n)[1] == va / PAGE_SIZE + 1;
    }
  }

  // The calls still to come while the first loop stands at i.
  function LoopCalls(va: nat, filesz: nat, memsz: nat, i: nat): seq<Call> {
    FileCalls(va, filesz, i) + ZeroCalls(va, memsz, FileEnd(filesz, i))
  }

  // The calls made, those still to make, and memory now.
  ghost predicate Progress(s: Space, bin: seq<int>, cs: seq<Call>, done: seq<Call>, rest: seq<Call>, now: Space) {
    cs == done + rest && now == MapAll(s, bin, done)
  }

  lemma CallsStart(s: Space, va: nat, bin: seq<int>, memsz: nat)
    ensures var cs, offset, len := Calls(va, |bin|, memsz), va % PAGE_SIZE, FirstLen(va, |bin|);
      && len == (if offset == 0 then 0 else if |bin| < PAGE_SIZE - offset then |bin| else PAGE_SIZE - offset)
      && Progress(s, bin, cs, [], 
                  (if offset != 0 then [Call(va, offset, Some(0), len)] else []) + LoopCalls(va, |bin|, memsz, len), s)
    ensures va % PAGE_SIZE == 0 ==>
      Progress(s, bin, Calls(va, |bin|, memsz), [], LoopCalls(va, |bin|, memsz, 0), s)
  {}

  lemma LoopNext(va: nat, filesz: nat, memsz: nat, i: nat)
    ensures i >= filesz ==> LoopCalls(va, filesz, memsz, i) == ZeroCalls(va, memsz, i)
    ensures i < filesz ==>
      var len := if filesz - i < PAGE_SIZE then filesz - i else PAGE_SIZE;
      LoopCalls(va, filesz, memsz, i) == [Call(va + i, 0, Some(i), len)] + LoopCalls(va, filesz, memsz, i + PAGE_SIZE)
  {}

  lemma ZeroNext(va: nat, memsz: nat, i: nat)
    ensures i >= memsz ==> ZeroCalls(va, memsz, i) == []
    ensures i < memsz ==>
      var len := if memsz - i < PAGE_SIZE then memsz - i else PAGE_SIZE;
      ZeroCalls(va, memsz, i) == [Call(va + i, 0, None, len)] + ZeroCalls(va, memsz, i + PAGE_SIZE)
  {}

  lemma Advance(s: Space, bin: seq<int>, cs: seq<Call>, done: seq<Call>, c: Call, rest: seq<Call>, now: Space)
    requires Progress(s, bin, cs, done, [c] + rest, now)
    ensures Progress(s, bin, cs, done + [c], rest, Map(now, bin, c))
  {
    MapAllJoins(s, bin, done, [c]);
    assert done + ([c] + rest) == done + [c] + rest;
    assert MapAll(now, bin, [c]) == Map(now, bin, c) by { assert [c][1..] == []; }
  }

  lemma Ends(s: Space, bin: seq<int>, cs: seq<Call>, done: seq<Call>, rest: seq<Call>, now: Space, f0: nat)
    requires Progress(s, bin, cs, done, rest, now)
    requires if rest == [] then f0 >= |done| else f0 == |done|
    ensures var n := Min(f0, |cs|); now == MapAll(s, bin, cs[..n]) && (n == |cs| <==> rest == [])
    ensures rest == [] ==> now == MapAll(s, bin, cs)
  {
    assert cs[..|done|] == done;
    if rest == [] { assert cs == done; }
  }

  // The mapper and the loader, with frames pages left to allocate.
  class Loader {
    var pages: map<nat, Page>
    var log: seq<nat>
    var frames: nat

    ghost function Snap(): Space
      reads this
    {
      Space(pages, log)
    }

    // load_icode_mapper
    method MapPage(bin: seq<int>, addr: nat, off: nat, src: Option<nat>, len: nat) returns (ok: bool)
      requires off + len <= PAGE_SIZE && (src.Some? ==> src.value + len <= |bin|)
      modifies this
      ensures ok <==> old(frames) > 0
      ensures Snap() == if ok then Map(old(Snap()), bin, Call(addr, off, src, len)) else old(Snap())
      ensures frames == if ok then old(frames) - 1 else old(frames)
    {
      if frames == 0 {
        return false;
      }
      var c := Call(addr, off, src, len);
      var page := seq(PAGE_SIZE, i => 0);
      if src.Some? {
        page := page[..off] + bin[src.value..src.value + len] + page[off + len..];
      }
      assert page == PageOf(bin, c);
      pages := pages[addr / PAGE_SIZE := page];
      log := log + [addr / PAGE_SIZE];
      frames := frames - 1;
      ok := true;
    }

    // Step 1 of elf_load_seg, from i0 on. cs are all the calls of the segment, done those made.
    method FilePages(va: nat, bin: seq<int>, memsz: nat, i0: nat, ghost s: Space, ghost cs: seq<Call>,
                     ghost done0: seq<Call>)
      returns (ok: bool, i: nat, ghost done: seq<Call>, ghost rest: seq<Call>)
      requires Progress(s, bin, cs, done0, LoopCalls(va, |bin|, memsz, i0), Snap())
      modifies this
      ensures Progress(s, bin, cs, done, rest, Snap()) && frames + |done| == old(frames) + |done0|
      ensures if ok then rest == ZeroCalls(va, memsz, i) else frames == 0 && rest != []
    {
      assert PAGE_SIZE > 0;
      hide *;
      i, done := i0, done0;
      while i < |bin|
        invariant Progress(s, bin, cs, done, LoopCalls(va, |bin|, memsz, i), Snap())
        invariant frames + |done| == old(frames) + |done0|
        decreases |bin| - i
      {
        LoopNext(va, |bin|, memsz, i);
        ghost var now := Snap();
        rest := LoopCalls(va, |bin|, memsz, i + PAGE_SIZE);
        var len := if |bin| - i < PAGE_SIZE then |bin| - i else PAGE_SIZE;
        ok := MapPage(bin, va + i, 0, Some(i), len);
        ghost var c := Call(va + i, 0, Some(i), len);
        if !ok {
          rest := [c] + rest;
          return;
        }
        Advance(s, bin, cs, done, c, rest, now);
        done := done + [c];
        i := i + PAGE_SIZE;
      }
      LoopNext(va, |bin|, memsz, i);
      ok, rest := true, ZeroCalls(va, memsz, i);
    }

    // Step 2: zero pages up to memsz.
    method ZeroPages(va: nat, bin: seq<int>, memsz: nat, i0: nat, ghost s: Space, ghost cs: seq<Call>,
                     ghost done0: seq<Call>)
      returns (ok: bool, ghost done: seq<Call>, ghost rest: seq<Call>)
      requires Progress(s, bin, cs, done0, ZeroCalls(va, memsz, i0), Snap())
      modifies this
      ensures Progress(s, bin, cs, done, rest, Snap()) && frames + |done| == old(frames) + |done0|
      ensures if ok then rest == [] else frames == 0 && rest != []
    {
      assert PAGE_SIZE > 0;
      hide *;
      var i := i0;
      done := done0;
      while i < memsz
        invariant Progress(s, bin, cs, done, ZeroCalls(va, memsz, i), Snap())
        invariant frames + |done| == old(frames) + |done0|
        decreases memsz - i
      {
        ZeroNext(va, memsz, i);
        ghost var now := Snap();
        rest := ZeroCalls(va, memsz, i + PAGE_SIZE);
        var len := if memsz - i < PAGE_SIZE then memsz - i else PAGE_SIZE;
        ok := MapPage(bin, va + i, 0, None, len);
        ghost var c := Call(va + i, 0, None, len);
        if !ok {
          rest := [c] + rest;
          return;
        }
        Advance(s, bin, cs, done, c, rest, now);
        done := done + [c];
        i := i + PAGE_SIZE;
      }
      ZeroNext(va, memsz, i);
      ok, rest := true, [];
    }

    // Stops at the first call that gets no frame; the pages mapped until then stay.
    method LoadSegment(va: nat, bin: seq<int>, memsz: nat) returns (ok: bool)
      requires |bin| <= memsz
      modifies this
      ensures var cs, n := Calls(va, |bin|, memsz), Min(old(frames), |Calls(va, |bin|, memsz)|);
        && (ok <==> n == |cs|)
        && Snap() == MapAll(old(Snap()), bin, cs[..n])
        && (ok ==> (Loaded(old(Snap()), Snap(), va, bin, memsz) <==> Loadable(va, |bin|, memsz)))
    {
      assert PAGE_SIZE > 0;
      hide *;
      ghost var s, cs, f0 := Snap(), Calls(va, |bin|, memsz), frames;
      ghost var done: seq<Call>, rest: seq<Call> := [], [];
      LoadsExactly(s, va, bin, memsz);
      CallsStart(s, va, bin, memsz);
      var binSize, offset := |bin|, va % PAGE_SIZE;
      var i: nat := 0;
      if offset != 0 {
        i := if binSize < PAGE_SIZE - offset then binSize else PAGE_SIZE - offset;
        ok := MapPage(bin, va, offset, Some(0), i);
        ghost var c := Call(va, offset, Some(0), i);
        if !ok {
          Ends(s, bin, cs, [], [c] + LoopCalls(va, binSize, memsz, i), s, f0);
          return;
        }
        Advance(s, bin, cs, [], c, LoopCalls(va, binSize, memsz, i), s);
        done := [] + [c];
      }
      ok, i, done, rest := FilePages(va, bin, memsz, i, s, cs, done);
      if ok {
        ok, done, rest := ZeroPages(va, bin, memsz, i, s, cs, done);
      }
      Ends(s, bin, cs, done, rest, Snap(), f0);
    }
  }
}
