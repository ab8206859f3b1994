// The memory that copy-on-write fork implements: every env has pages of its own, fork copies a
// page when it hands it to the child, and only PTE_LIBRARY pages are shared. Every interleaving
// of user/lib/fork.c with stores and mapping calls reads the same bytes as this memory.
module CowRefines {
  import opened Common
  import opened Cow

  // share names the object that all the PTE_LIBRARY copies of a page stand for.
  datatype Page = Page(bytes: seq<int>, writable: bool, share: Option<nat>)

  type Memory = map<Loc, Page>

  datatype Event =
    | Stutter
    | Copy(p: nat, c: nat, v: nat)
    | Store(e: nat, v: nat, i: nat, b: int)
    | Fresh(e: nat, v: nat, page: Page)
    | Drop(e: nat, v: nat)
    | Leave(e: nat)

  predicate SamePage(t: Memory, l: Loc, k: Loc)
    requires l in t && k in t
  {
    k == l || (t[l].share.Some? && t[k].share == t[l].share)
  }

  function Happens(t: Memory, ev: Event): Memory {
    match ev
    case Stutter => t
    case Copy(p, c, v) => if Loc(p, v) in t then t[Loc(c, v) := t[Loc(p, v)]] else t
    case Store(e, v, i, b) =>
      var l := Loc(e, v);
      if l in t && t[l].writable && i < |t[l].bytes| then
        map k | k in t :: if SamePage(t, l, k) then t[k].(bytes := t[l].bytes[i := b]) else t[k]
      else t
    case Fresh(e, v, page) => t[Loc(e, v) := page]
    case Drop(e, v) => t - {Loc(e, v)}
    case Leave(e) => map k | k in t && k.env != e :: t[k]
  }

  // The spec's view of a step: a page that is split is copied when its duppage completes.
  function Meaning(s: State, step: Step): Event
    requires Inv(s) && Enabled(s, step)
  {
    match step
    case Begin(_, _) => Stutter
    case MapChild(p, v) => if Splits(s.m[Loc(p, v)]) then Stutter else Copy(p, s.fork[p], v)
    case Remap(p) => assert PendOk(s, p); Copy(p, s.fork[p], s.pend[p])
    case End(_) => Stutter
    case Write(e, v, i, b, _) => Store(e, v, i, b)
    case Alloc(e, v, d, lib, nf) => Fresh(e, v, Page(Blank(), d, if lib then Some(nf) else None))
    case Unmap(e, v) => Drop(e, v)
    case Exit(e) => Leave(e)
  }

  // The child's mapping of a page midway is not part of its memory yet.
  ghost predicate Hidden(s: State, l: Loc) {
    exists p :: p in s.pend && p in s.fork && l == Loc(s.fork[p], s.pend[p])
  }

  function View(s: State, l: Loc): Page
    requires l in s.m && s.m[l].frame in s.data
  {
    var p := s.m[l];
    Page(s.data[p.frame], p.d || p.cow, if p.lib then Some(p.frame) else None)
  }

  ghost function Abs(s: State): Memory
    requires Sane(s)
  {
    map l | l in s.m && !Hidden(s, l) :: View(s, l)
  }

  // Envs that may run see every page they map.
  lemma ActiveShows(s: State, l: Loc)
    requires Forks(s) && l.env in s.active
    ensures !Hidden(s, l)
  {}

  lemma AbsAt(s: State, l: Loc)
    requires Sane(s)
    ensures l in Abs(s) <==> l in s.m && !Hidden(s, l)
    ensures l in Abs(s) ==> Abs(s)[l] == View(s, l)
  {
    hide Hidden;
  }

  // Same mappings, same bytes, same pages hidden.
  lemma SameView(s: State, t: State)
    requires Sane(s) && Sane(t) && t.data == s.data && forall l :: Hidden(s, l) <==> Hidden(t, l)
    requires forall l :: (l in t.m <==> l in s.m) && (l in s.m ==> View(t, l) == View(s, l))
    ensures Abs(t) == Abs(s)
  {
    hide Hidden, View;
  }

  // One mapping that shows is put in place; the other pages' frames keep their bytes.
  lemma PutView(s: State, t: State, l: Loc, pte: Pte)
    requires Sane(s) && Sane(t) && t.m == s.m[l := pte] && !Hidden(t, l)
    requires forall k :: k in s.m && k != l ==>
               && (Hidden(s, k) <==> Hidden(t, k))
               && s.m[k].frame in t.data && t.data[s.m[k].frame] == s.data[s.m[k].frame]
    ensures Abs(t) == Abs(s)[l := View(t, l)]
  {
    hide Hidden;
  }

  // One mapping that does not show is put in place.
  lemma HideView(s: State, t: State, l: Loc, pte: Pte)
    requires Sane(s) && Sane(t) && t.m == s.m[l := pte] && t.data == s.data && l !in s.m && Hidden(t, l)
    requires forall k :: k in s.m && k != l ==> (Hidden(s, k) <==> Hidden(t, k))
    ensures Abs(t) == Abs(s)
  {
    hide Hidden;
  }

  // Duppage of a page that is split hides the child's copy; of any other page, it shows it.
  lemma MapChildHides(s: State, step: Step)
    requires Inv(s) && Enabled(s, step) && step.MapChild?
    ensures var l := Loc(s.fork[step.p], step.v); Hidden(Act(s, step), l) <==> Splits(s.m[Loc(step.p, step.v)])
    ensures forall l :: l != Loc(s.fork[step.p], step.v) ==> (Hidden(s, l) <==> Hidden(Act(s, step), l))
  {
    var t, c := Act(s, step), s.fork[step.p];
    if Splits(s.m[Loc(step.p, step.v)]) {
      assert step.p in t.pend && t.fork[step.p] == c;
      assert Hidden(t, Loc(c, step.v));
    }
    forall l | l != Loc(c, step.v) ensures Hidden(s, l) <==> Hidden(t, l) {
      if p :| p in s.pend && p in s.fork && l == Loc(s.fork[p], s.pend[p]) {
        assert t.pend[p] == s.pend[p] && p in t.fork;
      }
    }
  }

  lemma MapChildMeans(s: State, step: Step)
    requires Inv(s) && Enabled(s, step) && step.MapChild? && Inv(Act(s, step))
    ensures Abs(Act(s, step)) == Happens(Abs(s), Meaning(s, step))
  {
    hide Hidden, Exclusive, Bits, Forks, Abs;
    var l, k, t := Loc(step.p, step.v), Loc(s.fork[step.p], step.v), Act(s, step);
    ForkerShows(s, step.p, step.v);
    AbsAt(s, l);
    MapChildHides(s, step);
    if Splits(s.m[l]) {
      HideView(s, t, k, t.m[k]);
    } else {
      PutView(s, t, k, t.m[k]);
    }
  }

  lemma ForkerShows(s: State, p: nat, v: nat)
    requires Forks(s) && p in s.fork
    ensures !Hidden(s, Loc(p, v))
  {
    ActiveShows(s, Loc(p, v));
  }

  // The second half of duppage shows the child's copy.
  lemma RemapShows(s: State, step: Step)
    requires Inv(s) && Enabled(s, step) && step.Remap?
    ensures var p := step.p; p in s.fork && !Hidden(Act(s, step), Loc(s.fork[p], s.pend[p]))
    ensures var p := step.p; forall l :: l != Loc(s.fork[p], s.pend[p]) ==> (Hidden(s, l) <==> Hidden(Act(s, step), l))
  {
    var t, p := Act(s, step), step.p;
    assert PendOk(s, p);
    forall l | l != Loc(s.fork[p], s.pend[p]) ensures Hidden(s, l) <==> Hidden(t, l) {
      if q :| q in s.pend && q in s.fork && l == Loc(s.fork[q], s.pend[q]) {
        assert q in t.pend && q in t.fork;
      }
    }
  }

  lemma RemapMeans(s: State, step: Step)
    requires Inv(s) && Enabled(s, step) && step.Remap? && Inv(Act(s, step))
    ensures Abs(Act(s, step)) == Happens(Abs(s), Meaning(s, step))
  {
    hide Hidden, Exclusive, Bits;
    assert PendOk(s, step.p);
    ActiveShows(s, Loc(step.p, s.pend[step.p]));
    RemapShows(s, step);
  }

  // Steps that leave the duppages alone: what is hidden stays so.
  lemma SameHidden(s: State, t: State)
    requires s.pend == t.pend && (forall p :: p in s.pend ==> p in s.fork && p in t.fork && s.fork[p] == t.fork[p])
    ensures forall l :: Hidden(s, l) <==> Hidden(t, l)
  {
    forall l ensures Hidden(s, l) <==> Hidden(t, l) {
      if p :| p in s.pend && p in s.fork && l == Loc(s.fork[p], s.pend[p]) { assert p in t.pend && p in t.fork; }
    }
  }

  // A store reaches the visible pages that share the page written, and no others.
  lemma StoreReaches(s: State, l: Loc, k: Loc)
    requires Inv(s) && l in s.m && k in s.m && l.env in s.active && !Hidden(s, k) && !Hidden(s, l) && s.m[l].d
    ensures s.m[k].frame == s.m[l].frame <==> SamePage(Abs(s), l, k)
  {
    if k != l && s.m[k].frame == s.m[l].frame {
      assert Alone(s, l, k);
      if Splits(s.m[l]) { assert Hidden(s, k); }
    }
  }

  // A store to a page mapped with PTE_D.
  lemma PokeMeans(s: State, l: Loc, i: nat, b: int)
    requires Inv(s) && l in s.m && l.env in s.active && s.m[l].d && i < PAGE_SIZE
    requires s.m[l].frame in s.data && i < |s.data[s.m[l].frame]| && Inv(Poke(s, l, i, b))
    ensures Abs(Poke(s, l, i, b)) == Happens(Abs(s), Store(l.env, l.vpn, i, b))
  {
    hide Hidden, Exclusive, Bits;
    var t := Poke(s, l, i, b);
    ActiveShows(s, l);
    SameHidden(s, t) by { forall p | p in s.pend ensures p in s.fork { assert PendOk(s, p); } }
    hide Forks;
    forall k | k in s.m && !Hidden(s, k) ensures s.m[k].frame == s.m[l].frame <==> SamePage(Abs(s), l, k) {
      StoreReaches(s, l, k);
    }
  }

  // cow_entry alone changes no byte that anybody sees.
  lemma CowEntryMeans(s: State, l: Loc, nf: nat)
    requires Inv(s) && l in s.m && l.env in s.active && s.m[l].cow && Unused(s, nf)
    requires s.m[l].frame in s.data && Inv(CowEntry(s, l, nf))
    ensures Abs(CowEntry(s, l, nf)) == Abs(s)
  {
    hide Hidden, Exclusive;
    var t := CowEntry(s, l, nf);
    ActiveShows(s, l);
    SameHidden(s, t) by { forall p | p in s.pend ensures p in s.fork { assert PendOk(s, p); } }
    hide Forks;
    PutView(s, t, l, t.m[l]);
    AbsAt(s, l);
  }

  lemma WriteMeans(s: State, step: Step)
    requires Inv(s) && Enabled(s, step) && step.Write? && Inv(Act(s, step))
    ensures Abs(Act(s, step)) == Happens(Abs(s), Meaning(s, step))
  {
    hide Hidden, Exclusive, Abs, Unused, Bits, Forks, Happens;
    var l, t := Loc(step.e, step.v), Act(s, step);
    if s.m[l].d {
      PokeMeans(s, l, step.i, step.b);
    } else if s.m[l].cow {
      CowEntryKeeps(s, l, step.nf);
      CowEntryMeans(s, l, step.nf);
      PokeMeans(CowEntry(s, l, step.nf), l, step.i, step.b);
    } else {
      Unwritable(s, l, step.i, step.b);
    }
  }

  lemma Unwritable(s: State, l: Loc, i: nat, b: int)
    requires Sane(s) && l in s.m && !s.m[l].d && !s.m[l].cow
    ensures Happens(Abs(s), Store(l.env, l.vpn, i, b)) == Abs(s)
  {
    AbsAt(s, l);
    hide Abs;
  }

  lemma PendInFork(s: State, t: State)
    requires Forks(s) && t.pend == s.pend
    requires forall p :: p in s.pend && p in s.fork ==> p in t.fork && t.fork[p] == s.fork[p]
    ensures forall l :: Hidden(s, l) <==> Hidden(t, l)
  {
    forall p | p in s.pend ensures p in s.fork { assert PendOk(s, p); }
    SameHidden(s, t);
  }

  lemma AllocMeans(s: State, step: Step)
    requires Inv(s) && Enabled(s, step) && Inv(Act(s, step)) && step.Alloc?
    ensures Abs(Act(s, step)) == Happens(Abs(s), Meaning(s, step))
  {
    hide Hidden, Exclusive, Bits, Abs;
    var l, t := Loc(step.e, step.v), Act(s, step);
    PendInFork(s, t);
    ActiveShows(s, l);
    hide Forks;
    PutView(s, t, l, t.m[l]);
  }

  lemma UnmapMeans(s: State, step: Step)
    requires Inv(s) && Enabled(s, step) && Inv(Act(s, step)) && step.Unmap?
    ensures Abs(Act(s, step)) == Happens(Abs(s), Meaning(s, step))
  {
    hide Hidden, Exclusive, Bits;
    PendInFork(s, Act(s, step));
    hide Forks;
  }

  lemma ExitMeans(s: State, step: Step)
    requires Inv(s) && Enabled(s, step) && Inv(Act(s, step)) && step.Exit?
    ensures Abs(Act(s, step)) == Happens(Abs(s), Meaning(s, step))
  {
    hide Hidden, Exclusive, Bits;
    PendInFork(s, Act(s, step));
    hide Forks;
  }

  lemma EnvMeans(s: State, step: Step)
    requires Inv(s) && Enabled(s, step) && Inv(Act(s, step)) && (step.Begin? || step.End?)
    ensures Abs(Act(s, step)) == Happens(Abs(s), Meaning(s, step))
  {
    hide Hidden, Exclusive, Bits, Abs;
    PendInFork(s, Act(s, step));
    SameView(s, Act(s, step));
  }

  // One step of the implementation is its meaning in the memory it implements.
  lemma StepMeans(s: State, step: Step)
    requires Inv(s) && Enabled(s, step)
    ensures Inv(Act(s, step))
    ensures Abs(Act(s, step)) == Happens(Abs(s), Meaning(s, step))
  {
    hide Act, Inv, Happens, Meaning, Abs;
    StepKeepsInv(s, step);
    match step
    case MapChild(_, _) => MapChildMeans(s, step);
    case Remap(_) => RemapMeans(s, step);
    case Write(_, _, _, _, _) => WriteMeans(s, step);
    case Alloc(_, _, _, _, _) => AllocMeans(s, step);
    case Unmap(_, _) => UnmapMeans(s, step);
    case Exit(_) => ExitMeans(s, step);
    case _ => EnvMeans(s, step);
  }

  ghost predicate IsRun(s: State, steps: seq<Step>)
    requires Inv(s)
    decreases |steps|
  {
    steps != [] ==>
      && Enabled(s, steps[0])
      && (StepKeepsInv(s, steps[0]); IsRun(Act(s, steps[0]), steps[1..]))
  }

  ghost function Final(s: State, steps: seq<Step>): State
    requires Inv(s) && IsRun(s, steps)
    decreases |steps|
  {
    if steps == [] then s else StepKeepsInv(s, steps[0]); Final(Act(s, steps[0]), steps[1..])
  }

  ghost function Story(s: State, steps: seq<Step>): seq<Event>
    requires Inv(s) && IsRun(s, steps)
    decreases |steps|
  {
    if steps == [] then []
    else StepKeepsInv(s, steps[0]); [Meaning(s, steps[0])] + Story(Act(s, steps[0]), steps[1..])
  }

  function Replay(t: Memory, evs: seq<Event>): Memory
    decreases |evs|
  {
    if evs == [] then t else Replay(Happens(t, evs[0]), evs[1..])
  }

  lemma {:induction false} RunRefines(s: State, steps: seq<Step>)
    requires Inv(s) && IsRun(s, steps)
    ensures Inv(Final(s, steps))
    ensures Abs(Final(s, steps)) == Replay(Abs(s), Story(s, steps))
    decreases |steps|
  {
    hide Act, Happens, Meaning, Abs, Inv;
    if steps != [] {
      StepMeans(s, steps[0]);
      RunRefines(Act(s, steps[0]), steps[1..]);
      var rest := Story(Act(s, steps[0]), steps[1..]);
      assert Story(s, steps)[0] == Meaning(s, steps[0]) && Story(s, steps)[1..] == rest;
    }
  }

  // From memory without a fork under way, after any run: a frame that someone may write, unless it
  // is a PTE_LIBRARY page, has that one mapping, except between the two calls of a duppage.
  lemma OwnedOnce(s: State, steps: seq<Step>, l: Loc, k: Loc)
    requires Start(s) && IsRun(s, steps)
    requires var t := Final(s, steps);
             && l in t.m && k in t.m && t.m[l].frame == t.m[k].frame
             && Splits(t.m[l]) && l.env !in t.pend
    ensures k == l
  {
    hide IsRun, Final;
    RunRefines(s, steps);
    var t := Final(s, steps);
    assert k == l || Alone(t, l, k);
  }

  // What a load by env e at byte i of page v returns.
  ghost function Load(s: State, e: nat, v: nat, i: nat): Option<int>
    requires Sane(s)
  {
    var l := Loc(e, v);
    if l in s.m && i < PAGE_SIZE then Some(s.data[s.m[l].frame][i]) else None
  }

  // After any run, every env that may run reads exactly what the memory with eager copies holds,
  // and a store by it succeeds exactly where that memory is writable.
  lemma ReadsAgree(s: State, steps: seq<Step>, e: nat, v: nat, i: nat)
    requires Inv(s) && IsRun(s, steps) && e in Final(s, steps).active
    ensures Sane(Final(s, steps))
    ensures var t, l := Replay(Abs(s), Story(s, steps)), Loc(e, v);
      && Load(Final(s, steps), e, v, i)
         == (if l in t && i < PAGE_SIZE && i < |t[l].bytes| then Some(t[l].bytes[i]) else None)
      && (l in t <==> l in Final(s, steps).m)
      && (l in t ==> (t[l].writable <==> Final(s, steps).m[l].d || Final(s, steps).m[l].cow))
  {
    RunRefines(s, steps);
    hide IsRun, Final, Story, Replay;
    ActiveShows(Final(s, steps), Loc(e, v));
  }

  // Whether a step may change what env e holds at page v: a store or a mapping call of e's own,
  // a store to the same PTE_LIBRARY page, or e's parent handing it the page.
  ghost predicate Touches(s: State, step: Step, l: Loc)
    requires Sane(s)
  {
    match step
    case MapChild(p, v) => p in s.fork && l == Loc(s.fork[p], v)
    case Remap(p) => p in s.fork && p in s.pend && l == Loc(s.fork[p], s.pend[p])
    case Write(e, v, _, _, _) =>
      l == Loc(e, v) || (Loc(e, v) in s.m && l in s.m && s.m[l].lib && s.m[l].frame == s.m[Loc(e, v)].frame)
    case Alloc(e, v, _, _, _) => l == Loc(e, v)
    case Unmap(e, v) => l == Loc(e, v)
    case Exit(e) => l.env == e
    case _ => false
  }

  ghost predicate Untouched(s: State, steps: seq<Step>, l: Loc)
    requires Inv(s) && IsRun(s, steps)
    decreases |steps|
  {
    steps != [] ==>
      && !Touches(s, steps[0], l)
      && (StepKeepsInv(s, steps[0]); Untouched(Act(s, steps[0]), steps[1..], l))
  }

  // Whether an event of the memory may change the page at l.
  predicate Affects(t: Memory, ev: Event, l: Loc) {
    match ev
    case Stutter => false
    case Copy(p, c, v) => l == Loc(c, v)
    case Store(e, v, i, b) => Loc(e, v) in t && l in t && SamePage(t, Loc(e, v), l)
    case Fresh(e, v, _) => l == Loc(e, v)
    case Drop(e, v) => l == Loc(e, v)
    case Leave(e) => l.env == e
  }

  lemma OthersKeep(t: Memory, ev: Event, l: Loc)
    requires l in t && !Affects(t, ev, l)
    ensures l in Happens(t, ev) && Happens(t, ev)[l] == t[l]
  {
  }

  lemma TouchesAll(s: State, step: Step, l: Loc)
    requires Inv(s) && Enabled(s, step) && l in Abs(s) && Affects(Abs(s), Meaning(s, step), l)
    ensures Touches(s, step, l)
  {
    hide Hidden, Exclusive, Bits, Abs;
    AbsAt(s, l);
    if step.Remap? { assert PendOk(s, step.p); }
    hide Forks;
    if step.Write? { AbsAt(s, Loc(step.e, step.v)); }
  }

  lemma StepIsolates(s: State, step: Step, l: Loc)
    requires Inv(s) && Enabled(s, step) && l in Abs(s) && !Touches(s, step, l)
    ensures Inv(Act(s, step)) && l in Abs(Act(s, step)) && Abs(Act(s, step))[l] == Abs(s)[l]
  {
    hide Act, Abs, Enabled, Meaning, Touches, Forks, Bits, Exclusive, Happens;
    StepMeans(s, step);
    if Affects(Abs(s), Meaning(s, step), l) { TouchesAll(s, step, l); }
    OthersKeep(Abs(s), Meaning(s, step), l);
  }

  // A page that an env sees keeps its bytes through any run in which the env itself leaves it
  // alone, whatever its parent, its children and everybody else write to the frame they share.
  lemma {:induction false} PagesAreIsolated(s: State, steps: seq<Step>, l: Loc)
    requires Inv(s) && IsRun(s, steps) && l in Abs(s) && Untouched(s, steps, l)
    ensures Inv(Final(s, steps)) && l in Abs(Final(s, steps)) && Abs(Final(s, steps))[l] == Abs(s)[l]
    decreases |steps|
  {
    hide Act, Abs, Inv, Touches;
    if steps != [] {
      StepIsolates(s, steps[0], l);
      PagesAreIsolated(Act(s, steps[0]), steps[1..], l);
    }
  }

  // Env p is building child c, and page v of c is not mapped yet, is in the middle of its duppage,
  // or shows what p's page shows.
  ghost predicate Copying(s: State, p: nat, c: nat, v: nat)
    requires Sane(s)
  {
    var l, k := Loc(p, v), Loc(c, v);
    && p in s.fork && s.fork[p] == c && l in Abs(s)
    && (k !in s.m || (p in s.pend && s.pend[p] == v) || (k in Abs(s) && Abs(s)[k] == Abs(s)[l]))
  }

  // Once the child shows the page, nothing but p's own page being touched can change it: c does
  // not run, and a store to a library page they share touches both.
  lemma ChildKeeps(s: State, step: Step, p: nat, c: nat, v: nat)
    requires Inv(s) && Enabled(s, step) && Copying(s, p, c, v) && !Touches(s, step, Loc(p, v))
    requires Loc(c, v) in Abs(s) && Abs(s)[Loc(c, v)] == Abs(s)[Loc(p, v)]
    ensures !Touches(s, step, Loc(c, v))
  {
    hide Exclusive, Bits;
    assert c !in s.active;
    if step.Remap? { assert PendOk(s, step.p); }
  }

  // The child's page is mapped by p's duppage alone, and taken away by nobody.
  lemma StillBuilding(s: State, step: Step, p: nat, c: nat, v: nat)
    requires Inv(s) && Enabled(s, step) && p in s.fork && s.fork[p] == c && step != End(p)
    requires Loc(p, v) in s.m && !Touches(s, step, Loc(p, v))
    ensures var t, k := Act(s, step), Loc(c, v);
            && p in t.fork && t.fork[p] == c
            && (k in t.m <==> k in s.m || step == MapChild(p, v))
            && (p in s.pend && s.pend[p] == v && step != Remap(p) ==> p in t.pend && t.pend[p] == v)
            && (step == MapChild(p, v) && Splits(s.m[Loc(p, v)]) ==> p in t.pend && t.pend[p] == v)
  {
    hide Exclusive, Bits, Sane;
    assert c !in s.active;
    if step.Remap? { assert PendOk(s, step.p); }
  }

  lemma CopyingStep(s: State, step: Step, p: nat, c: nat, v: nat)
    requires Inv(s) && Enabled(s, step) && Copying(s, p, c, v)
    requires !Touches(s, step, Loc(p, v)) && step != End(p)
    ensures var t := Act(s, step);
            && Inv(t) && Copying(t, p, c, v) && Abs(t)[Loc(p, v)] == Abs(s)[Loc(p, v)]
            && (Loc(c, v) in s.m || step == MapChild(p, v) ==> Loc(c, v) in t.m)
  {
    var l, k, t := Loc(p, v), Loc(c, v), Act(s, step);
    StepIsolates(s, step, l);
    StillBuilding(s, step, p, c, v);
    if k in Abs(s) && Abs(s)[k] == Abs(s)[l] {
      ChildKeeps(s, step, p, c, v);
      StepIsolates(s, step, k);
    } else if step == MapChild(p, v) || (step == Remap(p) && s.pend[p] == v) {
      StepMeans(s, step);
    }
  }

  lemma {:induction false} CopyingRun(s: State, steps: seq<Step>, p: nat, c: nat, v: nat)
    requires Inv(s) && IsRun(s, steps) && Copying(s, p, c, v)
    requires Untouched(s, steps, Loc(p, v)) && End(p) !in steps
    ensures var t := Final(s, steps);
            && Inv(t) && Copying(t, p, c, v) && Abs(t)[Loc(p, v)] == Abs(s)[Loc(p, v)]
            && (Loc(c, v) in s.m || MapChild(p, v) in steps ==> Loc(c, v) in t.m)
    decreases |steps|
  {
    hide Act, Abs, Inv, Touches, Copying;
    if steps != [] {
      CopyingStep(s, steps[0], p, c, v);
      assert steps == [steps[0]] + steps[1..];
      CopyingRun(Act(s, steps[0]), steps[1..], p, c, v);
    }
  }

  // A whole fork among other envs: from syscall_exofork to the moment the child may run, a page
  // that the parent neither stores to nor remaps shows in the child as it was at the start,
  // whatever everybody else does in between.
  lemma ForkCopies(s: State, steps: seq<Step>, p: nat, c: nat, v: nat)
    requires Inv(s) && Enabled(s, Begin(p, c)) && Loc(p, v) in s.m
    requires Inv(Act(s, Begin(p, c))) && IsRun(Act(s, Begin(p, c)), steps)
    requires Untouched(Act(s, Begin(p, c)), steps, Loc(p, v))
    requires MapChild(p, v) in steps && End(p) !in steps
    requires Enabled(Final(Act(s, Begin(p, c)), steps), End(p))
    ensures var t := Final(Act(s, Begin(p, c)), steps);
            && Inv(t) && Inv(Act(t, End(p))) && c in Act(t, End(p)).active
            && var m := Abs(Act(t, End(p)));
            && Loc(p, v) in Abs(s) && Loc(c, v) in m && m[Loc(c, v)] == Abs(s)[Loc(p, v)]
  {
    hide IsRun, Final, Untouched, Exclusive, Bits, Sane, Hidden;
    ActiveShows(s, Loc(p, v));
    StepMeans(s, Begin(p, c));
    var s1 := Act(s, Begin(p, c));
    assert Copying(s1, p, c, v);
    CopyingRun(s1, steps, p, c, v);
    StepMeans(Final(s1, steps), End(p));
  }
}
