// Whether a pipe is closed (user/lib/pipe.c, user/lib/fd.c, user/lib/pageref.c): two reference
// counts read one after the other while other envs dup and close, one system call at a time.
module PipeClose {
  import opened Common

  datatype End = Reading | Writing

  // Descriptor number num of env: a page for the Fd and a page for the Pipe.
  datatype Handle = Handle(env: nat, num: nat)

  // Where an env is in pipe_close, dup or _pipe_is_closed.
  datatype Pc =
    | Idle
    | Closing(h: Handle)
    | Dupping(src: Handle, dst: Handle)
    | Asking(h: Handle)
    | GotRuns(h: Handle, start: nat)
    | GotFd(h: Handle, start: nat, fdRef: nat)
    | GotPipe(h: Handle, start: nat, fdRef: nat, pipeRef: nat)
    | Answer(h: Handle, closed: bool)

  // fd: the handles whose Fd page is mapped, and which end's page it is; data: the handles that
  // map the pipe's page; runs: how often env_run has started each env, before wrapping.
  datatype State = State(fd: map<Handle, End>, data: set<Handle>, pc: map<nat, Pc>, cur: nat, runs: map<nat, nat>)

  datatype Step =
    | Switch(q: nat)                          // env_run(q)
    | CloseFd(h: Handle) | CloseData          // pipe_close
    | DupData(src: Handle, dst: Handle) | DupFd   // dup
    | Ask(h: Handle) | ReadRuns | ReadFd | ReadPipe | Compare | Return   // _pipe_is_closed
    | Destroy(q: nat)                         // env_free(q)

  function Other(e: End): End { if e.Reading? then Writing else Reading }

  function PcOf(s: State, p: nat): Pc { if p in s.pc then s.pc[p] else Idle }

  function Runs(s: State, p: nat): nat { if p in s.runs then s.runs[p] else 0 }

  function Goes(s: State, pc: Pc): State { s.(pc := s.pc[s.cur := pc]) }

  function Of(s: State, e: End): set<Handle> { set h | h in s.fd && s.fd[h] == e }

  // pp_ref of the page of one end's Fd, and of the pipe's page.
  function FdRef(s: State, e: End): nat { |Of(s, e)| }

  function PipeRef(s: State): nat { |s.data| }

  function EndOf(s: State, h: Handle): End { if h in s.fd then s.fd[h] else Reading }

  predicate Enabled(s: State, step: Step) {
    var pc := PcOf(s, s.cur);
    match step
    case Switch(q) => true
    case CloseFd(h) => pc.Idle? && h.env == s.cur && h in s.fd
    case CloseData => pc.Closing?
    case DupData(src, dst) =>
      pc.Idle? && src.env == s.cur && dst.env == s.cur && src in s.fd && dst !in s.fd && dst != src
    case DupFd => pc.Dupping?
    case Ask(h) => pc.Idle? && h.env == s.cur && h in s.fd
    case ReadRuns => pc.Asking?
    case ReadFd => pc.GotRuns?
    case ReadPipe => pc.GotFd?
    case Compare => pc.GotPipe?
    case Return => pc.Answer?
    case Destroy(q) => pc.Idle? || q == s.cur
  }

  function Act(s: State, step: Step): State
    requires Enabled(s, step)
  {
    var pc := PcOf(s, s.cur);
    match step
    case Switch(q) => s.(cur := q, runs := s.runs[q := Runs(s, q) + 1])
    case CloseFd(h) => Goes(s, Closing(h)).(fd := s.fd - {h})
    case CloseData => Goes(s, Idle).(data := s.data - {pc.h})
    case DupData(src, dst) =>
      Goes(s, Dupping(src, dst)).(data := if src in s.data then s.data + {dst} else s.data)
    case DupFd => Goes(s, Idle).(fd := if pc.src in s.fd then s.fd[pc.dst := s.fd[pc.src]] else s.fd)
    case Ask(h) => Goes(s, Asking(h))
    case ReadRuns => Goes(s, GotRuns(pc.h, Runs(s, s.cur)))
    case ReadFd => Goes(s, GotFd(pc.h, pc.start, FdRef(s, EndOf(s, pc.h))))
    case ReadPipe => Goes(s, GotPipe(pc.h, pc.start, pc.fdRef, PipeRef(s)))
    case Compare =>
      if pc.start % U32 != Runs(s, s.cur) % U32 then Goes(s, Asking(pc.h))
      else Goes(s, Answer(pc.h, pc.fdRef == pc.pipeRef))
    case Return => Goes(s, Idle)
    case Destroy(q) =>
      s.(fd := map h | h in s.fd && h.env != q :: s.fd[h],
         data := (set h | h in s.data && h.env != q), pc := s.pc[q := Idle])
  }

  // The order of the calls: whoever maps an Fd maps the pipe.
  ghost predicate Backed(s: State) { forall h :: h in s.fd ==> h in s.data }

  // What env p may rely on at its place in the code. The counts it has read are those of now as
  // long as it has not been started again.
  ghost predicate PcOk(s: State, p: nat) {
    var pc := PcOf(s, p);
    match pc
    case Idle => true
    case Closing(h) => h.env == p && h !in s.fd
    case Dupping(src, dst) => src.env == p && dst.env == p && src in s.fd && dst in s.data && dst !in s.fd
    case Asking(h) => h.env == p && h in s.fd
    case GotRuns(h, start) => h.env == p && h in s.fd && start <= Runs(s, p)
    case GotFd(h, start, fdRef) =>
      && h.env == p && h in s.fd && start <= Runs(s, p)
      && (start == Runs(s, p) && s.cur == p ==> fdRef == FdRef(s, s.fd[h]))
    case GotPipe(h, start, fdRef, pipeRef) =>
      && h.env == p && h in s.fd && start <= Runs(s, p)
      && (start == Runs(s, p) && s.cur == p ==> fdRef == FdRef(s, s.fd[h]) && pipeRef == PipeRef(s))
    case Answer(h, closed) => h.env == p && h in s.fd
  }

  ghost predicate Inv(s: State) {
    && Backed(s)
    && forall p :: PcOk(s, p)
  }

  // No env maps the Fd page of end e.
  ghost predicate NoEnd(s: State, e: End) { forall h :: h in s.fd ==> s.fd[h] != e }

  // Between pipe_close's two calls, or dup's.
  ghost predicate Midway(s: State, h: Handle) { h in s.data && h !in s.fd }

  lemma SwitchKeeps(s: State, q: nat)
    requires Inv(s)
    ensures Inv(Act(s, Switch(q)))
  {
    var t := Act(s, Switch(q));
    forall p ensures PcOk(t, p) { assert PcOk(s, p); }
  }

  lemma DestroyKeeps(s: State, q: nat)
    requires Inv(s) && Enabled(s, Destroy(q))
    ensures Inv(Act(s, Destroy(q)))
  {
    hide FdRef, PipeRef;
    var t := Act(s, Destroy(q));
    assert PcOk(s, s.cur);
    forall p ensures PcOk(t, p) { assert PcOk(s, p); }
  }

  // What p has mapped and where it is.
  ghost predicate Alike(s: State, t: State, p: nat) {
    && PcOf(t, p) == PcOf(s, p) && Runs(t, p) == Runs(s, p)
    && (forall h: Handle :: h.env == p ==> (h in t.fd <==> h in s.fd) && (h in t.data <==> h in s.data))
  }

  lemma StepAlike(s: State, step: Step, p: nat)
    requires Inv(s) && Enabled(s, step) && !step.Switch? && !step.Destroy? && p != s.cur
    ensures Alike(s, Act(s, step), p) && Act(s, step).cur == s.cur
  {
    hide FdRef, PipeRef, Backed;
    assert PcOk(s, s.cur);
  }

  // A step of the running env leaves what the others rely on.
  lemma OthersStay(s: State, step: Step, p: nat)
    requires Inv(s) && Enabled(s, step) && !step.Switch? && !step.Destroy? && p != s.cur
    ensures PcOk(Act(s, step), p)
  {
    hide FdRef, PipeRef, Act, Enabled, PcOf, Runs, Backed;
    StepAlike(s, step, p);
    assert PcOk(s, p);
  }

  // ... and leads itself where the code goes on.
  lemma CurMoves(s: State, step: Step)
    requires Inv(s) && Enabled(s, step) && !step.Switch? && !step.Destroy?
    ensures Backed(Act(s, step)) && PcOk(Act(s, step), s.cur)
  {
    hide Of, PipeRef;
    assert PcOk(s, s.cur);
    var t := Act(s, step);
    assert t.fd == s.fd ==> forall e :: FdRef(t, e) == FdRef(s, e) by {
      if t.fd == s.fd { forall e ensures FdRef(t, e) == FdRef(s, e) { SameRefs(s, t, e); } }
    }
    assert t.data == s.data ==> PipeRef(t) == PipeRef(s) by { SamePipe(s, t); }
  }

  lemma SameRefs(s: State, t: State, e: End)
    requires t.fd == s.fd
    ensures FdRef(t, e) == FdRef(s, e)
  {
    assert Of(t, e) == Of(s, e);
  }

  lemma SamePipe(s: State, t: State)
    ensures t.data == s.data ==> PipeRef(t) == PipeRef(s)
  {
  }

  lemma StepKeepsInv(s: State, step: Step)
    requires Inv(s) && Enabled(s, step)
    ensures Inv(Act(s, step))
  {
    match step
    case Switch(q) => SwitchKeeps(s, q);
    case Destroy(q) => DestroyKeeps(s, q);
    case _ =>
      hide Act, Enabled, PcOk, Backed;
      CurMoves(s, step);
      forall p ensures PcOk(Act(s, step), p) { if p != s.cur { OthersStay(s, step, p); } }
  }

  lemma SameSize<T>(a: set<T>, b: set<T>)
    requires a <= b
    ensures |a| == |b| <==> a == b
  {
    assert |b - a| == |b| - |a|;
  }

  // The comparison is exact: the pipe is found closed if and only if the other end is gone and
  // nobody is in the middle of a close or a dup.
  lemma CountsDecide(s: State, e: End)
    requires Backed(s)
    ensures FdRef(s, e) == PipeRef(s) <==> NoEnd(s, Other(e)) && forall h :: !Midway(s, h)
  {
    SameSize(Of(s, e), s.data);
    if NoEnd(s, Other(e)) && forall h :: !Midway(s, h) {
      forall h | h in s.data ensures h in Of(s, e) { assert !Midway(s, h); }
      assert Of(s, e) == s.data;
    }
    if Of(s, e) == s.data {
      forall h | h in s.fd ensures s.fd[h] != Other(e) { assert h in Of(s, e); }
      forall h ensures !Midway(s, h) { assert h in s.data ==> h in Of(s, e); }
    }
  }

  // One round of the loop with fewer than 2^32 starts of the env in between: it answers only if
  // it was not started again, and then rightly.
  lemma CompareDecides(s: State)
    requires Inv(s) && Enabled(s, Compare) && Runs(s, s.cur) - PcOf(s, s.cur).start < U32
    ensures var pc, t := PcOf(s, s.cur), Act(s, Compare);
      && (PcOf(t, s.cur).Answer? <==> pc.start == Runs(s, s.cur))
      && pc.h in s.fd
      && (PcOf(t, s.cur).Answer? ==>
        (PcOf(t, s.cur).closed <==> NoEnd(s, Other(s.fd[pc.h])) && forall h :: !Midway(s, h)))
  {
    var pc := PcOf(s, s.cur);
    assert PcOk(s, s.cur);
    CountsDecide(s, s.fd[pc.h]);
    var d := Runs(s, s.cur) - pc.start;
    assert pc.start % U32 == (pc.start + d) % U32 <==> d == 0;
  }

  // Env p is between the two calls of a close of h, or of a dup to h.
  ghost predicate AtWork(s: State, p: nat, h: Handle) {
    var pc := PcOf(s, p);
    pc == Closing(h) || (pc.Dupping? && pc.dst == h)
  }

  // Whoever has a pipe's page without its Fd page is about to give it up or to map the Fd.
  ghost predicate Orderly(s: State) { forall h {:trigger AtWork(s, h.env, h)} :: Midway(s, h) ==> AtWork(s, h.env, h) }

  lemma StepKeepsOrder(s: State, step: Step)
    requires Inv(s) && Orderly(s) && Enabled(s, step)
    ensures Orderly(Act(s, step))
  {
    hide FdRef, PipeRef, Backed;
    var t := Act(s, step);
    assert PcOk(s, s.cur);
    forall h | Midway(t, h) ensures AtWork(t, h.env, h) {
      assert Midway(s, h) ==> AtWork(s, h.env, h);
    }
  }

  // What the exit of q leaves: none of its pages, and everything of everybody else.
  lemma DestroyLeaves(s: State, q: nat)
    requires Enabled(s, Destroy(q))
    ensures var t := Act(s, Destroy(q));
      && PcOf(t, q) == Idle && (forall p :: p != q ==> PcOf(t, p) == PcOf(s, p)) && t.cur == s.cur && t.runs == s.runs
      && (forall h: Handle :: h.env == q ==> h !in t.fd && h !in t.data)
      && (forall h: Handle :: h.env != q ==> (h in t.fd <==> h in s.fd) && (h in t.data <==> h in s.data))
      && (forall h: Handle :: h.env != q && h in s.fd ==> t.fd[h] == s.fd[h])
  {
  }

  // What one call of an env changes: nothing of any other env.
  lemma CallLeaves(s: State, step: Step, h: Handle)
    requires Inv(s) && Enabled(s, step) && !step.Destroy? && h.env != s.cur
    ensures var t := Act(s, step);
      && (h in t.fd <==> h in s.fd) && (h in t.data <==> h in s.data) && (h in s.fd ==> t.fd[h] == s.fd[h])
  {
    hide FdRef, PipeRef, Backed;
    assert PcOk(s, s.cur);
  }

  // Every answer "closed" is true when it is given and stays true.
  ghost predicate Truthful(s: State) {
    forall p {:trigger PcOf(s, p)} :: var pc := PcOf(s, p);
      pc.Answer? && pc.closed && pc.h in s.fd ==> NoEnd(s, Other(s.fd[pc.h]))
  }

  // An end that is gone never comes back: dup needs one to copy.
  lemma GoneForGood(s: State, step: Step, e: End)
    requires Enabled(s, step) && NoEnd(s, e)
    ensures NoEnd(Act(s, step), e)
  {}

  ghost predicate Prompt(s: State, step: Step)
    requires Enabled(s, step)
  {
    step.Compare? ==> Runs(s, s.cur) - PcOf(s, s.cur).start < U32
  }

  ghost predicate IsRun(s: State, steps: seq<Step>)
    decreases |steps|
  {
    steps != [] ==> Enabled(s, steps[0]) && Prompt(s, steps[0]) && IsRun(Act(s, steps[0]), steps[1..])
  }

  ghost function Final(s: State, steps: seq<Step>): State
    requires IsRun(s, steps)
    decreases |steps|
  {
    if steps == [] then s else Final(Act(s, steps[0]), steps[1..])
  }

  lemma StepKeepsTruth(s: State, step: Step)
    requires Inv(s) && Truthful(s) && Enabled(s, step) && Prompt(s, step)
    ensures Truthful(Act(s, step))
  {
    var t := Act(s, step);
    if step.Compare? { CompareDecides(s); }
    StepKeepsInv(s, step);
    forall p | PcOf(t, p).Answer? && PcOf(t, p).closed && PcOf(t, p).h in t.fd
      ensures NoEnd(t, Other(t.fd[PcOf(t, p).h]))
    {
      if !(step.Compare? && p == s.cur) {
        assert PcOf(s, p) == PcOf(t, p);
        assert PcOk(s, p);
        GoneForGood(s, step, Other(s.fd[PcOf(s, p).h]));
      }
    }
  }

  // Over every interleaving of dup, close, exit and checks by any number of envs: an env told
  // that its pipe is closed has no peer, at that moment and for the rest of the run.
  lemma {:induction false} ClosedMeansClosed(s: State, steps: seq<Step>)
    requires Inv(s) && Truthful(s) && IsRun(s, steps)
    ensures Inv(Final(s, steps)) && Truthful(Final(s, steps))
    ensures forall e :: NoEnd(s, e) ==> NoEnd(Final(s, steps), e)
    decreases |steps|
  {
    hide Act, Inv, Truthful, Prompt, NoEnd;
    if steps != [] {
      StepKeepsInv(s, steps[0]);
      StepKeepsTruth(s, steps[0]);
      forall e | NoEnd(s, e) ensures NoEnd(Act(s, steps[0]), e) { GoneForGood(s, steps[0], e); }
      ClosedMeansClosed(Act(s, steps[0]), steps[1..]);
    }
  }

  lemma {:induction false} RunKeepsOrder(s: State, steps: seq<Step>)
    requires Inv(s) && Orderly(s) && IsRun(s, steps)
    ensures Inv(Final(s, steps)) && Orderly(Final(s, steps))
    decreases |steps|
  {
    hide Act, Inv, Orderly, Prompt;
    if steps != [] {
      StepKeepsInv(s, steps[0]);
      StepKeepsOrder(s, steps[0]);
      RunKeepsOrder(Act(s, steps[0]), steps[1..]);
    }
  }

  ghost predicate Resting(s: State) { forall p {:trigger PcOf(s, p)} :: !PcOf(s, p).Closing? && !PcOf(s, p).Dupping? }

  // The converse of ClosedMeansClosed. In any run from an orderly start, whatever closes, dups and
  // exits came before: when nobody is inside a close or a dup, an env that compares counts read in its
  // present slice is told "closed" if and only if the other end is gone.
  lemma GoneIsSeen(s: State, steps: seq<Step>)
    requires Inv(s) && Orderly(s) && IsRun(s, steps)
    ensures var t := Final(s, steps); var pc := PcOf(t, t.cur);
      Resting(t) && pc.GotPipe? && pc.start == Runs(t, t.cur) ==>
        && Enabled(t, Compare) && pc.h in t.fd
        && PcOf(Act(t, Compare), t.cur) == Answer(pc.h, NoEnd(t, Other(t.fd[pc.h])))
  {
    RunKeepsOrder(s, steps);
    var t := Final(s, steps);
    var pc := PcOf(t, t.cur);
    if Resting(t) && pc.GotPipe? && pc.start == Runs(t, t.cur) {
      hide Inv, IsRun, Final;
      RestingSees(t);
    }
  }

  lemma RestingSees(t: State)
    requires Inv(t) && Orderly(t) && Resting(t)
    requires PcOf(t, t.cur).GotPipe? && PcOf(t, t.cur).start == Runs(t, t.cur)
    ensures var pc := PcOf(t, t.cur);
      pc.h in t.fd && PcOf(Act(t, Compare), t.cur) == Answer(pc.h, NoEnd(t, Other(t.fd[pc.h])))
  {
    CompareDecides(t);
    forall h ensures !Midway(t, h) { assert Midway(t, h) ==> AtWork(t, h.env, h); }
  }

  // After the forks, before anyone closes: each holder of an Fd page holds the pipe's page.
  lemma Starts(s: State)
    requires Backed(s) && s.pc == map[]
    ensures Inv(s) && Truthful(s) && (s.data == s.fd.Keys ==> Orderly(s))
  {
    forall p ensures PcOf(s, p) == Idle {}
  }

  // A run that shows why the loop compares env_runs. Envs 0 and 1 read, env 2 writes; env 0 has
  // counted its end's pages when env 1 closes, and then counts the pipe's.
  const R0 := Handle(0, 0)
  const R1 := Handle(1, 0)
  const W2 := Handle(2, 1)
  const RACE := [Ask(R0), ReadRuns, ReadFd, Switch(1), CloseFd(R1), CloseData, Switch(0), ReadPipe]

  function Race(k: nat): State {
    var three := State(map[R0 := Reading, R1 := Reading, W2 := Writing], {R0, R1, W2}, map[], 0, map[]);
    var two := State(map[R0 := Reading, W2 := Writing], {R0, W2}, map[], 0, map[]);
    var got := map[0 := GotFd(R0, 0, 2)];
    if k == 0 then three
    else if k == 1 then three.(pc := map[0 := Asking(R0)])
    else if k == 2 then three.(pc := map[0 := GotRuns(R0, 0)])
    else if k == 3 then three.(pc := got)
    else if k == 4 then three.(pc := got, cur := 1, runs := map[1 := 1])
    else if k == 5 then two.(data := {R0, R1, W2}, pc := got[1 := Closing(R1)], cur := 1, runs := map[1 := 1])
    else if k == 6 then two.(pc := got[1 := Idle], cur := 1, runs := map[1 := 1])
    else if k == 7 then two.(pc := got[1 := Idle], runs := map[1 := 1, 0 := 1])
    else two.(pc := map[0 := GotPipe(R0, 0, 2, 2), 1 := Idle], runs := map[1 := 1, 0 := 1])
  }

  lemma RaceAsks(k: nat)
    requires 0 <= k < 2
    ensures Enabled(Race(k), RACE[k]) && Prompt(Race(k), RACE[k]) && Act(Race(k), RACE[k]) == Race(k + 1)
  {
  }

  lemma RaceCounts(k: nat)
    requires 2 <= k < 3
    ensures Enabled(Race(k), RACE[k]) && Prompt(Race(k), RACE[k]) && Act(Race(k), RACE[k]) == Race(k + 1)
  {
    assert Of(Race(2), Reading) == {R0, R1};
  }

  lemma RaceSwitches(k: nat)
    requires 3 <= k < 5
    ensures Enabled(Race(k), RACE[k]) && Prompt(Race(k), RACE[k]) && Act(Race(k), RACE[k]) == Race(k + 1)
  {
  }

  lemma RaceCloses(k: nat)
    requires 5 <= k < 7
    ensures Enabled(Race(k), RACE[k]) && Prompt(Race(k), RACE[k]) && Act(Race(k), RACE[k]) == Race(k + 1)
  {
  }

  lemma RaceEnds(k: nat)
    requires 7 <= k < 8
    ensures Enabled(Race(k), RACE[k]) && Prompt(Race(k), RACE[k]) && Act(Race(k), RACE[k]) == Race(k + 1)
  {
  }

  lemma RaceMoves(k: nat)
    requires k < 8
    ensures Enabled(Race(k), RACE[k]) && Prompt(Race(k), RACE[k]) && Act(Race(k), RACE[k]) == Race(k + 1)
  {
    hide Race, Enabled, Act, Prompt;
    if k < 2 { RaceAsks(k); }
    else if k < 3 { RaceCounts(k); }
    else if k < 5 { RaceSwitches(k); }
    else if k < 7 { RaceCloses(k); }
    else { RaceEnds(k); }
  }

  lemma {:induction false} RaceRuns(k: nat)
    requires k <= 8
    ensures IsRun(Race(k), RACE[k..]) && Final(Race(k), RACE[k..]) == Race(8)
    decreases 8 - k
  {
    hide Race, Act, Enabled, Prompt;
    if k < 8 {
      RaceMoves(k);
      RaceRuns(k + 1);
      assert RACE[k..][1..] == RACE[k + 1..];
    }
  }

  // With the two counts read in different slices, reader 0 holds equal counts while the writer is
  // there. Only the changed env_runs keeps it from answering.
  lemma CountsRace()
    ensures Inv(Race(0)) && Truthful(Race(0)) && IsRun(Race(0), RACE)
    ensures var t := Final(Race(0), RACE); var pc := PcOf(t, t.cur);
      && pc.GotPipe? && pc.h in t.fd && pc.fdRef == pc.pipeRef && !NoEnd(t, Other(t.fd[pc.h]))
      && Enabled(t, Compare) && PcOf(Act(t, Compare), t.cur).Asking?
  {
    Starts(Race(0));
    RaceRuns(0);
    assert RACE[0..] == RACE;
    assert Race(8).fd[W2] == Writing;
  }

  // How the counts compare in any state at all, orderly or not.
  lemma Balance(s: State, e: End)
    ensures FdRef(s, e) == PipeRef(s) <==> FdRef(s, Other(e)) + |s.data - s.fd.Keys| == |s.fd.Keys - s.data|
  {
    assert Of(s, e) + Of(s, Other(e)) == s.fd.Keys && Of(s, e) * Of(s, Other(e)) == {};
    assert s.data + (s.fd.Keys - s.data) == s.fd.Keys + (s.data - s.fd.Keys);
  }

  // fork copies pages in ascending order, so it maps the child's Fd pages before its pipe pages
  // (user/lib/fork.c), and in between an env can be told that a pipe with a writer is closed.
  lemma ForkRace() returns (s: State, child: Handle)
    ensures Inv(s) && child !in s.fd && child !in s.data
    ensures var t := s.(fd := s.fd[child := Reading]);
      FdRef(t, Reading) == PipeRef(t) && !NoEnd(t, Writing)
  {
    var r0, r1, w := Handle(0, 0), Handle(1, 0), Handle(2, 1);
    child := Handle(3, 0);
    s := State(map[r0 := Reading, r1 := Reading, w := Writing], {r0, r1, w}, map[], 0, map[]);
    Starts(s);
    var t := s.(fd := s.fd[child := Reading]);
    assert Of(t, Reading) == {r0, r1, child};
    assert t.fd[w] == Writing;
  }
}
