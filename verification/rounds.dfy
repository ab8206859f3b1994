// With nothing but timer ticks, each round gives every runnable env max(1, priority) runs in a
// row and ends in the order it began (kern/sched.c:37-58).
module Rounds {
  import opened Common
  import opened SchedSpec
  import opened Fairness

  // One timer tick; a machine that cannot schedule stays where it is.
  ghost function Tick1(s: State): State {
    if Shape(s) && Schedule(s, false).Some? then Schedule(s, false).value else s
  }

  ghost function After(s: State, n: nat): State {
    if n == 0 then s else Tick1(After(s, n - 1))
  }

  lemma {:induction false} AfterAfter(s: State, m: nat, n: nat)
    ensures After(After(s, m), n) == After(s, m + n)
  {
    hide Tick1;
    if n > 0 { AfterAfter(s, m, n - 1); }
  }

  // What a run of ticks depends on: a duplicate-free queue of runnable envs, headed by curenv.
  ghost predicate Queued(s: State) {
    && |s.procs| == NENV && Distinct(s.queue)
    && (forall i :: 0 <= i < |s.queue| ==> s.queue[i] < NENV && s.procs[s.queue[i]].status == Runnable)
    && s.queue != [] && s.cur == Some(s.queue[0])
  }

  // The running env has just been picked.
  ghost predicate Fresh(s: State) {
    Queued(s) && s.count == s.procs[s.queue[0]].pri - 1 && s.procs[s.queue[0]].runs > 0
  }

  function Rotated(q: seq<nat>): seq<nat>
    requires q != []
  {
    q[1..] + [q[0]]
  }

  // s after n more runs of its running env.
  ghost function Spent(s: State, n: nat): State
    requires Queued(s)
  {
    var c := s.queue[0];
    s.(count := s.count - n, procs := s.procs[c := s.procs[c].(runs := s.procs[c].runs + n)])
  }

  lemma SpentTick(s: State, n: nat)
    requires Queued(s) && s.count > n
    ensures Tick1(Spent(s, n)) == Spent(s, n + 1)
  {
    var u := Spent(s, n);
    assert u.procs[s.queue[0]].status == Runnable;
    assert Schedule(u, false).value.procs == Spent(s, n + 1).procs;
  }

  // While its slice lasts the env is run tick after tick and nothing else changes.
  lemma {:induction false} SliceRuns(s: State, n: nat)
    requires Fresh(s) && n < Slice(s.procs[s.queue[0]].pri)
    ensures After(s, n) == Spent(s, n)
  {
    hide Tick1, Distinct;
    if n > 0 {
      SliceRuns(s, n - 1);
      SpentTick(s, n - 1);
    } else {
      assert s.procs[s.queue[0] := s.procs[s.queue[0]]] == s.procs;
    }
  }

  // The next env in the queue starts a slice of its own.
  ghost function Passed(s: State): State
    requires Queued(s)
  {
    var q := Rotated(s.queue);
    Run(s.(queue := q, count := s.procs[q[0]].pri - 1), q[0])
  }

  lemma SwitchTick(s: State)
    requires Queued(s) && s.count <= 0
    ensures Tick1(s) == Passed(s)
  {
    IndexUnique(s.queue, 0);
    assert Without(s.queue, s.queue[0]) == s.queue[1..];
    assert Requeue(s) == Rotated(s.queue);
  }

  // The state in which the slice of the running env has just run out and the next env starts.
  ghost function Handed(s: State): State
    requires Queued(s)
  {
    Passed(Spent(s, Slice(s.procs[s.queue[0]].pri) - 1))
  }

  // The tick after the last run of the slice hands the CPU on.
  lemma SliceEnds(s: State)
    requires Fresh(s)
    ensures After(s, Slice(s.procs[s.queue[0]].pri)) == Handed(s)
  {
    hide Tick1, Distinct, Run;
    var n := Slice(s.procs[s.queue[0]].pri);
    SliceRuns(s, n - 1);
    SwitchTick(Spent(s, n - 1));
  }

  lemma HandedFresh(s: State)
    requires Fresh(s)
    ensures Fresh(Handed(s)) && Handed(s).queue == Rotated(s.queue)
  {
    var t, q := Handed(s), s.queue;
    forall i | 0 <= i < |q|
      ensures t.queue[i] < NENV && t.procs[t.queue[i]].status == Runnable
    {
      assert t.queue[i] == q[if i + 1 < |q| then i + 1 else 0];
    }
  }

  lemma HandedProcs(s: State, e: nat)
    requires Fresh(s) && e < NENV
    ensures |Handed(s).procs| == NENV
    ensures Handed(s).procs[e] == s.procs[e].(runs := s.procs[e].runs
                                    + (if e == s.queue[0] then Slice(s.procs[e].pri) - 1 else 0)
                                    + (if e == Rotated(s.queue)[0] then 1 else 0))
  {
    hide Distinct, Slice;
  }

  // e's runs once the first k envs of the round have had their slices: the first of the round
  // was already counted for the run it was in, and the k-th for the run it is starting.
  ghost function RunsAfter(s: State, k: nat, e: nat): nat
    requires Fresh(s) && k <= |s.queue| && e < NENV
  {
    s.procs[e].runs + (if e in s.queue[..k] then Slice(s.procs[e].pri) else 0)
    - (if e == s.queue[0] then 1 else 0) + (if e == (s.queue[k..] + s.queue[..k])[0] then 1 else 0)
  }

  ghost predicate InRound(s: State, t: State, k: nat)
    requires Fresh(s) && k <= |s.queue|
  {
    && Fresh(t) && t.queue == s.queue[k..] + s.queue[..k]
    && forall e :: 0 <= e < NENV ==> t.procs[e] == s.procs[e].(runs := RunsAfter(s, k, e))
  }

  // The queue k envs into the round, and one env later.
  lemma Turned(q: seq<nat>, k: nat)
    requires 0 < k <= |q|
    ensures q[k - 1..] + q[..k - 1] != [] && (q[k - 1..] + q[..k - 1])[0] == q[k - 1]
    ensures Rotated(q[k - 1..] + q[..k - 1]) == q[k..] + q[..k]
    ensures forall e :: e in q[..k] <==> e in q[..k - 1] || e == q[k - 1]
  {
    assert q[..k] == q[..k - 1] + [q[k - 1]];
    assert q[k - 1..] == [q[k - 1]] + q[k..];
  }

  lemma NotYet(q: seq<nat>, k: nat)
    requires Distinct(q) && k < |q|
    ensures q[k] !in q[..k]
  {
  }

  // One slice adds its env's runs to what the round has handed out so far.
  lemma RunsGrow(s: State, t: State, k: nat, e: nat)
    requires Fresh(s) && 0 < k <= |s.queue| && InRound(s, t, k - 1) && e < NENV
    ensures Fresh(t) && |Handed(t).procs| == NENV
    ensures Handed(t).procs[e] == s.procs[e].(runs := RunsAfter(s, k, e))
  {
    var q := s.queue;
    NotYet(q, k - 1);
    Turned(q, k);
    HandedProcs(t, e);
    hide Distinct, Slice, Handed, Queued;
    assert t.procs[e] == s.procs[e].(runs := RunsAfter(s, k - 1, e));
  }

  lemma RoundStep(s: State, t: State, k: nat)
    requires Fresh(s) && 0 < k <= |s.queue| && InRound(s, t, k - 1)
    ensures InRound(s, Handed(t), k)
  {
    HandedFresh(t);
    Turned(s.queue, k);
    hide Distinct, Slice, Handed, RunsAfter, Rotated;
    forall e: nat | e < NENV ensures Handed(t).procs[e] == s.procs[e].(runs := RunsAfter(s, k, e)) {
      RunsGrow(s, t, k, e);
    }
  }

  ghost function SliceAt(s: State, k: nat): nat
    requires Fresh(s) && k < |s.queue|
  {
    Slice(s.procs[s.queue[k]].pri)
  }

  lemma TotalStep(s: State, k: nat)
    requires Fresh(s) && 0 < k <= |s.queue|
    ensures Total(s.procs, s.queue[..k]) == Total(s.procs, s.queue[..k - 1]) + SliceAt(s, k - 1)
  {
    hide Slice, Distinct;
    assert s.queue[..k] == s.queue[..k - 1] + [s.queue[k - 1]];
    TotalConcat(s.procs, s.queue[..k - 1], [s.queue[k - 1]]);
  }

  lemma RoundNext(s: State, t: State, k: nat)
    requires Fresh(s) && 0 < k <= |s.queue| && InRound(s, t, k - 1)
    ensures InRound(s, After(t, SliceAt(s, k - 1)), k)
  {
    hide Tick1, Handed, Slice, Total;
    assert t.queue[0] == s.queue[k - 1];
    SliceEnds(t);
    RoundStep(s, t, k);
  }

  lemma RoundZero(s: State)
    requires Fresh(s)
    ensures InRound(s, s, 0) && Total(s.procs, s.queue[..0]) == 0 && After(s, 0) == s
  {
    hide Distinct, Slice;
    assert s.queue[0..] + s.queue[..0] == s.queue;
  }

  lemma {:induction false} RoundPrefix(s: State, k: nat) returns (m: nat, t: State)
    requires Fresh(s) && k <= |s.queue|
    ensures m == Total(s.procs, s.queue[..k]) && t == After(s, m) && InRound(s, t, k)
    decreases k
  {
    hide *;
    if k == 0 {
      m, t := 0, s;
      RoundZero(s);
    } else {
      var m', t' := RoundPrefix(s, k - 1);
      var n := SliceAt(s, k - 1);
      m, t := m' + n, After(t', n);
      TotalStep(s, k);
      RoundNext(s, t', k);
      AfterAfter(s, m', n);
    }
  }

  // One full round, from any reachable state in which an env was just picked.
  lemma RoundIsFair(s: State)
    requires Running(s) && s.count == s.procs[s.cur.value].pri - 1 && s.procs[s.cur.value].runs > 0
    ensures var t := After(s, Total(s.procs, s.queue));
            && |t.procs| == NENV && t.queue == s.queue && t.cur == s.cur && t.count == s.count
            && forall e :: 0 <= e < NENV ==>
                 t.procs[e] == s.procs[e].(runs := s.procs[e].runs +
                                             if e in s.queue then Slice(s.procs[e].pri) else 0)
  {
    hide Distinct, Slice, Total, After;
    var n := |s.queue|;
    assert forall i :: 0 <= i < n ==> s.queue[i] in s.queue;
    assert s.queue[..n] == s.queue;
    assert s.queue[n..] + s.queue[..n] == s.queue;
    var _, _ := RoundPrefix(s, n);
  }
}
