// How long a runnable env waits for the CPU, and what a round of timer ticks hands out
// (kern/sched.c:17-59).
module Fairness {
  import opened Common
  import opened SchedSpec

  // Consecutive runs one pick is good for: env_pri, but a zero or negative one still runs once.
  function Slice(pri: int): nat { if pri > 1 then pri else 1 }

  function Total(procs: seq<Proc>, q: seq<nat>): nat {
    if q == [] then 0
    else (if q[0] < |procs| then Slice(procs[q[0]].pri) else 0) + Total(procs, q[1..])
  }

  // Ticks until the running env is switched out.
  function Left(s: State): nat { if s.count > 0 then s.count + 1 else 1 }

  // The rest of the current slice and the full slices of the envs queued ahead of e.
  function Wait(s: State, e: nat): nat
    requires Shape(s) && e in s.queue && s.queue[0] != e
  {
    Left(s) + Total(s.procs, s.queue[1..IndexOf(s.queue, e)])
  }

  ghost predicate SamePri(a: seq<Proc>, b: seq<Proc>, q: seq<nat>) {
    |a| == |b| && forall i :: 0 <= i < |q| && q[i] < |a| ==> a[q[i]].pri == b[q[i]].pri
  }

  lemma {:induction false} TotalSame(a: seq<Proc>, b: seq<Proc>, q: seq<nat>)
    requires SamePri(a, b, q)
    ensures Total(a, q) == Total(b, q)
  {
    if q != [] { TotalSame(a, b, q[1..]); }
  }

  lemma {:induction false} TotalDrop(p: seq<Proc>, q: seq<nat>, i: nat)
    requires i < |q|
    ensures Total(p, Drop(q, i)) <= Total(p, q)
  {
    if i > 0 {
      TotalDrop(p, q[1..], i - 1);
      assert Drop(q, i) == [q[0]] + Drop(q[1..], i - 1);
    } else {
      assert Drop(q, 0) == q[1..];
    }
  }

  lemma {:induction false} TotalConcat(p: seq<Proc>, a: seq<nat>, b: seq<nat>)
    ensures Total(p, a + b) == Total(p, a) + Total(p, b)
  {
    if a == [] { assert a + b == b; }
    else { assert (a + b)[1..] == a[1..] + b; TotalConcat(p, a[1..], b); }
  }

  // Steps that leave the running env alone: an append behind e costs it nothing, a removal
  // ahead of it only helps.
  lemma WaitAppend(s: State, t: State, e: nat, x: nat)
    requires Shape(s) && Shape(t) && Distinct(t.queue)
    requires e in s.queue && s.queue[0] != e
    requires t.queue == s.queue + [x] && t.count == s.count && SamePri(s.procs, t.procs, s.queue)
    ensures e in t.queue && t.queue[0] != e && Wait(t, e) == Wait(s, e)
  {
    var k := IndexOf(s.queue, e);
    assert t.queue[k] == e;
    IndexUnique(t.queue, k);
    assert t.queue[1..k] == s.queue[1..k];
    TotalSame(s.procs, t.procs, s.queue[1..k]);
  }

  lemma WithoutPrefix(q: seq<nat>, k: nat, x: nat)
    requires Distinct(q) && 1 <= k < |q| && x != q[0] && x != q[k]
    ensures var r := Without(q, x);
            r != [] && r[0] == q[0] && q[k] in r && 1 <= IndexOf(r, q[k])
            && (r[1..IndexOf(r, q[k])] == q[1..k]
                || exists i :: 0 <= i < k - 1 && r[1..IndexOf(r, q[k])] == Drop(q[1..k], i))
  {
    hide Distinct;
    WithoutDistinct(q, x);
    var r := Without(q, x);
    if x in q {
      var i := IndexOf(q, x);
      if i < k {
        IndexUnique(r, k - 1);
        assert r[1..k - 1] == Drop(q[1..k], i - 1);
      } else {
        IndexUnique(r, k);
        assert r[1..k] == q[1..k];
      }
    } else {
      IndexUnique(q, k);
    }
  }

  lemma WaitWithout(s: State, t: State, e: nat, x: nat)
    requires Shape(s) && Shape(t) && Distinct(s.queue)
    requires e in s.queue && s.queue[0] != e && x != e && x != s.queue[0]
    requires t.queue == Without(s.queue, x) && t.count == s.count && SamePri(s.procs, t.procs, s.queue)
    ensures e in t.queue && t.queue[0] != e && Wait(t, e) <= Wait(s, e)
  {
    var k := IndexOf(s.queue, e);
    WithoutPrefix(s.queue, k, x);
    var p := s.queue[1..k];
    TotalSame(s.procs, t.procs, p);
    if t.queue[1..IndexOf(t.queue, e)] != p {
      var i :| 0 <= i < k - 1 && t.queue[1..IndexOf(t.queue, e)] == Drop(p, i);
      TotalDrop(t.procs, p, i);
    }
  }

  // A switch: the head leaves (perhaps to the tail), the rest of its slice is given up, and the
  // next env starts a full one.
  lemma WaitSwitch(s: State, s1: State, giveUp: bool, e: nat, tail: seq<nat>)
    requires Running(s) && Shape(s1) && e in s.queue && s.queue[0] != e
    requires Switches(s1, giveUp) && Requeue(s1) == s.queue[1..] + tail
    requires SamePri(s.procs, s1.procs, s.queue) && Schedule(s1, giveUp).Some?
    requires Distinct(Requeue(s1))
    ensures var t := Schedule(s1, giveUp).value;
            && Shape(t) && e in t.queue
            && (t.cur == Some(e) || (t.queue[0] != e && Wait(t, e) + Left(s) == Wait(s, e)))
  {
    hide Distinct, Without, Inv;
    RequeueShape(s1);
    var k, t, q := IndexOf(s.queue, e), Schedule(s1, giveUp).value, s.queue;
    var r := Requeue(s1);
    assert r[0] in r && Schedule(s1, giveUp) == Some(Run(s1.(queue := r, count := s1.procs[r[0]].pri - 1), r[0]));
    assert t.queue[k - 1] == e;
    IndexUnique(t.queue, k - 1);
    if k > 1 {
      assert t.queue[1..k - 1] == q[2..k] && q[1..k] == [q[1]] + q[2..k];
      assert SamePri(s.procs, t.procs, q[1..k]);
      TotalSame(s.procs, t.procs, q[1..k]);
      TotalConcat(t.procs, [q[1]], q[2..k]);
    }
  }

  lemma HeadGone(s: State)
    requires Running(s)
    ensures Without(s.queue, s.cur.value) == s.queue[1..]
    ensures Without(s.queue[1..], s.cur.value) == s.queue[1..]
  {
    IndexUnique(s.queue, 0);
    assert s.cur.value !in s.queue[1..];
  }

  lemma WaitTick(s: State, giveUp: bool, e: nat)
    requires Running(s) && e in s.queue && s.cur != Some(e) && Schedule(s, giveUp).Some?
    ensures var t := Schedule(s, giveUp).value;
            Shape(t) && e in t.queue &&
            (t.cur == Some(e) || (t.queue[0] != e && Wait(t, e) + 1 <= Wait(s, e)))
  {
    if Switches(s, giveUp) {
      HeadGone(s);
      RequeueReady(s);
      WaitSwitch(s, s, giveUp, e, [s.cur.value]);
    } else {
      TotalSame(s.procs, Schedule(s, giveUp).value.procs, s.queue[1..IndexOf(s.queue, e)]);
    }
  }

  lemma WaitRecv(s: State, dstva: nat, e: nat)
    requires Running(s) && e in s.queue && s.cur != Some(e) && IpcRecv(s, false, dstva).Ret?
    ensures var t := IpcRecv(s, false, dstva).s;
            Shape(t) && e in t.queue && (t.cur == Some(e) || (t.queue[0] != e && Wait(t, e) <= Wait(s, e)))
  {
    hide Wait, Distinct, Without;
    HeadGone(s);
    RecvKeeps(s, dstva);
    RequeueReady(Blocked(s, dstva));
    WaitSwitch(s, Blocked(s, dstva), true, e, []);
  }

  lemma WaitMarked(s: State, x: nat, status: Status, e: nat)
    requires Running(s) && e in s.queue && s.cur != Some(e) && x < NENV && status != Free
    requires Running(Marked(s, x, status)) && e in Marked(s, x, status).queue && s.cur != Some(x)
    ensures Wait(Marked(s, x, status), e) <= Wait(s, e)
  {
    var m := Marked(s, x, status);
    WithoutDistinct(s.queue, x);
    if m.queue == s.queue + [x] {
      WaitAppend(s, m, e, x);
    } else if m.queue == s.queue {
      TotalSame(s.procs, m.procs, s.queue[1..IndexOf(s.queue, e)]);
    } else {
      WaitWithout(s, m, e, x);
    }
  }

  lemma WaitStatus(s: State, envid: nat, status: Status, e: nat)
    requires Running(s) && e in s.queue && s.cur != Some(e)
    requires SetEnvStatus(s, envid, status).Ret?
    requires Running(SetEnvStatus(s, envid, status).s) && e in SetEnvStatus(s, envid, status).s.queue
    ensures var t := SetEnvStatus(s, envid, status).s; t.cur == Some(e) || Wait(t, e) <= Wait(s, e)
  {
    hide Wait, Distinct, Without;
    var o := Envid2Env(s, envid, true);
    if status != Free && o.Some? {
      var x, m := o.value, Marked(s, o.value, status);
      if o == s.cur {
        HeadGone(s);
        MarkedReady(s, x, status);
        RequeueReady(m);
        WaitSwitch(s, m, true, e, if status == Runnable then [x] else []);
      } else {
        WaitMarked(s, x, status, e);
      }
    }
  }

  function Gone(s: State, x: nat): State
    requires Running(s) && x < NENV
  {
    Freed(s, x).(cur := None)
  }

  lemma DestroySelf(s: State, x: nat, e: nat)
    requires Running(s) && e in s.queue && s.cur == Some(x) && x != e
    ensures Shape(Gone(s, x))
    ensures Schedule(Gone(s, x), true).Some? ==>
              var t := Schedule(Gone(s, x), true).value;
              Shape(t) && e in t.queue && (t.cur == Some(e) || (t.queue[0] != e && Wait(t, e) <= Wait(s, e)))
  {
    hide Wait, Distinct, Without, Schedule;
    HeadGone(s);
    assert s.queue[1..] + [] == s.queue[1..];
    assert forall y :: y in s.queue[1..] ==> y in s.queue;
    if Schedule(Gone(s, x), true).Some? { WaitSwitch(s, Gone(s, x), true, e, []); }
  }

  lemma WaitDestroy(s: State, envid: nat, e: nat)
    requires Running(s) && e in s.queue && s.cur != Some(e) && EnvDestroy(s, envid).Ret?
    requires Running(EnvDestroy(s, envid).s) && e in EnvDestroy(s, envid).s.queue
    ensures var t := EnvDestroy(s, envid).s; t.cur == Some(e) || Wait(t, e) <= Wait(s, e)
  {
    var o, t := Envid2Env(s, envid, true), EnvDestroy(s, envid).s;
    HeadGone(s);
    if o.Some? {
      WithoutDistinct(s.queue, o.value);
      var x := o.value;
      if o == s.cur {
        DestroySelf(s, x, e);
      } else {
        WaitWithout(s, t, e, x);
      }
    }
  }

  // Whatever the step, an env that stays runnable never waits longer for it, and a timer tick
  // brings it at least one tick closer.
  lemma WaitStep(s: State, step: Step, e: nat)
    requires Running(s) && e in s.queue && s.cur != Some(e)
    requires !QueuesTwice(s, step) && !BreaksLinks(s, step) && Next(s, step).Ret?
    requires Running(Next(s, step).s) && e in Next(s, step).s.queue
    ensures var t := Next(s, step).s;
            t.cur == Some(e) || Wait(t, e) + (if step.Tick? then 1 else 0) <= Wait(s, e)
  {
    match step
    case Tick => WaitTick(s, false, e);
    case Yield => WaitTick(s, true, e);
    case Recv(illegal, dstva) => if !illegal { WaitRecv(s, dstva, e); }
    case Send(envid, value, illegal, perm, page) =>
      if Next(s, step).s != s { WaitAppend(s, Next(s, step).s, e, Envid2Env(s, envid, false).value); }
    case SetStatus(envid, status) => WaitStatus(s, envid, status, e);
    case Destroy(envid, _) => WaitDestroy(s, envid, e);
    case Exofork(slot, id) =>
      assert forall i :: 0 <= i < |s.queue| ==> s.queue[i] in s.queue;
      TotalSame(s.procs, Next(s, step).s.procs, s.queue[1..IndexOf(s.queue, e)]);
  }

  ghost predicate Moves(states: seq<State>, steps: seq<Step>, i: nat)
    requires i < |steps| && |states| == |steps| + 1
  {
    && Running(states[i]) && !QueuesTwice(states[i], steps[i]) && !BreaksLinks(states[i], steps[i])
    && Next(states[i], steps[i]).Ret? && Next(states[i], steps[i]).s == states[i + 1]
  }

  // A run: each state is reached from the one before by a step that queues nobody twice and
  // breaks no link. On these the pointer queue of kernel.dfy takes the same steps.
  ghost predicate IsRun(states: seq<State>, steps: seq<Step>) {
    && |states| == |steps| + 1
    && Running(states[0])
    && forall i {:trigger Moves(states, steps, i)} :: 0 <= i < |steps| ==> Moves(states, steps, i)
  }

  function Ticks(steps: seq<Step>): nat {
    if steps == [] then 0 else Ticks(steps[..|steps| - 1]) + if steps[|steps| - 1].Tick? then 1 else 0
  }

  lemma {:induction false} RunKeeps(states: seq<State>, steps: seq<Step>, i: nat)
    requires IsRun(states, steps) && i <= |steps|
    ensures Running(states[i])
    decreases i
  {
    if 0 < i {
      RunKeeps(states, steps, i - 1);
      assert Moves(states, steps, i - 1);
      StepKeepsInv(states[i - 1], steps[i - 1]);
    }
  }

  lemma {:induction false} WaitRun(states: seq<State>, steps: seq<Step>, e: nat)
    requires IsRun(states, steps)
    requires forall i :: 0 <= i <= |steps| ==> e in states[i].queue && states[i].cur != Some(e)
    ensures Running(states[0]) && Running(states[|steps|])
    ensures Wait(states[|steps|], e) + Ticks(steps) <= Wait(states[0], e)
    decreases |steps|
  {
    var n := |steps|;
    RunKeeps(states, steps, n);
    if n > 0 {
      var states', steps' := states[..n], steps[..n - 1];
      forall i | 0 <= i < n - 1 ensures Moves(states', steps', i) { assert Moves(states, steps, i); }
      WaitRun(states', steps', e);
      assert Moves(states, steps, n - 1);
      WaitStep(states[n - 1], steps[n - 1], e);
    }
  }

  // In every run, whatever yields, blocks, wake-ups and exits it contains, an env that stays
  // runnable gets the CPU before Wait(start, e) timer ticks have passed.
  lemma BoundedWait(states: seq<State>, steps: seq<Step>, e: nat)
    requires IsRun(states, steps)
    requires forall i :: 0 <= i <= |steps| ==> e in states[i].queue
    requires states[0].cur != Some(e) && Ticks(steps) >= Wait(states[0], e)
    ensures exists i :: 0 <= i <= |steps| && states[i].cur == Some(e)
  {
    if forall i :: 0 <= i <= |steps| ==> states[i].cur != Some(e) {
      WaitRun(states, steps, e);
    }
  }
}
