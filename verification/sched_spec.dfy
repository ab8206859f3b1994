// The scheduler, the run queue and the system calls that move envs on and off it
// (kern/sched.c, kern/env.c, kern/syscall_all.c) as functions on a state value.
// kernel.dfy runs the same steps on envs[] and the intrusive queue and is proved against these.
module SchedSpec {
  import opened Common

  const NENV: nat := 1024

  // perm | PTE_V, PTE_V being bit 7
  function WithV(perm: nat): nat { if perm / 0x80 % 2 == 1 then perm else perm + 0x80 }

  datatype Proc = Proc(id: nat, parent: nat, status: Status, pri: int, runs: nat,
                       recving: bool, value: nat, from: nat, perm: nat, dstva: nat)

  // queue: env_sched_list, head first; cur: curenv; count: schedule's static counter.
  datatype State = State(procs: seq<Proc>, queue: seq<nat>, cur: Option<nat>, count: int)

  ghost predicate Shape(s: State) {
    && |s.procs| == NENV
    && (forall e :: e in s.queue ==> e < NENV)
    && (s.cur.Some? ==> s.cur.value < NENV)
  }

  // kern/env.c:14: an env is queued, once, exactly when it is RUNNABLE; the running one is the head.
  ghost predicate Inv(s: State) {
    && Shape(s)
    && Distinct(s.queue)
    && (forall e :: 0 <= e < NENV ==> (e in s.queue <==> s.procs[e].status == Runnable))
    && (s.cur.Some? ==> s.queue != [] && s.queue[0] == s.cur.value)
  }

  ghost predicate Running(s: State) { Inv(s) && s.cur.Some? }

  // env_run
  function Run(s: State, e: nat): State
    requires e < |s.procs|
  {
    s.(cur := Some(e), procs := s.procs[e := s.procs[e].(runs := s.procs[e].runs + 1)])
  }

  function Requeue(s: State): seq<nat>
    requires s.cur.Some? ==> s.cur.value < |s.procs|
  {
    match s.cur
    case None => s.queue
    case Some(c) => Without(s.queue, c) + if s.procs[c].status == Runnable then [c] else []
  }

  predicate Switches(s: State, giveUp: bool)
    requires s.cur.Some? ==> s.cur.value < |s.procs|
  {
    giveUp || s.count <= 0 || s.cur == None || s.procs[s.cur.value].status != Runnable
  }

  lemma RequeueShape(s: State)
    requires Shape(s)
    ensures forall e :: e in Requeue(s) ==> e < NENV
  {
    if s.cur.Some? {
      var w := Without(s.queue, s.cur.value);
      forall e | e in w ensures e in s.queue { }
    }
  }

  // schedule(yield); None is the panic on an empty queue.
  function Schedule(s: State, giveUp: bool): Option<State>
    requires Shape(s)
  {
    if Switches(s, giveUp) then
      var q := Requeue(s);
      if q == [] then None
      else
        assert q[0] < NENV by { RequeueShape(s); assert q[0] in q; }
        Some(Run(s.(queue := q, count := s.procs[q[0]].pri - 1), q[0]))
    else
      Some(Run(s.(count := s.count - 1), s.cur.value))
  }

  // The state in which schedule() runs env e.
  function Picked(s: State, giveUp: bool, e: nat): State
    requires Shape(s) && e < |s.procs|
  {
    if Switches(s, giveUp) then s.(queue := Requeue(s), count := s.procs[e].pri - 1)
    else s.(count := s.count - 1)
  }

  // The two ways schedule() goes on: with the env it picked, or with the running one.
  lemma ScheduleIs(s: State, giveUp: bool, e: nat)
    requires Shape(s)
    requires if Switches(s, giveUp) then Requeue(s) != [] && e == Requeue(s)[0] else s.cur == Some(e)
    ensures e < NENV && Schedule(s, giveUp) == Some(Run(Picked(s, giveUp, e), e))
  {
    RequeueShape(s);
    if Switches(s, giveUp) { assert e in Requeue(s); }
  }

  // Scheduling touches nothing of an env but its run counter.
  lemma ScheduleRuns(s: State, giveUp: bool, r: nat)
    requires Shape(s) && Schedule(s, giveUp).Some? && r < NENV
    ensures var t := Schedule(s, giveUp).value;
            |t.procs| == NENV && t.procs[r] == s.procs[r].(runs := t.procs[r].runs)
  {
    if Switches(s, giveUp) { ScheduleIs(s, giveUp, Requeue(s)[0]); }
    else { ScheduleIs(s, giveUp, s.cur.value); }
  }

  // envid2env
  function Envid2Env(s: State, envid: nat, checkperm: bool): Option<nat>
    requires Shape(s) && s.cur.Some?
  {
    if envid == 0 then s.cur
    else
      var e := envid % NENV;
      if s.procs[e].status == Free || s.procs[e].id != envid then None
      else if checkperm && e != s.cur.value && s.procs[e].parent != s.procs[s.cur.value].id then None
      else Some(e)
  }

  // A system call either ends the machine (panic) or leaves a state and a return value; the
  // value is 0 where the call does not return to its caller.
  datatype Outcome = Panic | Ret(s: State, r: int)

  function Resched(o: Option<State>): Outcome {
    match o case None => Panic case Some(s) => Ret(s, 0)
  }

  function Blocked(s: State, dstva: nat): State
    requires Running(s)
  {
    var c := s.cur.value;
    s.(procs := s.procs[c := s.procs[c].(recving := true, dstva := dstva, status := NotRunnable)],
       queue := Without(s.queue, c))
  }

  function IpcRecv(s: State, illegal: bool, dstva: nat): Outcome
    requires Running(s)
  {
    if illegal then Ret(s, E_INVAL)
    else
      WithoutDistinct(s.queue, s.cur.value);
      Resched(Schedule(Blocked(s, dstva), true))
  }

  // The target of a send woken with its message: from the sender, the value and perm with PTE_V.
  function Woken(s: State, e: nat, value: nat, perm: nat): State
    requires Running(s) && e < NENV
  {
    s.(procs := s.procs[e := s.procs[e].(value := value, from := s.procs[s.cur.value].id,
                                         perm := WithV(perm), recving := false, status := Runnable)],
       queue := s.queue + [e])
  }

  // sys_ipc_try_send. `page` is what mapping the page argument returned: 0 with no page
  // argument or a mapped one that was inserted, else the error. It comes after the wake-up.
  function IpcTrySend(s: State, envid: nat, value: nat, illegal: bool, perm: nat, page: int): Outcome
    requires Running(s)
  {
    if illegal then Ret(s, E_INVAL)
    else match Envid2Env(s, envid, false)
      case None => Ret(s, E_BAD_ENV)
      case Some(e) =>
        if !s.procs[e].recving then Ret(s, E_IPC_NOT_RECV)
        else Ret(Woken(s, e, value, perm), page)
  }

  function Marked(s: State, e: nat, status: Status): (r: State)
    requires Running(s) && e < NENV
    ensures Shape(r)
  {
    var was := s.procs[e].status;
    var q := if was != NotRunnable && status == NotRunnable then Without(s.queue, e)
             else if was != Runnable && status == Runnable then s.queue + [e]
             else s.queue;
    WithoutDistinct(s.queue, e);
    s.(queue := q, procs := s.procs[e := s.procs[e].(status := status)])
  }

  // sys_set_env_status
  function SetEnvStatus(s: State, envid: nat, status: Status): Outcome
    requires Running(s)
  {
    if status == Free then Ret(s, E_INVAL)
    else match Envid2Env(s, envid, true)
      case None => Ret(s, E_BAD_ENV)
      case Some(e) =>
        var s1 := Marked(s, e, status);
        if s.cur == Some(e) then Resched(Schedule(s1, true)) else Ret(s1, 0)
  }

  // env_free, as far as the queue goes.
  function Freed(s: State, e: nat): (r: State)
    requires Running(s) && e < NENV
    ensures Shape(r) && Distinct(r.queue)
  {
    WithoutDistinct(s.queue, e);
    s.(queue := Without(s.queue, e), procs := s.procs[e := s.procs[e].(status := Free)])
  }

  // sys_env_destroy, as far as the queue goes.
  function EnvDestroy(s: State, envid: nat): Outcome
    requires Running(s)
  {
    match Envid2Env(s, envid, true)
    case None => Ret(s, E_BAD_ENV)
    case Some(e) =>
      var s1 := Freed(s, e);
      if s.cur == Some(e) then Resched(Schedule(s1.(cur := None), true)) else Ret(s1, 0)
  }

  // sys_exofork once env_alloc has taken a free slot and made its id.
  function Exofork(s: State, slot: nat, id: nat): Outcome
    requires Running(s)
  {
    if slot >= NENV || s.procs[slot].status != Free then Ret(s, E_NO_FREE_ENV)
    else
      var c := s.procs[s.cur.value];
      Ret(s.(procs := s.procs[slot := s.procs[slot].(id := id, parent := c.id, runs := 0,
                                                     status := NotRunnable, pri := c.pri)]), id)
  }

  datatype Step =
    | Tick                                            // timer interrupt
    | Yield
    | Recv(illegal: bool, dstva: nat)                 // sys_ipc_recv
    | Send(envid: nat, value: nat, illegal: bool, perm: nat, page: int)
    | SetStatus(envid: nat, status: Status)
    | Destroy(envid: nat, harmless: bool)   // whether removing the target through stale links harms none
    | Exofork(slot: nat, id: nat)

  function Next(s: State, step: Step): Outcome
    requires Running(s)
  {
    match step
    case Tick => Resched(Schedule(s, false))
    case Yield => Resched(Schedule(s, true))
    case Recv(illegal, dstva) => IpcRecv(s, illegal, dstva)
    case Send(envid, value, illegal, perm, page) => IpcTrySend(s, envid, value, illegal, perm, page)
    case SetStatus(envid, status) => SetEnvStatus(s, envid, status)
    case Destroy(envid, _) => EnvDestroy(s, envid)
    case Exofork(slot, id) => Exofork(s, slot, id)
  }

  // A send to an env that is marked as receiving although it is runnable, hence queued already:
  // sys_ipc_try_send looks at the mark alone and queues it again.
  predicate QueuesTwice(s: State, step: Step)
    requires Running(s)
  {
    && step.Send? && !step.illegal
    && var e := Envid2Env(s, step.envid, false);
       e.Some? && s.procs[e.value].recving && s.procs[e.value].status == Runnable
  }

  // Destroying an env that is not queued, when that harms the queue. env_free removes it all the same,
  // through whatever links its last removal left behind; what that does is a matter of these links
  // alone (TailQueue.CutStale, KernelSched.Kernel.SysEnvDestroy) and not of this state.
  predicate BreaksLinks(s: State, step: Step)
    requires Running(s)
  {
    && step.Destroy? && !step.harmless
    && var e := Envid2Env(s, step.envid, true);
       e.Some? && s.procs[e.value].status != Runnable
  }

  // What holds whenever the scheduler is entered: the queue is right, the caller may have left it.
  ghost predicate Ready(s: State) {
    && Shape(s)
    && Distinct(s.queue)
    && (forall e :: 0 <= e < NENV ==> (e in s.queue <==> s.procs[e].status == Runnable))
    && (s.cur.Some? && s.procs[s.cur.value].status == Runnable ==> s.queue[0] == s.cur.value)
  }

  lemma RequeueReady(s: State)
    requires Ready(s)
    ensures Distinct(Requeue(s))
    ensures forall e :: e in Requeue(s) <==> e in s.queue
  {
    if s.cur.Some? {
      var c := s.cur.value;
      WithoutDistinct(s.queue, c);
      var w := Without(s.queue, c);
      assert forall i :: 0 <= i < |w| ==> w[i] in w;
    }
  }

  lemma ScheduleKeeps(s: State, giveUp: bool)
    requires Ready(s)
    ensures Schedule(s, giveUp).Some? ==> Running(Schedule(s, giveUp).value)
  {
    hide Distinct, Without;
    RequeueReady(s);
    RequeueShape(s);
    var q := Requeue(s);
    if Switches(s, giveUp) && q != [] {
      assert q[0] in q;
      var t := Run(s.(queue := q, count := s.procs[q[0]].pri - 1), q[0]);
      assert Schedule(s, giveUp) == Some(t) && Running(t);
    }
  }

  lemma RecvKeeps(s: State, dstva: nat)
    requires Running(s)
    ensures Ready(Blocked(s, dstva))
  {
    WithoutDistinct(s.queue, s.cur.value);
  }

  lemma HeadStays(q: seq<nat>, e: nat)
    requires q != [] && q[0] != e
    ensures Without(q, e) != [] && Without(q, e)[0] == q[0]
  {
  }

  lemma MarkedReady(s: State, e: nat, status: Status)
    requires Running(s) && e < NENV && status != Free
    ensures e == s.cur.value ==> Ready(Marked(s, e, status))
    ensures e != s.cur.value ==> Running(Marked(s, e, status))
  {
    hide Without;
    WithoutDistinct(s.queue, e);
    if e != s.cur.value { HeadStays(s.queue, e); }
  }

  lemma StatusKeeps(s: State, envid: nat, status: Status)
    requires Running(s) && SetEnvStatus(s, envid, status).Ret?
    ensures Running(SetEnvStatus(s, envid, status).s)
  {
    var t := Envid2Env(s, envid, true);
    if status != Free && t.Some? {
      MarkedReady(s, t.value, status);
      if t == s.cur { ScheduleKeeps(Marked(s, t.value, status), true); }
    }
  }

  // The env destroyed leaves the queue and nobody else does.
  lemma DestroyKeeps(s: State, envid: nat)
    requires Running(s) && EnvDestroy(s, envid).Ret?
    ensures var t, o := EnvDestroy(s, envid).s, Envid2Env(s, envid, true);
            && Running(t)
            && forall e :: e in t.queue <==> e in s.queue && o != Some(e)
  {
    var t := Envid2Env(s, envid, true);
    if t.Some? {
      var e := t.value;
      WithoutDistinct(s.queue, e);
      if t == s.cur {
        var f := Freed(s, e).(cur := None);
        ScheduleKeeps(f, true);
        ScheduleIs(f, true, f.queue[0]);
      } else {
        HeadStays(s.queue, e);
      }
    }
  }

  lemma {:induction false} OneEntry(q: seq<nat>, e: nat)
    requires Distinct(q)
    ensures multiset(q)[e] == if e in q then 1 else 0
  {
    if q != [] {
      assert q == [q[0]] + q[1..];
      OneEntry(q[1..], e);
    }
  }

  // A send queues its target a second time exactly when that was runnable already; the queue then
  // holds it twice and stays wrong.
  lemma SendKeeps(s: State, step: Step)
    requires Running(s) && step.Send?
    ensures Running(Next(s, step).s) <==> !QueuesTwice(s, step)
    ensures QueuesTwice(s, step) ==>
              var e, t := Envid2Env(s, step.envid, false).value, Next(s, step).s;
              multiset(t.queue)[e] == 2
  {
    if QueuesTwice(s, step) {
      var e := Envid2Env(s, step.envid, false).value;
      OneEntry(s.queue, e);
      var i, t := IndexOf(s.queue, e), Next(s, step).s;
      assert t.queue[i] == e == t.queue[|s.queue|];
    }
  }

  // How an env comes to be runnable and receiving at once: its parent sets a child that waits for
  // a message to ENV_RUNNABLE. The next send to it queues it twice.
  lemma StatusThenSend(s: State, envid: nat, value: nat, perm: nat, page: int)
    requires Running(s) && Envid2Env(s, envid, true).Some?
    requires var e := Envid2Env(s, envid, true).value;
             s.procs[e].recving && s.procs[e].status == NotRunnable
    ensures var e, o := Envid2Env(s, envid, true).value, Next(s, SetStatus(envid, Runnable));
            && o.Ret? && Running(o.s)
            && var u := Next(o.s, Send(envid, value, false, perm, page));
               u.Ret? && u.s.queue == s.queue + [e, e] && !Running(u.s)
  {
    var e := Envid2Env(s, envid, true).value;
    StatusKeeps(s, envid, Runnable);
    var t := Next(s, SetStatus(envid, Runnable)).s;
    assert Envid2Env(t, envid, false) == Some(e);
    SendKeeps(t, Send(envid, value, false, perm, page));
  }

  // The running env stops the env of aid, sends to y and destroys the first: what the statuses and the
  // queue say at the end.
  ghost predicate LeavesWoken(s: State, aid: nat, y: nat, yid: nat, value: nat, perm: nat, page: int) {
    && Running(s) && y < NENV
    && var o1 := Next(s, SetStatus(aid, NotRunnable));
    && o1.Ret? && Running(o1.s)
    && var o2 := Next(o1.s, Send(yid, value, false, perm, page));
    && o2.Ret? && Running(o2.s) && BreaksLinks(o2.s, Destroy(aid, false))
    && var o3 := Next(o2.s, Destroy(aid, false));
    && o3.Ret? && y in o3.s.queue && |o3.s.procs| == NENV && o3.s.procs[y].status == Runnable
  }

  // The running env p stops a child, sends to an env that waits and destroys the child. As far as
  // statuses and the queue go, the env woken stays runnable and queued.
  lemma StatusSendDestroy(s: State, a: nat, aid: nat, y: nat, yid: nat, value: nat, perm: nat, page: int)
    requires Running(s) && a < NENV && y < NENV && s.cur != Some(a) && a in s.queue
    requires Envid2Env(s, aid, true) == Some(a) && Envid2Env(s, yid, false) == Some(y)
    requires s.procs[y].recving && s.procs[y].status == NotRunnable
    ensures LeavesWoken(s, aid, y, yid, value, perm, page)
  {
    hide Distinct, Without;
    StatusKeeps(s, aid, NotRunnable);
    var s1 := Next(s, SetStatus(aid, NotRunnable)).s;
    assert s1 == Marked(s, a, NotRunnable);
    assert Envid2Env(s1, yid, false) == Some(y);
    SendKeeps(s1, Send(yid, value, false, perm, page));
    var s2 := Next(s1, Send(yid, value, false, perm, page)).s;
    assert s2 == Woken(s1, y, value, perm);
    assert Envid2Env(s2, aid, true) == Some(a);
    WithoutDistinct(s2.queue, a);
    assert s2.queue[|s2.queue| - 1] == y;
  }

  // Every other step keeps the invariant, and that one always breaks it.
  lemma StepKeepsInv(s: State, step: Step)
    requires Running(s) && Next(s, step).Ret? && !BreaksLinks(s, step)
    ensures Running(Next(s, step).s) <==> !QueuesTwice(s, step)
  {
    match step
    case Tick => ScheduleKeeps(s, false);
    case Yield => ScheduleKeeps(s, true);
    case Recv(illegal, dstva) =>
      RecvKeeps(s, dstva);
      ScheduleKeeps(Blocked(s, dstva), true);
    case Send(_, _, _, _, _) => SendKeeps(s, step);
    case SetStatus(envid, status) => StatusKeeps(s, envid, status);
    case Destroy(envid, _) => DestroyKeeps(s, envid);
    case Exofork(_, _) =>
  }
}
