// envs[], curenv, the run queue and the slice counter as the kernel keeps them, updated in place
// (kern/sched.c, kern/env.c, kern/syscall_all.c). Every method is proved to take the step that
// SchedSpec gives for it.
module KernelSched {
  import opened Common
  import opened TailQueue
  import opened SchedSpec

  // Positions in envs[].
  ghost function Ids(q: seq<Env>): (r: seq<nat>)
    ensures |r| == |q| && forall i :: 0 <= i < |q| ==> r[i] == q[i].idx
  {
    seq(|q|, i requires 0 <= i < |q| => q[i].idx)
  }

  lemma IdsWithout(q: seq<Env>, x: Env)
    requires forall e :: e in q && e.idx == x.idx ==> e == x
    ensures x in q <==> x.idx in Ids(q)
    ensures Ids(Without(q, x)) == Without(Ids(q), x.idx)
  {
    var r := Ids(q);
    if x in q {
      var k := IndexOf(q, x);
      forall i | 0 <= i < k ensures r[i] != x.idx { assert q[i] in q && q[i] in q[..k]; }
      IndexFirst(r, x.idx, k);
    } else {
      forall i | 0 <= i < |r| ensures r[i] != x.idx { assert q[i] in q; }
    }
  }

  // What three calls can do when the last env of the queue is a child of the running one: the
  // child is set to ENV_NOT_RUNNABLE, an env that waits is sent a message, the child is destroyed.
  // By its status the env woken is then runnable and ought to be queued; the links have lost it.
  lemma DestroyLosesEnv(s: State, m: Image, q: seq<Env>, a: Env, aid: nat, y: Env, yid: nat,
                        value: nat, perm: nat, page: int)
    requires Running(s) && Closed(m) && Linked(m, q + [a]) && s.queue == Ids(q + [a])
    requires a in m.at && y in m.at && y !in q + [a]
    requires a.idx < NENV && y.idx < NENV && s.cur != Some(a.idx)
    requires Envid2Env(s, aid, true) == Some(a.idx) && Envid2Env(s, yid, false) == Some(y.idx)
    requires s.procs[y.idx].recving && s.procs[y.idx].status == NotRunnable
    ensures Closed(Cut(m, a)) && Closed(PutTail(Cut(m, a), y))
    ensures LeavesWoken(s, aid, y.idx, yid, value, perm, page)
    ensures var m2 := PutTail(Cut(m, a), y);
            a in m2.at && Linked(Cut(m2, a), q) && y !in q
  {
    hide Linked, Closed, PutTail, Cut, Harmless, Covers, LeavesWoken;
    StaleRemoveLoses(m, q, a, y);
    assert s.queue[|q|] == a.idx;
    StatusSendDestroy(s, a.idx, aid, y.idx, yid, value, perm, page);
    assert forall x :: x in q ==> x in q + [a];
  }

  class Kernel {
    const envs: seq<Env>
    const q: Queue            // env_sched_list
    var curenv: Env?
    var count: int            // schedule's static counter

    // The queue holds envs of envs[], whatever its links.
    ghost predicate Fits()
      reads this, q`Contents
    {
      && |envs| == NENV
      && (forall i :: 0 <= i < NENV ==> envs[i].idx == i)
      && q.all == (set e | e in envs)
      && (curenv != null ==> curenv in envs)
      && (forall e :: e in q.Contents ==> e in envs)
    }

    ghost predicate Valid()
      reads this, q, envs
    {
      Fits() && q.Valid()
    }

    ghost function Proc(e: Env): SchedSpec.Proc
      reads e
    {
      SchedSpec.Proc(e.id, e.parent, e.status, e.pri, e.runs, e.recving, e.value, e.from, e.perm, e.dstva)
    }

    ghost function Abs(): (s: State)
      reads this, q, envs
      ensures |s.procs| == |envs| && forall i :: 0 <= i < |envs| ==> s.procs[i] == Proc(envs[i])
    {
      State(seq(|envs|, i requires 0 <= i < |envs| reads envs => Proc(envs[i])),
            Ids(q.Contents), if curenv == null then None else Some(curenv.idx), count)
    }

    // The running env is queued, or its links are as its removal left them.
    ghost predicate CurFits()
      reads this, q, envs
      requires Valid()
    {
      curenv == null || curenv in q.Contents || Spliced(q.Snap(), curenv)
    }

    constructor (envs: seq<Env>)
      requires |envs| == NENV
      requires forall i :: 0 <= i < NENV ==> envs[i].idx == i && envs[i].next == null && envs[i].prev == First
      ensures Valid() && fresh(q) && this.envs == envs && curenv == null && count == 0 && q.Contents == []
    {
      this.envs := envs;
      q := new Queue(set e | e in envs);
      curenv, count := null, 0;
    }

    // TAILQ_REMOVE and TAILQ_INSERT_TAIL on env_sched_list.
    method Dequeue(e: Env)
      requires Valid() && e in envs
      modifies q, envs`next, envs`prev
      ensures q.Valid() <==> old(e in q.Contents || Harmless(q.Snap(), q.Contents, e))
      ensures q.Valid() ==> Valid()
      ensures Abs() == old(Abs()).(queue := Without(old(Abs()).queue, e.idx))
      ensures old(e in q.Contents || Spliced(q.Snap(), e)) ==> Valid() && Spliced(q.Snap(), e)
    {
      hide Queue.Valid, Queue.Snap, Spliced, Harmless, Distinct, Without;
      ghost var s := Abs();
      assert envs[e.idx] == e;
      IdsWithout(q.Contents, e);
      q.Remove(e);
      WithoutIn(old(q.Contents), e);
      assert Abs().procs == s.procs;
    }

    method Enqueue(e: Env)
      requires Valid() && e in envs
      modifies q, envs`next, envs`prev
      ensures q.Valid() <==> e.idx !in old(Abs()).queue
      ensures q.Valid() ==> Valid()
      ensures Abs() == old(Abs()).(queue := old(Abs()).queue + [e.idx])
    {
      hide Queue.Valid, Queue.Snap, Without, Distinct;
      assert envs[e.idx] == e;
      ghost var s := Abs();
      IdsWithout(q.Contents, e);
      q.InsertTail(e);
      assert Abs().procs == s.procs;
      assert Abs().queue == s.queue + [e.idx];
    }

    // Stores to the fields of one env.
    method PutStatus(e: Env, status: Status)
      requires Valid() && e in envs
      modifies e`status
      ensures Valid() && q.Snap() == old(q.Snap())
      ensures Abs() == old(Abs()).(procs := old(Abs()).procs[e.idx := old(Abs()).procs[e.idx].(status := status)])
    {
      hide Queue.Valid, Queue.Snap;
      ghost var s := Abs();
      assert envs[e.idx] == e;
      e.status := status;
      assert Abs().procs == s.procs[e.idx := s.procs[e.idx].(status := status)];
    }

    method PutReceiving(e: Env, dstva: nat)
      requires Valid() && e in envs
      modifies e`recving, e`dstva
      ensures Valid() && q.Snap() == old(q.Snap())
      ensures Abs() == old(Abs()).(procs := old(Abs()).procs[e.idx :=
                         old(Abs()).procs[e.idx].(recving := true, dstva := dstva)])
    {
      hide Queue.Valid, Queue.Snap;
      ghost var s := Abs();
      assert envs[e.idx] == e;
      e.StartReceiving(dstva);
      assert Abs().procs == s.procs[e.idx := s.procs[e.idx].(recving := true, dstva := dstva)];
    }

    method PutMessage(e: Env, value: nat, from: nat, perm: nat)
      requires Valid() && e in envs
      modifies e`value, e`from, e`perm
      ensures Valid() && q.Snap() == old(q.Snap())
      ensures Abs() == old(Abs()).(procs := old(Abs()).procs[e.idx :=
                         old(Abs()).procs[e.idx].(value := value, from := from, perm := perm)])
    {
      hide Queue.Valid, Queue.Snap;
      ghost var s := Abs();
      assert envs[e.idx] == e;
      e.TakeMessage(value, from, perm);
      assert Abs().procs == s.procs[e.idx := s.procs[e.idx].(value := value, from := from, perm := perm)];
    }

    // The wake-up half of the stores: no longer receiving, runnable again.
    method PutAwake(e: Env)
      requires Valid() && e in envs
      modifies e`recving, e`status
      ensures Valid() && q.Snap() == old(q.Snap())
      ensures Abs() == old(Abs()).(procs := old(Abs()).procs[e.idx :=
                         old(Abs()).procs[e.idx].(recving := false, status := Runnable)])
    {
      hide Queue.Valid, Queue.Snap;
      ghost var s := Abs();
      assert envs[e.idx] == e;
      e.WakeUp();
      assert Abs().procs == s.procs[e.idx := s.procs[e.idx].(recving := false, status := Runnable)];
    }

    method CountRun(e: Env)
      requires Valid() && e in envs
      modifies e`runs
      ensures Valid() && q.Snap() == old(q.Snap())
      ensures Abs() == old(Abs()).(procs := old(Abs()).procs[e.idx :=
                         old(Abs()).procs[e.idx].(runs := old(Abs()).procs[e.idx].runs + 1)])
    {
      hide Queue.Valid, Queue.Snap;
      ghost var s := Abs();
      assert envs[e.idx] == e;
      e.runs := e.runs + 1;
      assert Abs().procs == s.procs[e.idx := s.procs[e.idx].(runs := s.procs[e.idx].runs + 1)];
    }

    method MakeCurrent(e: Env)
      requires Valid() && e in envs
      modifies this`curenv
      ensures Valid() && Abs() == old(Abs()).(cur := Some(e.idx))
    {
      hide Queue.Valid, Queue.Snap, Ids;
      ghost var s := Abs();
      curenv := e;
      assert Abs().procs == s.procs;
    }

    lemma RunSteps(s: State, e: nat)
      requires e < |s.procs|
      ensures Run(s, e) == s.(procs := s.procs[e := s.procs[e].(runs := s.procs[e].runs + 1)]).(cur := Some(e))
    {
    }

    // env_run
    method EnvRun(e: Env)
      requires Valid() && e in envs
      modifies this`curenv, e`runs
      ensures Valid() && Abs() == Run(old(Abs()), e.idx)
    {
      assert envs[e.idx] == e;
      RunSteps(Abs(), e.idx);
      hide Queue.Valid, Queue.Snap, Abs, Run, Fits;
      CountRun(e);
      MakeCurrent(e);
    }

    // schedule(), up to the choice of the next env; null is the panic.
    method Choose() returns (e: Env?)
      requires Valid() && Shape(Abs()) && CurFits() && Distinct(Abs().queue)
      modifies q, envs`next, envs`prev
      ensures Valid() && Abs() == old(Abs()).(queue := Requeue(old(Abs())))
      ensures e == null <==> Abs().queue == []
      ensures e != null ==> e in envs && e.idx == Abs().queue[0]
    {
      hide Queue.Valid, Queue.Snap, Spliced, Covers, Without, Distinct, SchedSpec.Inv;
      ghost var s := Abs();
      if curenv != null {
        assert envs[curenv.idx] == curenv;
        WithoutDistinct(s.queue, curenv.idx);
        Dequeue(curenv);
        if curenv.status == Runnable {
          Enqueue(curenv);
        }
      }
      e := q.Head();
    }

    // The choice of the next env and the refilled counter.
    method Switch() returns (e: Env?)
      requires Valid() && Shape(Abs()) && CurFits() && Distinct(Abs().queue)
      modifies this`count, q, envs`next, envs`prev
      ensures Valid()
      ensures e == null <==> Requeue(old(Abs())) == []
      ensures e != null ==> e in envs && e.idx == Requeue(old(Abs()))[0] && e.idx < NENV
      ensures e != null ==> Abs() == old(Abs()).(queue := Requeue(old(Abs())),
                                                 count := old(Abs()).procs[e.idx].pri)
    {
      hide Queue.Valid, Queue.Snap, Requeue, Distinct, Spliced, Covers;
      e := Choose();
      if e != null {
        assert envs[e.idx] == e;
        count := e.pri;
      }
    }

    lemma ScheduleFails(s: State, giveUp: bool)
      requires Shape(s)
      ensures SchedSpec.Schedule(s, giveUp) == None <==> Switches(s, giveUp) && Requeue(s) == []
    {
      hide Requeue;
    }

    method Schedule(giveUp: bool) returns (panicked: bool)
      requires Valid() && Shape(Abs()) && CurFits() && Distinct(Abs().queue)
      modifies this, q, envs`next, envs`prev, envs`runs
      ensures Valid()
      ensures panicked <==> SchedSpec.Schedule(old(Abs()), giveUp) == None
      ensures !panicked ==> Some(Abs()) == SchedSpec.Schedule(old(Abs()), giveUp)
    {
      hide Queue.Valid, Queue.Snap, Requeue, Distinct, Spliced, Covers, Without, Run, SchedSpec.Schedule;
      ghost var s := Abs();
      ScheduleFails(s, giveUp);
      var e := curenv;
      if giveUp || count <= 0 || e == null || e.status != Runnable {
        e := Switch();
        if e == null {
          return true;
        }
      }
      assert envs[e.idx] == e;
      ScheduleIs(s, giveUp, e.idx);
      count := count - 1;
      assert Abs() == Picked(s, giveUp, e.idx);
      hide Picked, Switches;
      EnvRun(e);
      return false;
    }

    // envid names e: 0 is the caller, any other id the live env that has it in its slot.
    predicate Named(e: Env, envid: nat)
      reads this, envs
      requires |envs| == NENV
    {
      if envid == 0 then e == curenv else e == envs[envid % NENV] && e.id == envid && e.status != Free
    }

    // The caller itself or a child of its.
    predicate Permitted(e: Env)
      reads this, curenv, e
      requires curenv != null
    {
      e == curenv || e.parent == curenv.id
    }

    // envid2env; null is -E_BAD_ENV.
    method EnvidToEnv(envid: nat, checkperm: bool) returns (e: Env?)
      requires Valid() && Shape(Abs()) && curenv != null
      ensures match Envid2Env(Abs(), envid, checkperm)
              case None => e == null
              case Some(i) => e == envs[i] && e.idx == i
      ensures e != null ==> e in envs && Named(e, envid) && (checkperm ==> Permitted(e))
      ensures e == null ==> forall x :: x in envs && Named(x, envid) ==> checkperm && !Permitted(x)
    {
      assert envs[curenv.idx] == curenv;
      if envid == 0 {
        return curenv;
      }
      e := envs[envid % NENV];
      if e.status == Free || e.id != envid {
        return null;
      }
      if checkperm && e != curenv && e.parent != curenv.id {
        return null;
      }
    }

    // sys_ipc_recv: removes the caller from the queue itself, and schedule() removes it again.
    method SysIpcRecv(illegal: bool, dstva: nat) returns (panicked: bool, r: int)
      requires Valid() && Running(Abs())
      modifies this, q, envs
      ensures Valid()
      ensures panicked <==> IpcRecv(old(Abs()), illegal, dstva).Panic?
      ensures !panicked ==> IpcRecv(old(Abs()), illegal, dstva) == Ret(Abs(), r)
    {
      hide Queue.Valid, Queue.Snap, Distinct, Spliced, Without, SchedSpec.Schedule;
      if illegal {
        return false, E_INVAL;
      }
      ghost var s := Abs();
      RecvKeeps(s, dstva);
      assert envs[curenv.idx] == curenv;
      CurQueued();
      PutReceiving(curenv, dstva);
      PutStatus(curenv, NotRunnable);
      Dequeue(curenv);
      assert Abs().procs == Blocked(s, dstva).procs;
      panicked := Schedule(true);
      r := 0;
    }

    lemma CurQueued()
      requires Valid() && Running(Abs())
      ensures q.Contents != [] && q.Contents[0] == curenv && curenv in q.Contents
    {
      assert envs[curenv.idx] == curenv && Abs().queue[0] == curenv.idx;
      assert q.Contents[0] in envs;
    }

    // The message goes into the block of the target, which is woken and queued.
    method Deliver(e: Env, value: nat, perm: nat)
      requires Valid() && Running(Abs()) && e in envs && e.idx < NENV
      modifies q, envs
      ensures q.Valid() <==> e.idx !in old(Abs()).queue
      ensures q.Valid() ==> Valid()
      ensures Abs() == Woken(old(Abs()), e.idx, value, perm)
    {
      ghost var s := Abs();
      assert envs[curenv.idx] == curenv && s.procs[s.cur.value].id == curenv.id;
      WokenSteps(s, e.idx, value, perm);
      hide Queue.Valid, Queue.Snap, SchedSpec.Inv, Distinct, Abs, Woken, Fits;
      PutMessage(e, value, curenv.id, WithV(perm));
      PutAwake(e);
      Enqueue(e);
    }

    lemma WokenSteps(s: State, e: nat, value: nat, perm: nat)
      requires Running(s) && e < NENV
      ensures var s1 := s.(procs := s.procs[e := s.procs[e].(value := value, from := s.procs[s.cur.value].id,
                                                             perm := WithV(perm))]);
        var s2 := s1.(procs := s1.procs[e := s1.procs[e].(recving := false, status := Runnable)]);
        s2.(queue := s2.queue + [e]) == Woken(s, e, value, perm)
    {
    }

    lemma TwiceIf(s: State, envid: nat, e: nat, value: nat, perm: nat, page: int)
      requires Running(s) && Envid2Env(s, envid, false) == Some(e) && s.procs[e].recving
      ensures QueuesTwice(s, Send(envid, value, false, perm, page)) <==> e in s.queue
    {
    }

    // sys_ipc_try_send; `page` is what mapping the page argument returns. The links survive exactly
    // when the target was not queued already.
    method SysIpcTrySend(envid: nat, value: nat, illegal: bool, perm: nat, page: int) returns (r: int)
      requires Valid() && Running(Abs())
      modifies this, q, envs
      ensures q.Valid() <==> !QueuesTwice(old(Abs()), Send(envid, value, illegal, perm, page))
      ensures q.Valid() ==> Valid()
      ensures IpcTrySend(old(Abs()), envid, value, illegal, perm, page) == Ret(Abs(), r)
    {
      hide Queue.Valid, Queue.Snap, Distinct, Woken;
      if illegal {
        return E_INVAL;
      }
      ghost var s := Abs();
      var e := EnvidToEnv(envid, false);
      if e == null {
        return E_BAD_ENV;
      }
      if !e.recving {
        return E_IPC_NOT_RECV;
      }
      TwiceIf(s, envid, e.idx, value, perm, page);
      Deliver(e, value, perm);
      return page;
    }

    // sys_set_env_status, as far as the target goes.
    method Mark(env: Env, status: Status)
      requires Valid() && Running(Abs()) && env in envs && env.idx < NENV
      requires status != Free && env.status != Free
      modifies q, envs
      ensures Valid() && Abs() == Marked(old(Abs()), env.idx, status)
      ensures env == curenv ==> CurFits() && Distinct(Abs().queue)
    {
      hide Queue.Valid, Queue.Snap, Distinct, Spliced, Without;
      ghost var s := Abs();
      assert envs[env.idx] == env && s.procs[env.idx].status == env.status;
      CurQueued();
      IdsWithout(q.Contents, env);
      MarkedReady(s, env.idx, status);
      if env.status != NotRunnable && status == NotRunnable {
        assert env.idx in s.queue;
        Dequeue(env);
      } else if env.status != Runnable && status == Runnable {
        Enqueue(env);
      }
      PutStatus(env, status);
    }

    method SysSetEnvStatus(envid: nat, status: Status) returns (panicked: bool, r: int)
      requires Valid() && Running(Abs())
      modifies this, q, envs
      ensures Valid()
      ensures panicked <==> SetEnvStatus(old(Abs()), envid, status).Panic?
      ensures !panicked ==> SetEnvStatus(old(Abs()), envid, status) == Ret(Abs(), r)
    {
      hide Queue.Valid, Queue.Snap, Distinct, Spliced, Without, SchedSpec.Schedule, Marked;
      if status != Runnable && status != NotRunnable {
        return false, E_INVAL;
      }
      ghost var s := Abs();
      var env := EnvidToEnv(envid, true);
      if env == null {
        return false, E_BAD_ENV;
      }
      Mark(env, status);
      panicked, r := false, 0;
      if env == curenv {
        panicked := Schedule(true);
      }
    }

    // env_free, as far as the queue goes. It removes the env whether or not it is queued; the
    // queue survives exactly when it is, or when its stale links happen to be harmless.
    method EnvFree(e: Env)
      requires Valid() && e in envs
      modifies q, envs`next, envs`prev, e`status
      ensures q.Valid() <==> old(e in q.Contents || Harmless(q.Snap(), q.Contents, e))
      ensures q.Valid() ==> Valid()
      ensures Abs() == old(Abs()).(queue := Without(old(Abs()).queue, e.idx),
                                   procs := old(Abs()).procs[e.idx := old(Abs()).procs[e.idx].(status := Free)])
    {
      PutStatus(e, Free);
      Dequeue(e);
    }

    // env_destroy. The running env is always queued, so only the links of another one can do harm;
    // the queue survives exactly when they do not.
    method EnvDestroy(e: Env) returns (panicked: bool)
      requires Valid() && Running(Abs()) && e in envs && e.idx < NENV
      modifies this, q, envs
      ensures q.Valid() <==> old(e in q.Contents || Harmless(q.Snap(), q.Contents, e))
      ensures q.Valid() ==> Valid()
      ensures e != old(curenv) ==> !panicked && Abs() == Freed(old(Abs()), e.idx)
      ensures e == old(curenv) ==>
                var o := SchedSpec.Schedule(Freed(old(Abs()), e.idx).(cur := None), true);
                (panicked <==> o == None) && (!panicked ==> Some(Abs()) == o)
    {
      hide Queue.Valid, Queue.Snap, Harmless, Covers;
      ghost var s1 := Freed(Abs(), e.idx);
      CurQueued();
      EnvFree(e);
      assert Abs() == s1;
      hide SchedSpec.Inv, Freed;
      panicked := false;
      if curenv == e {
        curenv := null;
        assert Abs() == s1.(cur := None);
        panicked := Schedule(true);
      }
    }

    // The step of sys_env_destroy once its target is found.
    lemma DestroyIs(s: State, envid: nat, e: nat)
      requires Running(s) && Envid2Env(s, envid, true) == Some(e)
      ensures SchedSpec.EnvDestroy(s, envid) ==
              if s.cur == Some(e) then Resched(SchedSpec.Schedule(Freed(s, e).(cur := None), true))
              else Ret(Freed(s, e), 0)
    {
      hide SchedSpec.Schedule, Freed;
    }

    lemma BreaksIs(s: State, envid: nat, e: nat)
      requires Running(s) && Envid2Env(s, envid, true) == Some(e)
      ensures BreaksLinks(s, Destroy(envid, false)) <==> e !in s.queue
      ensures !BreaksLinks(s, Destroy(envid, true))
    {
    }

    lemma NoneFound(s: State, envid: nat)
      requires Running(s) && Envid2Env(s, envid, true) == None
      ensures SchedSpec.EnvDestroy(s, envid) == Ret(s, E_BAD_ENV)
    {
    }

    // sys_env_destroy on a target that was found.
    method DestroyFound(ghost envid: nat, e: Env) returns (panicked: bool)
      requires Valid() && Running(Abs()) && e in envs && e.idx < NENV
      requires Envid2Env(Abs(), envid, true) == Some(e.idx)
      modifies this, q, envs
      ensures q.Valid() <==> old(e in q.Contents || Harmless(q.Snap(), q.Contents, e))
      ensures q.Valid() ==> Valid()
      ensures panicked <==> SchedSpec.EnvDestroy(old(Abs()), envid).Panic?
      ensures !panicked ==> SchedSpec.EnvDestroy(old(Abs()), envid) == Ret(Abs(), 0)
    {
      hide Queue.Valid, Queue.Snap, Harmless, Covers, SchedSpec.Schedule, Distinct, Without;
      DestroyIs(Abs(), envid, e.idx);
      assert envs[curenv.idx] == curenv && envs[e.idx] == e;
      assert Abs().cur == Some(e.idx) <==> curenv == e;
      hide Envid2Env, SchedSpec.EnvDestroy, Freed, SchedSpec.Inv, Fits, Abs;
      panicked := EnvDestroy(e);
    }

    // sys_env_destroy. It takes the step exactly when that breaks no link.
    method SysEnvDestroy(envid: nat) returns (panicked: bool, r: int)
      requires Valid() && Running(Abs())
      modifies this, q, envs
      ensures var t := Envid2Env(old(Abs()), envid, true);
              q.Valid() <==> (t.Some? ==> old(envs[t.value] in q.Contents
                                              || Harmless(q.Snap(), q.Contents, envs[t.value])))
      ensures var t := Envid2Env(old(Abs()), envid, true);
              var harmless := t.Some? && old(Harmless(q.Snap(), q.Contents, envs[t.value]));
              q.Valid() <==> !BreaksLinks(old(Abs()), Destroy(envid, harmless))
      ensures q.Valid() ==> Valid()
      ensures panicked <==> SchedSpec.EnvDestroy(old(Abs()), envid).Panic?
      ensures !panicked ==> SchedSpec.EnvDestroy(old(Abs()), envid) == Ret(Abs(), r)
    {
      hide Queue.Valid, Queue.Snap, Harmless, Covers, SchedSpec.EnvDestroy, Freed, Distinct, Without;
      var e := EnvidToEnv(envid, true);
      if e == null {
        NoneFound(Abs(), envid);
        return false, E_BAD_ENV;
      }
      assert envs[e.idx] == e;
      BreaksIs(Abs(), envid, e.idx);
      IdsWithout(q.Contents, e);
      hide Envid2Env, BreaksLinks, Ids, SchedSpec.Inv, Fits, Abs;
      panicked := DestroyFound(envid, e);
      r := 0;
    }
  }
}
