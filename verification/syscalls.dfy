// What the system calls that name an env do, call by call: whom they may act on, what they return, and
// every field that changes (kern/env.c, kern/syscall_all.c).
module Syscalls {
  import opened Common
  import opened SchedSpec

  // envid names env e: 0 is the caller, any other id the live env that has it in its slot.
  ghost predicate Target(s: State, envid: nat, e: nat)
    requires Shape(s) && s.cur.Some?
  {
    if envid == 0 then s.cur == Some(e)
    else e == envid % NENV && s.procs[e].id == envid && s.procs[e].status != Free
  }

  // The caller may act on itself and on its children.
  ghost predicate May(s: State, e: nat)
    requires Shape(s) && s.cur.Some? && e < NENV
  {
    s.cur == Some(e) || s.procs[e].parent == s.procs[s.cur.value].id
  }

  // mkenvid puts the slot into the low bits of an id.
  ghost predicate Placed(s: State)
    requires Shape(s)
  {
    forall e :: 0 <= e < NENV && s.procs[e].status != Free ==> s.procs[e].id % NENV == e
  }

  lemma Envid2EnvIs(s: State, envid: nat, checkperm: bool, e: nat)
    requires Shape(s) && s.cur.Some?
    ensures Envid2Env(s, envid, checkperm) == Some(e) <==> e < NENV && Target(s, envid, e) && (checkperm ==> May(s, e))
  {
  }

  lemma NobodyFound(s: State, envid: nat, checkperm: bool)
    requires Shape(s) && s.cur.Some?
    ensures Envid2Env(s, envid, checkperm) == None <==>
            forall e: nat :: e < NENV && Target(s, envid, e) ==> checkperm && !May(s, e)
  {
    hide Envid2Env;
    forall e: nat ensures Envid2Env(s, envid, checkperm) == Some(e)
                          <==> e < NENV && Target(s, envid, e) && (checkperm ==> May(s, e)) {
      Envid2EnvIs(s, envid, checkperm, e);
    }
    if Envid2Env(s, envid, checkperm) != None {
      var e := Envid2Env(s, envid, checkperm).value;
      assert Envid2Env(s, envid, checkperm) == Some(e);
    }
  }

  // Where ids are in their slots, a live env is found by its id from anywhere.
  lemma IdsFind(s: State, e: nat)
    requires Shape(s) && s.cur.Some? && Placed(s) && e < NENV && s.procs[e].status != Free && s.procs[e].id != 0
    ensures forall x :: Target(s, s.procs[e].id, x) <==> x == e
  {
  }

  // Env e is as before but for its run counter.
  ghost predicate Same(s: State, t: State, e: nat)
    requires Shape(s) && Shape(t) && e < NENV
  {
    t.procs[e] == s.procs[e].(runs := t.procs[e].runs)
  }

  ghost predicate OthersSame(s: State, t: State, e: nat)
    requires Shape(s) && Shape(t)
  {
    forall x {:trigger Same(s, t, x)} :: 0 <= x < NENV && x != e ==> Same(s, t, x)
  }

  // Everything but env e's own entry and the queue is exactly as it was.
  ghost predicate NobodyElse(s: State, t: State, e: nat)
    requires Shape(s) && Shape(t)
  {
    t.cur == s.cur && t.count == s.count && forall x :: 0 <= x < NENV && x != e ==> t.procs[x] == s.procs[x]
  }

  // schedule(1) from state m, which differs from s in env e: it panics exactly when it has nobody to
  // run, and otherwise changes run counters.
  lemma GivesUp(s: State, m: State, e: nat)
    requires Shape(s) && Shape(m) && e < NENV && OthersSame(s, m, e)
    ensures Schedule(m, true) == None <==> Requeue(m) == []
    ensures Schedule(m, true).Some? ==>
              var t := Schedule(m, true).value; Shape(t) && OthersSame(s, t, e) && Same(m, t, e)
  {
    hide Requeue;
    if Requeue(m) != [] {
      RequeueShape(m);
      assert Requeue(m)[0] in Requeue(m);
      var t := Schedule(m, true).value;
      assert Shape(t);
      forall x | 0 <= x < NENV && x != e ensures Same(s, t, x) { assert Same(s, m, x); }
    }
  }

  lemma OffQueue(s: State)
    requires Running(s)
    ensures var w := Without(s.queue, s.cur.value);
            && Without(w, s.cur.value) == w && (w == [] <==> s.queue == [s.cur.value])
            && forall x :: x in w ==> x < NENV
  {
    WithoutDistinct(s.queue, s.cur.value);
    assert s.queue == [s.cur.value] + s.queue[1..];
  }

  // sys_ipc_recv: the caller waits, with its address noted; the panic is that nobody else can run.
  lemma RecvEffect(s: State, illegal: bool, dstva: nat)
    requires Running(s)
    ensures var o, c := Next(s, Recv(illegal, dstva)), s.cur.value;
      && (illegal ==> o == Ret(s, E_INVAL))
      && (!illegal ==> (o.Panic? <==> s.queue == [c]))
      && (!illegal && o.Ret? ==>
            && o.r == 0 && Shape(o.s) && OthersSame(s, o.s, c)
            && o.s.procs[c] == s.procs[c].(recving := true, dstva := dstva, status := NotRunnable,
                                           runs := o.s.procs[c].runs))
  {
    if !illegal {
      OffQueue(s);
      hide Without, Schedule;
      GivesUp(s, Blocked(s, dstva), s.cur.value);
    }
  }

  // sys_ipc_try_send: each refusal with its code, and all that a delivery changes.
  lemma SendEffect(s: State, envid: nat, value: nat, illegal: bool, perm: nat, page: int, e: nat)
    requires Running(s)
    ensures var o := Next(s, Send(envid, value, illegal, perm, page));
      && o.Ret?
      && (illegal ==> o == Ret(s, E_INVAL))
      && (!illegal && (forall x: nat :: x < NENV ==> !Target(s, envid, x)) ==> o == Ret(s, E_BAD_ENV))
      && (!illegal && e < NENV && Target(s, envid, e) ==>
            if !s.procs[e].recving then o == Ret(s, E_IPC_NOT_RECV)
            else
              && o.r == page && Shape(o.s) && NobodyElse(s, o.s, e) && o.s.queue == s.queue + [e]
              && PlusValid(perm, o.s.procs[e].perm)
              && o.s.procs[e] == s.procs[e].(value := value, from := s.procs[s.cur.value].id,
                                             perm := o.s.procs[e].perm, recving := false, status := Runnable))
  {
    hide Envid2Env;
    NobodyFound(s, envid, false);
    Envid2EnvIs(s, envid, false, e);
    PlusIs(perm);
  }

  // p is perm with bit 7, PTE_V, set and every other bit as in perm.
  predicate PlusValid(perm: nat, p: nat) {
    p % 0x80 == perm % 0x80 && p / 0x100 == perm / 0x100 && p / 0x80 % 2 == 1
  }

  lemma PlusIs(perm: nat)
    ensures PlusValid(perm, WithV(perm))
  {
  }

  // sys_set_env_status: whom it refuses, and that it changes the one env's status.
  lemma StatusEffect(s: State, envid: nat, status: Status, e: nat)
    requires Running(s)
    ensures var o := Next(s, SetStatus(envid, status));
      && (status == Free ==> o == Ret(s, E_INVAL))
      && (status != Free && (forall x: nat :: x < NENV && Target(s, envid, x) ==> !May(s, x)) ==>
            o == Ret(s, E_BAD_ENV))
      && (status != Free && e < NENV && Target(s, envid, e) && May(s, e) ==>
            && (o.Panic? <==> status == NotRunnable && s.queue == [e])
            && (o.Ret? ==>
                  && o.r == 0 && Shape(o.s) && OthersSame(s, o.s, e)
                  && o.s.procs[e] == s.procs[e].(status := status, runs := o.s.procs[e].runs)
                  && (s.cur != Some(e) ==> NobodyElse(s, o.s, e) && o.s.procs[e].runs == s.procs[e].runs)))
  {
    hide Envid2Env;
    NobodyFound(s, envid, true);
    Envid2EnvIs(s, envid, true, e);
    if status != Free && e < NENV && Target(s, envid, e) && May(s, e) && s.cur == Some(e) {
      OffQueue(s);
      hide Without, Schedule;
      GivesUp(s, Marked(s, e, status), e);
    }
  }

  // sys_env_destroy likewise.
  lemma DestroyEffect(s: State, envid: nat, harmless: bool, e: nat)
    requires Running(s)
    ensures var o := Next(s, Destroy(envid, harmless));
      && ((forall x: nat :: x < NENV && Target(s, envid, x) ==> !May(s, x)) ==> o == Ret(s, E_BAD_ENV))
      && (e < NENV && Target(s, envid, e) && May(s, e) ==>
            && (o.Panic? <==> s.queue == [e])
            && (o.Ret? ==>
                  && o.r == 0 && Shape(o.s) && OthersSame(s, o.s, e)
                  && o.s.procs[e] == s.procs[e].(status := Free, runs := o.s.procs[e].runs)
                  && (s.cur != Some(e) ==> NobodyElse(s, o.s, e) && o.s.procs[e].runs == s.procs[e].runs)))
  {
    hide Envid2Env;
    NobodyFound(s, envid, true);
    Envid2EnvIs(s, envid, true, e);
    if e < NENV && Target(s, envid, e) && May(s, e) && s.cur == Some(e) {
      OffQueue(s);
      hide Without, Schedule;
      GivesUp(s, Freed(s, e).(cur := None), e);
    }
  }

  // sys_exofork: a child of the caller in a free slot, not yet runnable, with the caller's priority.
  lemma ForkEffect(s: State, slot: nat, id: nat)
    requires Running(s)
    ensures var o, c := Next(s, Exofork(slot, id)), s.procs[s.cur.value];
      && o.Ret?
      && (slot >= NENV || s.procs[slot].status != Free ==> o == Ret(s, E_NO_FREE_ENV))
      && (slot < NENV && s.procs[slot].status == Free ==>
            && o.r == id && Shape(o.s) && NobodyElse(s, o.s, slot) && o.s.queue == s.queue
            && o.s.procs[slot] == s.procs[slot].(id := id, parent := c.id, pri := c.pri, runs := 0,
                                                 status := NotRunnable))
  {
  }

  // Only a fork makes an env live or gives it an id.
  ghost predicate Stays(s: State, t: State, e: nat)
    requires Shape(s) && Shape(t) && e < NENV
  {
    t.procs[e].id == s.procs[e].id && (t.procs[e].status != Free ==> s.procs[e].status != Free)
  }

  lemma SameStays(s: State, t: State, e: nat)
    requires Shape(s) && Shape(t) && OthersSame(s, t, e) && e < NENV && Stays(s, t, e)
    ensures forall x :: 0 <= x < NENV ==> Stays(s, t, x)
  {
    forall x | 0 <= x < NENV ensures Stays(s, t, x) { if x != e { assert Same(s, t, x); } }
  }

  lemma TickStays(s: State, giveUp: bool)
    requires Running(s) && Schedule(s, giveUp).Some?
    ensures Shape(Schedule(s, giveUp).value)
    ensures forall x :: 0 <= x < NENV ==> Stays(s, Schedule(s, giveUp).value, x)
  {
    ScheduleKeeps(s, giveUp);
    var t := Schedule(s, giveUp).value;
    hide Schedule;
    forall x | 0 <= x < NENV ensures Stays(s, t, x) { ScheduleRuns(s, giveUp, x); }
  }

  lemma SendStays(s: State, envid: nat, value: nat, illegal: bool, perm: nat, page: int)
    requires Running(s)
    ensures var o := Next(s, Send(envid, value, illegal, perm, page));
            o.Ret? && Shape(o.s) && forall x :: 0 <= x < NENV ==> Stays(s, o.s, x)
  {
    hide WithV;
  }

  lemma StepStays(s: State, step: Step)
    requires Running(s) && Next(s, step).Ret? && !step.Exofork?
    ensures Shape(Next(s, step).s) && forall x :: 0 <= x < NENV ==> Stays(s, Next(s, step).s, x)
  {
    hide Schedule, Without, Marked, Freed, Blocked;
    var t, c := Next(s, step).s, s.cur.value;
    match step
    case Tick => TickStays(s, false);
    case Yield => TickStays(s, true);
    case Recv(illegal, dstva) =>
      RecvEffect(s, illegal, dstva);
      if !illegal { SameStays(s, t, c); }
    case Send(envid, value, illegal, perm, page) =>
      SendStays(s, envid, value, illegal, perm, page);
    case SetStatus(envid, status) =>
      var e := Envid2Env(s, envid, true);
      if status != Free && e.Some? {
        StatusEffect(s, envid, status, e.value);
        SameStays(s, t, e.value);
      }
    case Destroy(envid, harmless) =>
      var e := Envid2Env(s, envid, true);
      if e.Some? {
        DestroyEffect(s, envid, harmless, e.value);
        SameStays(s, t, e.value);
      }
  }

  // Ids stay in their slots through every step, as env_alloc puts them there.
  lemma StepKeepsPlaced(s: State, step: Step)
    requires Running(s) && Placed(s) && Next(s, step).Ret?
    requires step.Exofork? ==> step.id % NENV == step.slot
    ensures Shape(Next(s, step).s) && Placed(Next(s, step).s)
  {
    var t := Next(s, step).s;
    if step.Exofork? {
      ForkEffect(s, step.slot, step.id);
    } else {
      StepStays(s, step);
      hide Next;
      forall e | 0 <= e < NENV && t.procs[e].status != Free ensures t.procs[e].id % NENV == e {
        assert Stays(s, t, e);
      }
    }
  }
}
