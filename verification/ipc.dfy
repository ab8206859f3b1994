// ipc_send and ipc_recv (user/lib/ipc.c) on top of the two system calls, in every interleaving.
// A receive is four steps that other envs can come between: the blocking call, then the reads of
// env_ipc_from, env_ipc_perm and env_ipc_value from the env's own block.
module Ipc {
  import opened Common
  import opened SchedSpec

  datatype Msg = Msg(from: nat, perm: nat, value: nat)

  // Where an env is inside ipc_recv, and what it has read so far.
  datatype Phase = Outside | InCall | HasFrom(from: nat) | HasPerm(from: nat, perm: nat)

  // sent[r]: the messages handed to env r, oldest first; got[r]: what r's receives returned.
  datatype World = World(s: State, phase: seq<Phase>, sent: seq<seq<Msg>>, got: seq<seq<Msg>>)

  datatype Action = Kernel(step: Step) | ReadFrom | ReadPerm | ReadValue

  // The message in r's block.
  function Block(s: State, r: nat): Msg
    requires r < |s.procs|
  {
    Msg(s.procs[r].from, s.procs[r].perm, s.procs[r].value)
  }

  ghost predicate Sized(w: World) {
    Running(w.s) && |w.phase| == NENV && |w.sent| == NENV && |w.got| == NENV
  }

  // The env a send hands its message to, if any.
  function Receiver(s: State, step: Step): Option<nat>
    requires Running(s)
  {
    if step.Send? && !step.illegal then
      match Envid2Env(s, step.envid, false)
      case Some(e) => if s.procs[e].recving then Some(e) else None
      case None => None
    else None
  }

  predicate Forks(s: State, step: Step)
    requires Running(s)
  {
    step.Exofork? && step.slot < NENV && s.procs[step.slot].status == Free
  }

  predicate Enabled(w: World, a: Action)
    requires Sized(w)
  {
    var p := w.phase[w.s.cur.value];
    match a
    case Kernel(step) =>
      && Next(w.s, step).Ret? && !QueuesTwice(w.s, step) && !BreaksLinks(w.s, step)
      && (step.Recv? ==> p == Outside)
    case ReadFrom => p == InCall
    case ReadPerm => p.HasFrom?
    case ReadValue => p.HasPerm?
  }

  function Act(w: World, a: Action): World
    requires Sized(w) && Enabled(w, a)
  {
    var c := w.s.cur.value;
    var b := Block(w.s, c);
    match a
    case Kernel(step) =>
      var w1 := w.(s := Next(w.s, step).s);
      if step.Recv? && !step.illegal then w1.(phase := w.phase[c := InCall])
      else if Receiver(w.s, step).Some? then
        var r := Receiver(w.s, step).value;
        w1.(sent := w.sent[r := w.sent[r] + [Msg(w.s.procs[c].id, WithV(step.perm), step.value)]])
      else if Forks(w.s, step) then
        w1.(phase := w.phase[step.slot := Outside], sent := w.sent[step.slot := []],
            got := w.got[step.slot := []])
      else w1
    case ReadFrom => w.(phase := w.phase[c := HasFrom(b.from)])
    case ReadPerm => w.(phase := w.phase[c := HasPerm(w.phase[c].from, b.perm)])
    case ReadValue =>
      w.(phase := w.phase[c := Outside],
         got := w.got[c := w.got[c] + [Msg(w.phase[c].from, w.phase[c].perm, b.value)]])
  }

  // What holds of env r at every moment: outside a receive nothing is pending; a receive waits
  // with nothing pending, or has exactly one message pending, which still sits in r's block.
  ghost predicate Good(w: World, r: nat)
    requires Sized(w) && r < NENV
  {
    var pending := w.sent[r] == w.got[r] + [Block(w.s, r)];
    match w.phase[r]
    case Outside => !w.s.procs[r].recving && w.sent[r] == w.got[r]
    case InCall => if w.s.procs[r].recving then w.sent[r] == w.got[r] else pending
    case HasFrom(f) => !w.s.procs[r].recving && pending && f == w.s.procs[r].from
    case HasPerm(f, p) => !w.s.procs[r].recving && pending && f == w.s.procs[r].from && p == w.s.procs[r].perm
  }

  // A send that finds its target not waiting changes nothing; one that finds it waiting hands
  // the message over even when mapping the page then fails. E_IPC_NOT_RECV, on which alone ipc_send
  // tries again, is for a target that is there and does not wait.
  lemma SendOutcome(s: State, step: Step)
    requires Running(s) && step.Send?
    ensures var o := IpcTrySend(s, step.envid, step.value, step.illegal, step.perm, step.page);
            && o == Next(s, step) && o.Ret?
            && (match Receiver(s, step)
                case None => o.s == s && o.r == (if step.illegal then E_INVAL
                                                 else if Envid2Env(s, step.envid, false) == None then E_BAD_ENV
                                                 else E_IPC_NOT_RECV)
                case Some(r) => o.r == step.page && !o.s.procs[r].recving && o.s.procs[r].status == Runnable
                                && Block(o.s, r) == Msg(s.procs[s.cur.value].id, WithV(step.perm), step.value))
  {
  }

  // Only a receive by r, a send to r and a fork into slot r touch r's part of the protocol.
  lemma OthersKeep(s: State, step: Step, r: nat)
    requires Running(s) && Next(s, step).Ret? && r < NENV
    requires !(step.Recv? && !step.illegal && s.cur == Some(r))
    requires Receiver(s, step) != Some(r)
    ensures var t := Next(s, step).s;
            |t.procs| == NENV && t.procs[r].recving == s.procs[r].recving && Block(t, r) == Block(s, r)
  {
    match step
    case Tick => ScheduleRuns(s, false, r);
    case Yield => ScheduleRuns(s, true, r);
    case Recv(illegal, dstva) => if !illegal { RecvKeeps(s, dstva); ScheduleRuns(Blocked(s, dstva), true, r); }
    case SetStatus(envid, status) =>
      var e := Envid2Env(s, envid, true);
      if status != Free && e == s.cur { ScheduleRuns(Marked(s, e.value, status), true, r); }
    case Destroy(envid, _) =>
      var e := Envid2Env(s, envid, true);
      if e == s.cur { ScheduleRuns(Freed(s, e.value).(cur := None), true, r); }
    case _ =>
  }

  lemma SizedHas(w: World)
    requires Sized(w)
    ensures |w.s.procs| == NENV && |w.phase| == |w.sent| == |w.got| == NENV
    ensures w.s.cur.Some? && w.s.cur.value < NENV
  {
  }

  // Env r blocks in its receive.
  ghost predicate Blocks(w: World, a: Action, r: nat) {
    Sized(w) && a.Kernel? && a.step.Recv? && !a.step.illegal && w.s.cur == Some(r)
  }

  // The blocking call of env r has returned, and r starts to read its block.
  ghost predicate Returns(w: World, a: Action, r: nat) { Sized(w) && a == ReadFrom && w.s.cur == Some(r) }

  // A send hands its message to env r.
  ghost predicate Hands(w: World, a: Action, r: nat) {
    Sized(w) && a.Kernel? && Receiver(w.s, a.step) == Some(r)
  }

  // Slot r gets a new owner.
  ghost predicate Reuses(w: World, a: Action, r: nat) {
    Sized(w) && a.Kernel? && Forks(w.s, a.step) && a.step.slot == r
  }

  // What r can look at when its call returns: whether env_ipc_recving is set.
  predicate Waits(w: World, r: nat) { r < |w.s.procs| && w.s.procs[r].recving }

  // The call returns with the mark cleared, and no mark is left to the next owner of the slot.
  ghost predicate Clear(w: World, a: Action, r: nat) { Returns(w, a, r) || Reuses(w, a, r) ==> !Waits(w, r) }

  lemma RecvMarks(s: State, dstva: nat)
    requires Running(s) && Next(s, Recv(false, dstva)).Ret?
    ensures |Next(s, Recv(false, dstva)).s.procs| == NENV
    ensures Next(s, Recv(false, dstva)).s.procs[s.cur.value].recving
  {
    RecvKeeps(s, dstva);
    ScheduleRuns(Blocked(s, dstva), true, s.cur.value);
  }

  lemma ActKeeps(w: World, a: Action, r: nat)
    requires Sized(w) && Enabled(w, a) && r < NENV && Good(w, r) && Clear(w, a, r)
    requires Running(Act(w, a).s)
    ensures Good(Act(w, a), r)
  {
    hide Next, Distinct, QueuesTwice, BreaksLinks;
    if a.Kernel? {
      if Blocks(w, a, r) {
        RecvMarks(w.s, a.step.dstva);
      } else if Hands(w, a, r) {
        SendOutcome(w.s, a.step);
      } else {
        OthersKeep(w.s, a.step, r);
      }
    }
  }

  ghost predicate Start(w: World) {
    Sized(w) && forall r :: 0 <= r < NENV ==>
      !w.s.procs[r].recving && w.phase[r] == Outside && w.sent[r] == [] && w.got[r] == []
  }

  ghost predicate Moves(ws: seq<World>, acts: seq<Action>, i: nat)
    requires i < |acts| && |ws| == |acts| + 1
  {
    Sized(ws[i]) && Enabled(ws[i], acts[i]) && ws[i + 1] == Act(ws[i], acts[i])
  }

  ghost predicate IsRun(ws: seq<World>, acts: seq<Action>) {
    && |ws| == |acts| + 1 && Start(ws[0])
    && forall i {:trigger Moves(ws, acts, i)} :: 0 <= i < |acts| ==> Moves(ws, acts, i)
  }

  lemma ActSized(w: World, a: Action)
    requires Sized(w) && Enabled(w, a)
    ensures Sized(Act(w, a))
  {
    if a.Kernel? { StepKeepsInv(w.s, a.step); }
  }

  lemma {:induction false} RunSized(ws: seq<World>, acts: seq<Action>, i: nat)
    requires IsRun(ws, acts) && i <= |acts|
    ensures Sized(ws[i])
    decreases i
  {
    hide Sized, Enabled, Act;
    if i > 0 {
      RunSized(ws, acts, i - 1);
      assert Moves(ws, acts, i - 1);
      ActSized(ws[i - 1], acts[i - 1]);
    }
  }

  // The message a send carries: who sent it, the permission with PTE_V, the value.
  ghost function Carried(w: World, a: Action): Msg
    requires Sized(w) && a.Kernel? && a.step.Send?
  {
    Msg(w.s.procs[w.s.cur.value].id, WithV(a.step.perm), a.step.value)
  }

  // k is where r last blocked before i.
  ghost predicate BlockedSince(ws: seq<World>, acts: seq<Action>, k: nat, i: nat, r: nat)
    requires i <= |acts| < |ws|
  {
    && k < i && Blocks(ws[k], acts[k], r)
    && forall x :: k < x < i ==> !Blocks(ws[x], acts[x], r)
  }

  // No send reaches r after k and before i.
  ghost predicate NoSend(ws: seq<World>, acts: seq<Action>, k: nat, i: nat, r: nat)
    requires i <= |acts| < |ws|
  {
    forall x :: k < x < i ==> !Hands(ws[x], acts[x], r)
  }

  // j is the one moment between k and i at which a send reached r, and msg is what it carried.
  ghost predicate OnlySend(ws: seq<World>, acts: seq<Action>, k: nat, j: nat, i: nat, r: nat, msg: Msg)
    requires i <= |acts| < |ws|
  {
    && k < j < i && Hands(ws[j], acts[j], r) && msg == Carried(ws[j], acts[j])
    && forall x :: k < x < i && x != j ==> !Hands(ws[x], acts[x], r)
  }

  ghost predicate SentSince(ws: seq<World>, acts: seq<Action>, k: nat, i: nat, r: nat, msg: Msg)
    requires i <= |acts| < |ws|
  {
    exists j: nat :: OnlySend(ws, acts, k, j, i, r, msg)
  }

  // A receive under way at i blocked at k. While it waits nothing has been sent to it since; once it
  // does not wait, exactly one message has, and that is what its block holds.
  ghost predicate History(ws: seq<World>, acts: seq<Action>, k: nat, i: nat, r: nat)
    requires i <= |acts| < |ws| && Sized(ws[i]) && r < NENV
  {
    && BlockedSince(ws, acts, k, i, r)
    && (Waits(ws[i], r) <==> NoSend(ws, acts, k, i, r))
    && (!Waits(ws[i], r) <==> SentSince(ws, acts, k, i, r, Block(ws[i].s, r)))
  }

  ghost predicate Stays(w: World, a: Action, t: World, r: nat)
    requires Sized(w) && Sized(t) && r < NENV
  {
    && w.phase[r] != Outside
    && if Hands(w, a, r) then Waits(w, r) && !Waits(t, r) && Block(t.s, r) == Carried(w, a)
       else Waits(t, r) == Waits(w, r) && Block(t.s, r) == Block(w.s, r)
  }

  // How an env inside a receive got there: it has just blocked, a send has just reached it, or it
  // was inside before and neither its mark nor its message has changed.
  lemma PhaseFrom(w: World, a: Action, r: nat)
    requires Sized(w) && Enabled(w, a) && r < NENV && Sized(Act(w, a)) && Act(w, a).phase[r] != Outside
    ensures Blocks(w, a, r) ==> Waits(Act(w, a), r)
    ensures !Blocks(w, a, r) ==> Stays(w, a, Act(w, a), r)
  {
    hide Next, QueuesTwice, BreaksLinks, Distinct;
    if a.Kernel? {
      if Blocks(w, a, r) {
        RecvMarks(w.s, a.step.dstva);
      } else if Hands(w, a, r) {
        SendOutcome(w.s, a.step);
      } else {
        OthersKeep(w.s, a.step, r);
      }
    }
  }

  lemma HistoryGrows(ws: seq<World>, acts: seq<Action>, k: nat, i: nat, r: nat)
    requires 0 < i <= |acts| < |ws| && Sized(ws[i - 1]) && Sized(ws[i]) && r < NENV
    requires !Blocks(ws[i - 1], acts[i - 1], r) && Stays(ws[i - 1], acts[i - 1], ws[i], r)
    requires History(ws, acts, k, i - 1, r)
    ensures History(ws, acts, k, i, r)
  {
    SizedHas(ws[i]);
    hide Sized, Hands, Blocks, Carried, Block;
    var m := Block(ws[i].s, r);
    if Hands(ws[i - 1], acts[i - 1], r) {
      assert OnlySend(ws, acts, k, i - 1, i, r, m);
    } else if SentSince(ws, acts, k, i - 1, r, m) {
      var j: nat :| OnlySend(ws, acts, k, j, i - 1, r, m);
      assert OnlySend(ws, acts, k, j, i, r, m);
    }
  }

  // In every run, whoever sets r's status meanwhile.
  lemma {:induction false} ReceiveHistory(ws: seq<World>, acts: seq<Action>, i: nat, r: nat)
    requires IsRun(ws, acts) && i <= |acts| && r < NENV && Sized(ws[i]) && ws[i].phase[r] != Outside
    ensures exists k: nat :: History(ws, acts, k, i, r)
    decreases i
  {
    hide Act, Enabled, Sized, Hands, Blocks, Carried, Receiver;
    assert i > 0;
    var w, a := ws[i - 1], acts[i - 1];
    assert Moves(ws, acts, i - 1);
    RunSized(ws, acts, i - 1);
    PhaseFrom(w, a, r);
    if Blocks(w, a, r) {
      assert History(ws, acts, i - 1, i, r);
    } else {
      ReceiveHistory(ws, acts, i - 1, r);
      var k: nat :| History(ws, acts, k, i - 1, r);
      HistoryGrows(ws, acts, k, i, r);
    }
  }

  predicate PartOf(p: Phase, m: Msg) {
    match p
    case HasFrom(from) => from == m.from
    case HasPerm(from, perm) => from == m.from && perm == m.perm
    case _ => false
  }

  // The reads of a receive under way at i began at f. If the mark was clear then, no send has come
  // since, and what was read so far and what is still to be read are parts of one message.
  ghost predicate Reading(ws: seq<World>, acts: seq<Action>, f: nat, i: nat, r: nat)
    requires i <= |acts| < |ws| && Sized(ws[i]) && r < NENV
  {
    && f < i && Returns(ws[f], acts[f], r)
    && (forall x :: f < x < i ==> !Returns(ws[x], acts[x], r) && !Blocks(ws[x], acts[x], r))
    && ws[i].got[r] == ws[f].got[r]
    && (NoSend(ws, acts, f, i, r) ==> ws[i].sent[r] == ws[f].sent[r])
    && (!Waits(ws[f], r) ==>
          && !Waits(ws[i], r) && NoSend(ws, acts, f, i, r) && Block(ws[i].s, r) == Block(ws[f].s, r)
          && PartOf(ws[i].phase[r], Block(ws[f].s, r)))
  }

  // How an env comes to be between its reads.
  lemma ReadFromWhere(w: World, a: Action, r: nat)
    requires Sized(w) && Enabled(w, a) && r < NENV && Sized(Act(w, a))
    requires Act(w, a).phase[r].HasFrom? || Act(w, a).phase[r].HasPerm?
    ensures var t := Act(w, a);
            && !Blocks(w, a, r) && t.got[r] == w.got[r] && (!Hands(w, a, r) ==> t.sent[r] == w.sent[r])
            && (!Waits(w, r) ==> !Hands(w, a, r) && !Waits(t, r) && Block(t.s, r) == Block(w.s, r))
            && if Returns(w, a, r) then t.phase[r] == HasFrom(Block(w.s, r).from)
               else
                 && (w.phase[r].HasFrom? || w.phase[r].HasPerm?)
                 && forall m {:trigger PartOf(w.phase[r], m)} ::
                      PartOf(w.phase[r], m) && m == Block(w.s, r) ==> PartOf(t.phase[r], m)
  {
    hide Next, QueuesTwice, BreaksLinks, Distinct;
    if a.Kernel? && !Hands(w, a, r) { OthersKeep(w.s, a.step, r); }
  }

  // k is where the receive that returns msg at i blocked, and f where its blocking call returned.
  // The message is that of the one send in between exactly when the mark was clear at f.
  ghost predicate Received(ws: seq<World>, acts: seq<Action>, k: nat, f: nat, i: nat, r: nat, msg: Msg)
    requires i <= |acts| < |ws|
  {
    && BlockedSince(ws, acts, k, i, r) && k < f < i && Returns(ws[f], acts[f], r)
    && (!Waits(ws[f], r) <==> SentSince(ws, acts, k, f, r, msg))
    && (!Waits(ws[f], r) ==> NoSend(ws, acts, f, i, r))
  }

  lemma ReturnIsNoBlock(w: World, a: Action, r: nat)
    requires Returns(w, a, r)
    ensures !Blocks(w, a, r) && !Hands(w, a, r)
  {
  }

  lemma {:induction false} ReadHistory(ws: seq<World>, acts: seq<Action>, i: nat, r: nat)
    requires IsRun(ws, acts) && i <= |acts| && r < NENV && Sized(ws[i])
    requires ws[i].phase[r].HasFrom? || ws[i].phase[r].HasPerm?
    ensures exists f: nat :: Reading(ws, acts, f, i, r)
    decreases i
  {
    hide Act, Enabled, Sized, Hands, Blocks, Block;
    assert i > 0;
    var w, a := ws[i - 1], acts[i - 1];
    assert Moves(ws, acts, i - 1);
    RunSized(ws, acts, i - 1);
    ReadFromWhere(w, a, r);
    if Returns(w, a, r) {
      ReturnIsNoBlock(w, a, r);
      assert Reading(ws, acts, i - 1, i, r);
    } else {
      ReadHistory(ws, acts, i - 1, r);
      var f: nat :| Reading(ws, acts, f, i - 1, r);
      assert NoSend(ws, acts, f, i, r) ==> NoSend(ws, acts, f, i - 1, r);
      assert Reading(ws, acts, f, i, r);
    }
  }

  lemma SentNotBoth(ws: seq<World>, acts: seq<Action>, k: nat, i: nat, r: nat, msg: Msg)
    requires i <= |acts| < |ws|
    ensures SentSince(ws, acts, k, i, r, msg) ==> !NoSend(ws, acts, k, i, r)
  {
    if SentSince(ws, acts, k, i, r, msg) {
      var j: nat :| OnlySend(ws, acts, k, j, i, r, msg);
      assert Hands(ws[j], acts[j], r);
    }
  }

  // In every run: a receive returns the value, sender and permission of the one send that reached
  // its env since it blocked if and only if the env finds env_ipc_recving clear when its blocking
  // call returns. It finds it set when its parent has made it runnable.
  lemma ReceiveReturnsTheSend(ws: seq<World>, acts: seq<Action>, i: nat, r: nat)
    requires IsRun(ws, acts) && i < |acts| && acts[i] == ReadValue && r < NENV
    requires ws[i].s.cur == Some(r)
    ensures |ws[i].got| == NENV && |ws[i + 1].got| == NENV && ws[i + 1].got[r] != []
    ensures var msg := ws[i + 1].got[r][|ws[i + 1].got[r]| - 1];
            && ws[i + 1].got[r] == ws[i].got[r] + [msg]
            && exists k: nat, f: nat :: Received(ws, acts, k, f, i, r, msg)
  {
    hide Distinct, Blocks, Hands, OnlySend, Inv;
    RunSized(ws, acts, i);
    assert Moves(ws, acts, i);
    ReadHistory(ws, acts, i, r);
    var f: nat :| Reading(ws, acts, f, i, r);
    RunSized(ws, acts, f);
    assert Moves(ws, acts, f);
    ReceiveHistory(ws, acts, f, r);
    var k: nat :| History(ws, acts, k, f, r);
    ReturnIsNoBlock(ws[f], acts[f], r);
    SizedHas(ws[i]);
    var msg := Msg(ws[i].phase[r].from, ws[i].phase[r].perm, Block(ws[i].s, r).value);
    SentNotBoth(ws, acts, k, f, r, msg);
    assert Received(ws, acts, k, f, i, r, msg);
  }

  // r's calls before i have all returned with the mark clear, and its slot was handed over clear.
  ghost predicate AlwaysClear(ws: seq<World>, acts: seq<Action>, i: nat, r: nat)
    requires i <= |acts| < |ws|
  {
    forall x :: 0 <= x < i ==> Clear(ws[x], acts[x], r)
  }

  lemma {:induction false} RunGood(ws: seq<World>, acts: seq<Action>, i: nat, r: nat)
    requires IsRun(ws, acts) && i <= |acts| && r < NENV && AlwaysClear(ws, acts, i, r)
    ensures Sized(ws[i]) && Good(ws[i], r)
    decreases i
  {
    hide Act, Enabled, Inv, Next, Clear;
    RunSized(ws, acts, i);
    if i > 0 {
      RunGood(ws, acts, i - 1, r);
      assert Moves(ws, acts, i - 1);
      ActKeeps(ws[i - 1], acts[i - 1], r);
    }
  }

  // As long as r's calls return with the mark clear: what its receives returned is what was sent to
  // it, message by message and in order, with at most one message still on its way. So no message is
  // lost, doubled, torn or overwritten.
  lemma DeliveredOnce(ws: seq<World>, acts: seq<Action>, i: nat, r: nat)
    requires IsRun(ws, acts) && i <= |acts| && r < NENV && AlwaysClear(ws, acts, i, r)
    ensures |ws[i].sent| == NENV && |ws[i].got| == NENV
    ensures ws[i].got[r] <= ws[i].sent[r] && |ws[i].sent[r]| <= |ws[i].got[r]| + 1
  {
    RunGood(ws, acts, i, r);
  }

  // And no longer: the first call that returns at f, whose receive ends at i without a send coming
  // in between its reads, keeps what was got within what was sent if and only if the mark was clear.
  lemma DeliveredExactly(ws: seq<World>, acts: seq<Action>, f: nat, i: nat, r: nat)
    requires IsRun(ws, acts) && f < i < |acts| && r < NENV && AlwaysClear(ws, acts, f, r)
    requires Returns(ws[f], acts[f], r) && acts[i] == ReadValue && ws[i].s.cur == Some(r)
    requires NoSend(ws, acts, f, i, r) && forall x :: f < x < i ==> !Returns(ws[x], acts[x], r)
    ensures |ws[i + 1].sent| == NENV && |ws[i + 1].got| == NENV
    ensures ws[i + 1].got[r] <= ws[i + 1].sent[r] <==> !Waits(ws[f], r)
  {
    hide Distinct, Hands, Blocks, Inv;
    RunSized(ws, acts, i);
    assert Moves(ws, acts, i) && Moves(ws, acts, f);
    RunGood(ws, acts, f, r);
    ReadHistory(ws, acts, i, r);
    var g: nat :| Reading(ws, acts, g, i, r);
    assert g == f;
    SizedHas(ws[i]);
    SizedHas(ws[f]);
    var msg := Msg(ws[i].phase[r].from, ws[i].phase[r].perm, Block(ws[i].s, r).value);
    assert ws[i + 1].got[r] == ws[f].got[r] + [msg] && ws[i + 1].sent[r] == ws[f].sent[r];
    assert !Waits(ws[f], r) ==> msg == Block(ws[f].s, r) && ws[f].sent[r] == ws[f].got[r] + [msg];
    assert Waits(ws[f], r) ==> ws[f].sent[r] == ws[f].got[r];
  }

  lemma YieldsTo(s: State, p: nat, e: nat)
    requires Running(s) && s.queue == [p, e]
    ensures Schedule(s, true).Some? && Schedule(s, true).value.cur == Some(e)
  {
    assert IndexOf(s.queue, p) == 0 && Without(s.queue, p) == [e];
    ScheduleIs(s, true, e);
  }

  // How a call comes to return with the mark set: p is alone in the queue, its child e waits, and p
  // sets it to ENV_RUNNABLE and yields. e's receive then returns whatever its block held, sent by
  // nobody.
  lemma WakingReturnsStale(w: World, envid: nat, p: nat, e: nat)
    requires Sized(w) && w.s.queue == [p] && w.s.cur == Some(p) && Envid2Env(w.s, envid, true) == Some(e)
    requires e < NENV && w.s.procs[e].recving && w.s.procs[e].status == NotRunnable
    requires w.phase[e] == InCall && w.sent[e] == w.got[e]
    ensures var a1 := Kernel(SetStatus(envid, Runnable));
            && Enabled(w, a1)
            && var w1 := Act(w, a1);
            && Sized(w1) && Enabled(w1, Kernel(Yield))
            && var w2 := Act(w1, Kernel(Yield));
            && Sized(w2) && Enabled(w2, ReadFrom) && Waits(w2, e)
            && var w3 := Act(w2, ReadFrom);
            && Enabled(w3, ReadPerm)
            && var w4 := Act(w3, ReadPerm);
            && Enabled(w4, ReadValue)
            && var w5 := Act(w4, ReadValue);
            && |w5.sent| == NENV && |w5.got| == NENV
            && w5.sent[e] == w.got[e] && w5.got[e] == w.got[e] + [Block(w.s, e)]
  {
    hide Distinct, Without, Schedule;
    var a1 := Kernel(SetStatus(envid, Runnable));
    StatusKeeps(w.s, envid, Runnable);
    var w1 := Act(w, a1);
    assert w1.s == Marked(w.s, e, Runnable) && w1.s.queue == [p, e];
    YieldsTo(w1.s, p, e);
    ScheduleRuns(w1.s, true, e);
    ScheduleKeeps(w1.s, true);
  }
}
