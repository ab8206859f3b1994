// The pipe functions as user/lib/pipe.c and user/lib/fd.c run them when nobody else does: the calls
// in their order, and the byte loops up to the point where they would ask whether the pipe is closed.
module PipeUser {
  import opened Common
  import opened PipeClose
  import R = Ring

  class Descriptors {
    var fd: map<Handle, End>
    var data: set<Handle>
    var cur: nat
    var runs: map<nat, nat>
    ghost var pc: map<nat, Pc>

    ghost function Snap(): State
      reads this
    {
      State(fd, data, pc, cur, runs)
    }

    // pipe_close: the Fd page first.
    method Close(h: Handle)
      requires Inv(Snap()) && Enabled(Snap(), CloseFd(h))
      modifies this`fd, this`data, this`pc
      ensures Inv(Snap()) && Enabled(Act(old(Snap()), CloseFd(h)), CloseData)
      ensures Snap() == Act(Act(old(Snap()), CloseFd(h)), CloseData)
      ensures fd == old(fd) - {h} && data == old(data) - {h} && PcOf(Snap(), cur) == Idle
    {
      StepKeepsInv(Snap(), CloseFd(h));
      hide Inv;
      fd := fd - {h};
      pc := pc[cur := Closing(h)];
      StepKeepsInv(Snap(), CloseData);
      data := data - {h};
      pc := pc[cur := Idle];
    }

    // dup: close the target, then map the pipe's page, then the Fd page. A source that is not open is
    // an error, and so is one that was closed as the target.
    method Dup(src: Handle, dst: Handle) returns (ok: bool)
      requires Inv(Snap()) && PcOf(Snap(), cur) == Idle && src.env == cur && dst.env == cur
      modifies this`fd, this`data, this`pc
      ensures Inv(Snap()) && (ok <==> src in old(fd) && src != dst)
      ensures src !in old(fd) ==> Snap() == old(Snap())
      ensures src in old(fd) && src == dst ==>
        fd == old(fd) - {src} && data == old(data) - {src} && PcOf(Snap(), cur) == Idle
      ensures ok ==> fd == old(fd)[dst := old(fd)[src]] && data == old(data) + {dst} && PcOf(Snap(), cur) == Idle
    {
      if src !in fd {
        return false;
      }
      assert src in data;
      if dst in fd {
        Close(dst);
      }
      if src !in fd {
        return false;
      }
      ok := true;
      StepKeepsInv(Snap(), DupData(src, dst));
      hide Inv;
      data := data + {dst};
      pc := pc[cur := Dupping(src, dst)];
      StepKeepsInv(Snap(), DupFd);
      fd := fd[dst := fd[src]];
      pc := pc[cur := Idle];
    }

    // _pipe_is_closed: one turn of the loop is enough when nobody runs in between.
    method IsClosed(h: Handle) returns (closed: bool)
      requires Inv(Snap()) && h in fd && h.env == cur
      ensures closed <==> NoEnd(Snap(), Other(fd[h])) && forall k :: !Midway(Snap(), k)
    {
      var fdRef, pipeRef, again := 0, 0, true;
      CountsDecide(Snap(), fd[h]);
      while again
        invariant !again ==> fdRef == FdRef(Snap(), fd[h]) && pipeRef == |data|
        decreases again
      {
        var start := Runs(State(fd, data, map[], cur, runs), cur) % U32;
        fdRef := |set k | k in fd && fd[k] == fd[h]|;
        assert (set k | k in fd && fd[k] == fd[h]) == Of(Snap(), fd[h]);
        pipeRef := |data|;
        again := start != Runs(State(fd, data, map[], cur, runs), cur) % U32;
      }
      closed := fdRef == pipeRef;
    }
  }

  lemma BufSize(s: R.State)
    requires R.Inv(s)
    ensures |s.buf| == R.PIPE_SIZE
  {}

  // The shared accesses of one byte, as steps.
  lemma WriteOne(s: R.State, b: R.Byte)
    requires R.Inv(s) && s.writer.NotWriting? && s.reader.NotReading? && R.Sub(s.wpos, s.rpos) != R.PIPE_SIZE
    ensures |s.buf| == R.PIPE_SIZE
    ensures R.Inv(s.(buf := s.buf[R.Slot(s.wpos) := b], sent := s.sent + [b], wpos := R.Inc(s.wpos)))
  {
    hide R.Inv, R.Sub, R.Inc, R.Slot;
    assert |s.buf| == R.PIPE_SIZE by { BufSize(s); }
    var s1 := R.Act(s, R.WriteCall([b]));
    R.StepKeepsInv(s, R.WriteCall([b]));
    var s2 := R.Act(s1, R.WriteTest);
    R.StepKeepsInv(s1, R.WriteTest);
    var s3 := R.Act(s2, R.WriteByte);
    R.StepKeepsInv(s2, R.WriteByte);
    var s4 := R.Act(s3, R.WriteAdvance);
    R.StepKeepsInv(s3, R.WriteAdvance);
    R.StepKeepsInv(s4, R.Return(false));
  }

  lemma ReadOne(s: R.State)
    requires R.Inv(s) && s.writer.NotWriting? && s.reader.NotReading? && s.rpos != s.wpos
    ensures |s.buf| == R.PIPE_SIZE
    ensures R.Inv(s.(got := s.got + [s.buf[R.Slot(s.rpos)]], rpos := R.Inc(s.rpos)))
  {
    hide R.Inv, R.Sub, R.Inc, R.Slot;
    assert |s.buf| == R.PIPE_SIZE by { BufSize(s); }
    var s1 := R.Act(s, R.ReadCall(1));
    R.StepKeepsInv(s, R.ReadCall(1));
    var s2 := R.Act(s1, R.ReadTest);
    R.StepKeepsInv(s1, R.ReadTest);
    var s3 := R.Act(s2, R.ReadByte);
    R.StepKeepsInv(s2, R.ReadByte);
    var s4 := R.Act(s3, R.ReadAdvance);
    R.StepKeepsInv(s3, R.ReadAdvance);
    R.StepKeepsInv(s4, R.Return(true));
  }

  class Pipe {
    var rpos: nat
    var wpos: nat
    var buf: seq<R.Byte>
    ghost var sent: seq<R.Byte>
    ghost var got: seq<R.Byte>

    ghost function Snap(): R.State
      reads this
    {
      R.State(rpos, wpos, buf, R.NotReading, R.NotWriting, sent, got)
    }

    // pipe_write's loop until it is done or the buffer is full.
    method Write(src: seq<R.Byte>) returns (i: nat)
      requires R.Inv(Snap())
      modifies this`wpos, this`buf, this`sent
      ensures R.Inv(Snap()) && i <= |src| && sent == old(sent) + src[..i]
      ensures i == |src| || |sent| == |got| + R.PIPE_SIZE
    {
      i := 0;
      while i < |src|
        invariant i <= |src| && R.Inv(Snap()) && sent == old(sent) + src[..i]
      {
        R.RingHolds(Snap());
        if R.Sub(wpos, rpos) == R.PIPE_SIZE {
          return;
        }
        WriteOne(Snap(), src[i]);
        buf := buf[R.Slot(wpos) := src[i]];
        sent := sent + [src[i]];
        wpos := R.Inc(wpos);
        i := i + 1;
      }
    }

    // pipe_read's loop until it has n bytes or the buffer is empty.
    method Read(n: nat) returns (rbuf: seq<R.Byte>)
      requires R.Inv(Snap())
      modifies this`rpos, this`got
      ensures R.Inv(Snap()) && got == old(got) + rbuf && |rbuf| <= n
      ensures |rbuf| == n || got == sent
    {
      rbuf := [];
      while |rbuf| < n
        invariant |rbuf| <= n && R.Inv(Snap()) && got == old(got) + rbuf
        decreases n - |rbuf|
      {
        R.WrapDistance(|got|, |sent|);
        if rpos == wpos {
          return;
        }
        ReadOne(Snap());
        var b := buf[R.Slot(rpos)];
        rbuf := rbuf + [b];
        got := got + [b];
        rpos := R.Inc(rpos);
      }
    }
  }
}
