// The pipe's ring buffer (user/lib/pipe.c): one reader and one writer, interleaved at every
// access to the shared page, with positions that wrap at 2^32.
module Ring {
  import opened Common

  const PIPE_SIZE: nat := 32

  type Byte = int

  // pipe_read has read rbuf and wants n bytes in all; pipe_write has written src[..i]. Empty and
  // Full are the states in which the calls ask whether the pipe is closed.
  datatype Reader =
    | NotReading
    | Testing(rbuf: seq<Byte>, n: nat)
    | Empty(rbuf: seq<Byte>, n: nat)
    | Taking(rbuf: seq<Byte>, n: nat)
    | Taken(rbuf: seq<Byte>, n: nat)

  datatype Writer =
    | NotWriting
    | Checking(src: seq<Byte>, i: nat)
    | Full(src: seq<Byte>, i: nat)
    | Putting(src: seq<Byte>, i: nat)
    | Put(src: seq<Byte>, i: nat)

  // rpos, wpos and buf are the shared page. sent and got are every byte ever stored into and
  // loaded from it, in order.
  datatype State = State(rpos: nat, wpos: nat, buf: seq<Byte>, reader: Reader, writer: Writer,
                         sent: seq<Byte>, got: seq<Byte>)

  datatype Step =
    | ReadCall(n: nat)
    | ReadTest                  // load p_wpos, compare with p_rpos
    | ReadGiveUp                // return i: bytes were read, or the pipe is closed
    | ReadYield                 // syscall_yield
    | ReadByte                  // rbuf[i] = p_buf[p_rpos % PIPE_SIZE]
    | ReadAdvance               // p_rpos++
    | WriteCall(src: seq<Byte>)
    | WriteTest                 // load p_rpos, compare the distance with PIPE_SIZE
    | WriteGiveUp               // return i: the pipe is closed
    | WriteYield
    | WriteByte                 // p_buf[p_wpos % PIPE_SIZE] = wbuf[i]
    | WriteAdvance              // p_wpos++
    | Return(reading: bool)     // after n bytes

  // u_int arithmetic.
  function Wrap(n: int): nat { n % U32 }

  function Sub(a: nat, b: nat): nat { Wrap(a - b) }

  function Inc(a: nat): nat { Wrap(a + 1) }

  function Slot(pos: nat): (i: nat)
    ensures i < PIPE_SIZE
  {
    pos % PIPE_SIZE
  }

  predicate Enabled(s: State, step: Step) {
    match step
    case ReadCall(n) => s.reader.NotReading?
    case ReadTest => s.reader.Testing? && |s.reader.rbuf| < s.reader.n
    case ReadGiveUp => s.reader.Empty?
    case ReadYield => s.reader.Empty?
    case ReadByte => s.reader.Taking? && |s.buf| == PIPE_SIZE
    case ReadAdvance => s.reader.Taken?
    case WriteCall(src) => s.writer.NotWriting?
    case WriteTest => s.writer.Checking? && s.writer.i < |s.writer.src|
    case WriteGiveUp => s.writer.Full?
    case WriteYield => s.writer.Full?
    case WriteByte => s.writer.Putting? && s.writer.i < |s.writer.src| && |s.buf| == PIPE_SIZE
    case WriteAdvance => s.writer.Put?
    case Return(reading) =>
      if reading then s.reader.Testing? && |s.reader.rbuf| == s.reader.n
      else s.writer.Checking? && s.writer.i == |s.writer.src|
  }

  function Act(s: State, step: Step): State
    requires Enabled(s, step)
  {
    var r, w := s.reader, s.writer;
    match step
    case ReadCall(n) => s.(reader := Testing([], n))
    case ReadTest => s.(reader := if s.rpos == s.wpos then Empty(r.rbuf, r.n) else Taking(r.rbuf, r.n))
    case ReadGiveUp => s.(reader := NotReading)
    case ReadYield => s.(reader := Testing(r.rbuf, r.n))
    case ReadByte =>
      var b := s.buf[Slot(s.rpos)];
      s.(reader := Taken(r.rbuf + [b], r.n), got := s.got + [b])
    case ReadAdvance => s.(reader := Testing(r.rbuf, r.n), rpos := Inc(s.rpos))
    case WriteCall(src) => s.(writer := Checking(src, 0))
    case WriteTest =>
      s.(writer := if Sub(s.wpos, s.rpos) == PIPE_SIZE then Full(w.src, w.i) else Putting(w.src, w.i))
    case WriteGiveUp => s.(writer := NotWriting)
    case WriteYield => s.(writer := Checking(w.src, w.i))
    case WriteByte =>
      s.(writer := Put(w.src, w.i), buf := s.buf[Slot(s.wpos) := w.src[w.i]], sent := s.sent + [w.src[w.i]])
    case WriteAdvance => s.(writer := Checking(w.src, w.i + 1), wpos := Inc(s.wpos))
    case Return(reading) => if reading then s.(reader := NotReading) else s.(writer := NotWriting)
  }

  // How many bytes have left and entered the ring, counted without wrapping.
  function Out(s: State): int { |s.got| - (if s.reader.Taken? then 1 else 0) }

  function In(s: State): int { |s.sent| - (if s.writer.Put? then 1 else 0) }

  predicate Positions(s: State) {
    && 0 <= Out(s) <= In(s) <= Out(s) + PIPE_SIZE
    && s.rpos == Wrap(Out(s)) && s.wpos == Wrap(In(s))
    && (s.reader.Taking? || s.reader.Taken? ==> Out(s) < In(s))
    && (s.writer.Putting? || s.writer.Put? ==> In(s) < Out(s) + PIPE_SIZE)
  }

  // Between the positions, the ring holds the bytes sent and not yet taken.
  predicate Holds(s: State) {
    && |s.buf| == PIPE_SIZE
    && forall k :: 0 <= Out(s) <= k < |s.sent| ==> s.buf[Slot(k)] == s.sent[k]
  }

  predicate Suffix(a: seq<Byte>, b: seq<Byte>) { |a| <= |b| && b[|b| - |a|..] == a }

  // What the two calls under way have moved so far.
  predicate Calls(s: State) {
    && (!s.reader.NotReading? ==> |s.reader.rbuf| <= s.reader.n && Suffix(s.reader.rbuf, s.got))
    && (s.reader.Taking? ==> |s.reader.rbuf| < s.reader.n)
    && (!s.writer.NotWriting? ==>
      var j := s.writer.i + if s.writer.Put? then 1 else 0;
      j <= |s.writer.src| && Suffix(s.writer.src[..j], s.sent))
    && (s.writer.Putting? ==> s.writer.i < |s.writer.src|)
  }

  // The reader's bytes are a prefix of the writer's.
  predicate Inv(s: State) { Positions(s) && Holds(s) && Calls(s) && s.got <= s.sent }

  lemma SlotOf(k: nat, b: nat)
    requires b < PIPE_SIZE
    ensures Slot(PIPE_SIZE * k + b) == b
  {}

  // 32 divides 2^32, so a wrapped position still names its slot.
  lemma WrapKeepsSlot(n: nat)
    ensures Slot(Wrap(n)) == Slot(n)
  {
    var m := n % U32;
    SlotOf(n / U32 * 0x800_0000 + m / PIPE_SIZE, m % PIPE_SIZE);
  }

  lemma WrapInc(n: nat)
    ensures Inc(Wrap(n)) == Wrap(n + 1)
  {}

  // The two tests on wrapped positions see the true distance.
  lemma WrapDistance(r: nat, w: nat)
    requires r <= w <= r + PIPE_SIZE
    ensures Sub(Wrap(w), Wrap(r)) == w - r
    ensures Wrap(w) == Wrap(r) <==> w == r
  {}

  // Slots of positions less than the size apart differ.
  lemma SlotsDiffer(a: nat, b: nat)
    requires a < b < a + PIPE_SIZE
    ensures Slot(a) != Slot(b)
  {}

  lemma ReadByteStep(s: State)
    requires Inv(s) && Enabled(s, ReadByte)
    ensures Inv(Act(s, ReadByte))
  {
    hide Wrap, Slot;
    WrapKeepsSlot(Out(s));
    assert Out(Act(s, ReadByte)) == Out(s);
  }

  lemma AdvanceStep(s: State, step: Step)
    requires Inv(s) && Enabled(s, step) && (step.ReadAdvance? || step.WriteAdvance?)
    ensures Inv(Act(s, step))
  {
    hide Wrap, Slot, Sub, Inc;
    WrapInc(Out(s));
    WrapInc(In(s));
  }

  lemma ReadTestStep(s: State)
    requires Inv(s) && Enabled(s, ReadTest)
    ensures Inv(Act(s, ReadTest))
  {
    hide Wrap, Slot, Sub, Inc, Suffix;
    WrapDistance(Out(s), In(s));
  }

  lemma WriteTestStep(s: State)
    requires Inv(s) && Enabled(s, WriteTest)
    ensures Inv(Act(s, WriteTest))
  {
    hide Wrap, Slot, Sub, Inc, Suffix;
    WrapDistance(Out(s), In(s));
  }

  lemma EmptySuffix(b: seq<Byte>)
    ensures Suffix([], b)
  {
  }

  lemma SameBytes(s: State, t: State)
    requires Holds(s) && t.buf == s.buf && t.sent == s.sent && Out(t) == Out(s)
    ensures Holds(t)
  {
    hide Slot;
  }

  // Steps of one side that move no byte and no position.
  lemma ReadCallStep(s: State, step: Step)
    requires Inv(s) && Enabled(s, step)
    requires step.ReadCall? || step.ReadGiveUp? || step.ReadYield? || (step.Return? && step.reading)
    ensures Inv(Act(s, step))
  {
    hide Wrap, Slot, Sub, Inc, Suffix, Holds;
    EmptySuffix(s.got);
    SameBytes(s, Act(s, step));
  }

  lemma WriteCallStep(s: State, step: Step)
    requires Inv(s) && Enabled(s, step)
    requires step.WriteCall? || step.WriteGiveUp? || step.WriteYield? || (step.Return? && !step.reading)
    ensures Inv(Act(s, step))
  {
    hide Wrap, Slot, Sub, Inc, Suffix, Holds;
    EmptySuffix(s.sent);
    assert step.WriteCall? ==> step.src[..0] == [];
    SameBytes(s, Act(s, step));
  }

  lemma WriteByteStep(s: State)
    requires Inv(s) && Enabled(s, WriteByte)
    ensures Inv(Act(s, WriteByte))
  {
    hide Wrap, Slot, Sub, Inc;
    var t := Act(s, WriteByte);
    WrapKeepsSlot(In(s));
    forall k | Out(t) <= k < |t.sent| ensures t.buf[Slot(k)] == t.sent[k] {
      if k < |s.sent| { SlotsDiffer(k, In(s)); }
    }
  }

  lemma StepKeepsInv(s: State, step: Step)
    requires Inv(s) && Enabled(s, step)
    ensures Inv(Act(s, step))
  {
    hide Act, Inv;
    match step
    case ReadByte => ReadByteStep(s);
    case WriteByte => WriteByteStep(s);
    case ReadAdvance => AdvanceStep(s, step);
    case WriteAdvance => AdvanceStep(s, step);
    case ReadTest => ReadTestStep(s);
    case WriteTest => WriteTestStep(s);
    case ReadCall(_) => ReadCallStep(s, step);
    case ReadGiveUp => ReadCallStep(s, step);
    case ReadYield => ReadCallStep(s, step);
    case Return(reading) => if reading { ReadCallStep(s, step); } else { WriteCallStep(s, step); }
    case _ => WriteCallStep(s, step);
  }

  ghost predicate IsRun(s: State, steps: seq<Step>)
    decreases |steps|
  {
    steps != [] ==> Enabled(s, steps[0]) && IsRun(Act(s, steps[0]), steps[1..])
  }

  ghost function Final(s: State, steps: seq<Step>): State
    requires IsRun(s, steps)
    decreases |steps|
  {
    if steps == [] then s else Final(Act(s, steps[0]), steps[1..])
  }

  lemma RingHolds(s: State)
    requires Inv(s)
    ensures s.got <= s.sent && 0 <= In(s) - Out(s) <= PIPE_SIZE && Sub(s.wpos, s.rpos) == In(s) - Out(s)
  {
    WrapDistance(Out(s), In(s));
  }

  // Whatever the interleaving, and however often the positions wrap: what was read is a prefix of
  // what was written, and at most 32 bytes are in between.
  lemma {:induction false} ReadsArePrefix(s: State, steps: seq<Step>)
    requires Inv(s) && IsRun(s, steps)
    ensures var t := Final(s, steps);
      Inv(t) && t.got <= t.sent && 0 <= In(t) - Out(t) <= PIPE_SIZE && Sub(t.wpos, t.rpos) == In(t) - Out(t)
    decreases |steps|
  {
    hide Act, Inv;
    if steps == [] {
      RingHolds(s);
    } else {
      StepKeepsInv(s, steps[0]);
      ReadsArePrefix(Act(s, steps[0]), steps[1..]);
    }
  }

  // A test that finds the buffer empty or full is right about it: the reader has then taken every
  // byte whose write has advanced, and the ring holds 32. Calls that run to the end have moved
  // exactly the bytes asked for, in order.
  lemma TestsAreRight(s: State)
    requires Inv(s)
    ensures Enabled(s, ReadTest) ==> (Act(s, ReadTest).reader.Empty? <==> s.got == s.sent[..In(s)])
    ensures Enabled(s, WriteTest) ==> (Act(s, WriteTest).writer.Full? <==> |s.sent| == Out(s) + PIPE_SIZE)
    ensures Enabled(s, Return(true)) ==> |s.reader.rbuf| == s.reader.n && Suffix(s.reader.rbuf, s.got)
    ensures Enabled(s, Return(false)) ==> Suffix(s.writer.src, s.sent)
  {
    WrapDistance(Out(s), In(s));
    if Enabled(s, Return(false)) { assert s.writer.src[..s.writer.i] == s.writer.src; }
  }

  // A pipe as pipe() leaves it: both positions are zero, nothing was written or read.
  function Opened(buf: seq<Byte>): State { State(0, 0, buf, NotReading, NotWriting, [], []) }

  lemma StartsEmpty(buf: seq<Byte>)
    requires |buf| == PIPE_SIZE
    ensures Inv(Opened(buf))
  {}

  // From there on, all that was ever read is a prefix of all that was ever written, and at most
  // 32 bytes of it are still in the ring.
  lemma PipeDelivers(buf: seq<Byte>, steps: seq<Step>)
    requires |buf| == PIPE_SIZE && IsRun(Opened(buf), steps)
    ensures var t := Final(Opened(buf), steps); t.got <= t.sent && 0 <= In(t) - Out(t) <= PIPE_SIZE
  {
    StartsEmpty(buf);
    ReadsArePrefix(Opened(buf), steps);
  }
}
