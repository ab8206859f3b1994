// cat2Path as it is written: two buffers cut up in place, a stack of pointers into them, and the
// result written out segment by segment (user/lib/file.c).
module PathBuffers {
  import opened Path
  import opened Strings

  const SIZE: nat := 128

  // A pointer into buf1 or buf2.
  datatype Ptr = Ptr(second: bool, start: nat)

  // The stack entry points at a terminated segment that ends at or before p.
  ghost predicate Cut(m: seq<char>, start: nat, p: nat, seg: string) {
    Str(m, start) && start + Len(m, start) <= p && Text(m, start) == seg
  }

  lemma SameFront(a: seq<char>, b: seq<char>, e: nat, i: nat, j: nat)
    requires e <= |a| && e <= |b| && a[..e] == b[..e] && i <= j <= e
    ensures a[i..j] == b[i..j]
  {
    forall k | i <= k < j ensures a[k] == b[k] {
      assert a[..e][k] == b[..e][k];
    }
  }

  lemma CutStays(m: seq<char>, t: seq<char>, start: nat, p: nat, q: nat, seg: string)
    requires Cut(m, start, p, seg) && p <= q && p < |m| && p < |t| && m[..p + 1] == t[..p + 1]
    ensures Cut(t, start, q, seg)
  {
    var n := Len(m, start);
    SameFront(m, t, p + 1, start, start + n + 1);
    SameString(m, start, t, start);
    TextIs(m, start);
    TextIs(t, start);
  }

  // strcpy into a buffer of SIZE bytes.
  method Copy(buf: array<char>, s: string)
    requires |s| < buf.Length && '\0' !in s
    modifies buf
    ensures Str(buf[..], 0) && Text(buf[..], 0) == s
  {
    var i := 0;
    while i < |s|
      invariant 0 <= i <= |s| && buf[..i] == s[..i]
    {
      buf[i] := s[i];
      i := i + 1;
    }
    buf[|s|] := '\0';
    assert buf[..][0..|s|] == buf[..|s|] == s;
    LenIs(buf[..], 0, |s|);
  }

  lemma NotSlash(m: seq<char>, start: nat, s: string)
    requires Str(m, start) && Text(m, start) == Skip(s) && start < |m| && m[start] != '\0'
    ensures m[start] != '/'
  {
    SkipStops(s);
    TextIs(m, start);
    CharAt(m, start, 0);
  }

  lemma IsSlash(m: seq<char>, q: nat)
    requires Str(m, q) && q < |m| && m[q] != '\0' && (Text(m, q) == [] || Text(m, q)[0] == '/')
    ensures m[q] == '/'
  {
    TextIs(m, q);
    CharAt(m, q, 0);
  }

  lemma CutHere(m: seq<char>, start: nat, q: nat)
    requires Str(m, start) && start + Len(m, start) <= q
    ensures Cut(m, start, q, Text(m, start))
  {}

  method SkipSlashes(buf: array<char>, p: nat) returns (start: nat)
    requires Str(buf[..], p)
    ensures p <= start < buf.Length && Str(buf[..], start) && Text(buf[..], start) == Skip(Text(buf[..], p))
    ensures Len(buf[..], start) == Len(buf[..], p) - (start - p)
  {
    ghost var m := buf[..];
    start := p;
    TextIs(m, p);
    while buf[start] == '/'
      invariant p <= start < buf.Length && Str(m, start) && Skip(Text(m, start)) == Skip(Text(m, p))
      invariant Len(m, start) == Len(m, p) - (start - p)
      decreases Len(m, start)
    {
      Suffix(m, start, 1);
      TextIs(m, start);
      CharAt(m, start, 0);
      start := start + 1;
      TextIs(m, start);
    }
    CharAt(m, start, 0);
    TextIs(m, start);
  }

  method FindEnd(buf: array<char>, start: nat) returns (q: nat)
    requires Str(buf[..], start)
    ensures q == start + SegLen(Text(buf[..], start)) < buf.Length
  {
    ghost var m := buf[..];
    q := start;
    TextIs(m, start);
    while buf[q] != '\0' && buf[q] != '/'
      invariant start <= q < buf.Length && Str(m, q) && Len(m, q) == Len(m, start) - (q - start)
      invariant q - start + SegLen(Text(m, q)) == SegLen(Text(m, start))
      decreases Len(m, q)
    {
      Suffix(m, q, 1);
      TextIs(m, q);
      CharAt(m, q, 0);
      q := q + 1;
      TextIs(m, q);
    }
    CharAt(m, q, 0);
    TextIs(m, q);
  }

  lemma EmptyText(m: seq<char>, p: nat)
    requires Str(m, p) && m[p] == '\0'
    ensures Text(m, p) == [] && Segs(Text(m, p)) == []
  {
    assert Skip("") == "";
  }

  // The segment that starts at start, n characters long, and the rest.
  lemma CutAt(m: seq<char>, start: nat, n: nat)
    requires Str(m, start) && m[start] != '\0' && m[start] != '/' && n == SegLen(Text(m, start))
    ensures 0 < n <= Len(m, start) && Str(m, start + n)
    ensures Segs(Text(m, start)) == [Text(m, start)[..n]] + Segs(Text(m, start + n))
    ensures Text(m, start + n) == [] || Text(m, start + n)[0] == '/'
    ensures Len(m, start + n) == Len(m, start) - n
  {
    TextIs(m, start);
    CharAt(m, start, 0);
    SegLenStops(Text(m, start));
    Suffix(m, start, n);
    assert Skip(Text(m, start)) == Text(m, start);
  }

  // A slash behind the segment is overwritten by the terminator.
  lemma CutBack(m: seq<char>, t: seq<char>, q: nat)
    requires Str(m, q) && q < |m| && t == m[q := '\0'] && m[q] == '/'
    ensures q + 1 < |m| && Str(t, q + 1) && Segs(Text(t, q + 1)) == Segs(Text(m, q)) && Len(t, q + 1) == Len(m, q) - 1
  {
    TextIs(m, q);
    CharAt(m, q, 0);
    Suffix(m, q, 1);
    TextIs(m, q + 1);
    var k := Len(m, q + 1);
    hide Text, Str, Len, Segs;
    assert t[q + 1..q + 1 + k + 1] == m[q + 1..q + 1 + k + 1];
    SameString(m, q + 1, t, q + 1);
    TextIs(t, q + 1);
    SegsSkip(Text(m, q + 1));
    assert Text(m, q) == "/" + Text(m, q)[1..];
  }

  lemma CutEnd(m: seq<char>, start: nat, n: nat)
    requires Str(m, start) && n <= Len(m, start) && Str(m, start + n) && m[start + n] == '\0'
    requires Len(m, start + n) == Len(m, start) - n
    ensures n == Len(m, start) && Text(m, start)[..n] == Text(m, start)
  {
    TextIs(m, start);
  }

  // One turn of either loop: skip slashes, find the segment's end, terminate it.
  method NextSegment(buf: array<char>, p: nat) returns (found: bool, start: nat, q: nat)
    requires Str(buf[..], p)
    modifies buf
    ensures p < buf.Length && q < buf.Length && buf[..p + 1] == old(buf[..p + 1])
    ensures !found ==> Segs(old(Text(buf[..], p))) == []
    ensures found ==>
      && p <= q && Str(buf[..], start) && Cut(buf[..], start, q, Text(buf[..], start)) && Str(buf[..], q)
      && Segs(old(Text(buf[..], p))) == [Text(buf[..], start)] + Segs(Text(buf[..], q))
      && Len(buf[..], q) < old(Len(buf[..], p))
  {
    hide *;
    ghost var m, s := buf[..], Text(buf[..], p);
    TextIs(m, p);
    start := SkipSlashes(buf, p);
    SegsSkip(s);
    TextIs(m, start);
    if buf[start] == '\0' {
      found, q := false, p;
      EmptyText(m, start);
      return;
    }
    found := true;
    q := FindEnd(buf, start);
    ghost var n := q - start;
    NotSlash(m, start, s);
    CutAt(m, start, n);
    TextIs(m, q);
    if buf[q] != '\0' {
      IsSlash(m, q);
      buf[q] := '\0';
      Truncated(m, buf[..], start, n);
      CutBack(m, buf[..], q);
      q := q + 1;
      CutHere(buf[..], start, q);
    } else {
      CutEnd(m, start, n);
      CutHere(m, start, q);
    }
  }

  lemma SlashBehind(s: string)
    ensures Segs(s + "/") == Segs(s)
  {
    SegsSlash(s, "");
    assert Skip("") == "" && s + "/" + "" == s + "/";
  }

  lemma TrimOne(m: seq<char>, t: seq<char>, n: nat)
    requires Str(m, 0) && Len(m, 0) == n + 1 < |m| && m[n] == '/' && t == m[n := '\0']
    ensures Str(t, 0) && Len(t, 0) == n && Segs(Text(t, 0)) == Segs(Text(m, 0))
  {
    Truncated(m, t, 0, n);
    SlashBehind(Text(t, 0));
    assert Text(m, 0) == Text(t, 0) + "/";
  }

  // The trailing slashes of path1, but not the first character.
  method TrimSlashes(buf: array<char>)
    requires Str(buf[..], 0)
    modifies buf
    ensures Str(buf[..], 0) && Segs(Text(buf[..], 0)) == Segs(old(Text(buf[..], 0)))
  {
    ghost var m := buf[..];
    var mem := new Memory(buf);
    var len := mem.StrLen(0);
    TextIs(m, 0);
    hide *;
    while len > 1 && buf[len - 1] == '/'
      invariant Str(buf[..], 0) && Len(buf[..], 0) == len < buf.Length
      invariant Segs(Text(buf[..], 0)) == Segs(Text(m, 0))
    {
      len := len - 1;
      ghost var now := buf[..];
      buf[len] := '\0';
      TrimOne(now, buf[..], len);
    }
  }

  // The stack of pointers, and the names on it.
  ghost predicate Points(m1: seq<char>, m2: seq<char>, ptrs: seq<Ptr>, p1: nat, p2: nat, stack: seq<string>) {
    |ptrs| == |stack| && forall k :: 0 <= k < |ptrs| ==>
      Cut(if ptrs[k].second then m2 else m1, ptrs[k].start, if ptrs[k].second then p2 else p1, stack[k])
  }

  lemma PointsMore(m1: seq<char>, m2: seq<char>, t1: seq<char>, t2: seq<char>, ptrs: seq<Ptr>, p1: nat, p2: nat,
                   q1: nat, q2: nat, stack: seq<string>)
    requires Points(m1, m2, ptrs, p1, p2, stack) && p1 <= q1 && p2 <= q2
    requires p1 < |m1| == |t1| && m1[..p1 + 1] == t1[..p1 + 1] && p2 < |m2| == |t2| && m2[..p2 + 1] == t2[..p2 + 1]
    ensures Points(t1, t2, ptrs, q1, q2, stack)
  {
    forall k | 0 <= k < |ptrs|
      ensures Cut(if ptrs[k].second then t2 else t1, ptrs[k].start, if ptrs[k].second then q2 else q1, stack[k])
    {
      if ptrs[k].second { CutStays(m2, t2, ptrs[k].start, p2, q2, stack[k]); }
      else { CutStays(m1, t1, ptrs[k].start, p1, q1, stack[k]); }
    }
  }

  lemma PointsPush(m: seq<char>, ptrs: seq<Ptr>, p: nat, stack: seq<string>, start: nat, seg: string, rest: seq<string>)
    requires Points(m, m, ptrs, p, p, stack) && Cut(m, start, p, seg)
    ensures Points(m, m, ptrs + [Ptr(false, start)], p, p, stack + [seg])
    ensures stack + ([seg] + rest) == (stack + [seg]) + rest
  {}

  // Part 1: every segment of path1 goes on the stack as it is.
  method SplitFirst(buf: array<char>) returns (ptrs: seq<Ptr>, p: nat, ghost stack: seq<string>)
    requires Str(buf[..], 0)
    modifies buf
    ensures stack == Segs(old(Text(buf[..], 0))) && p < buf.Length && Points(buf[..], buf[..], ptrs, p, p, stack)
    ensures forall k :: 0 <= k < |ptrs| ==> !ptrs[k].second
  {
    ghost var goal := Segs(Text(buf[..], 0));
    ptrs, p, stack := [], 0, [];
    TextIs(buf[..], 0);
    assert Points(buf[..], buf[..], ptrs, p, p, stack);
    hide Str, Len, Text, Segs, Cut, Points;
    while true
      invariant p < buf.Length && Str(buf[..], p) && stack + Segs(Text(buf[..], p)) == goal
      invariant Points(buf[..], buf[..], ptrs, p, p, stack)
      invariant forall k :: 0 <= k < |ptrs| ==> !ptrs[k].second
      decreases Len(buf[..], p)
    {
      ghost var m, rest := buf[..], Segs(Text(buf[..], p));
      var found, start, q := NextSegment(buf, p);
      PointsMore(m, m, buf[..], buf[..], ptrs, p, p, if found then q else p, if found then q else p, stack);
      if !found {
        assert stack + rest == stack;
        return;
      }
      ghost var seg := Text(buf[..], start);
      PointsPush(buf[..], ptrs, q, stack, start, seg, Segs(Text(buf[..], q)));
      ptrs, stack := ptrs + [Ptr(false, start)], stack + [seg];
      p := q;
    }
  }

  method Equals(buf: array<char>, start: nat, lit: string) returns (eq: bool)
    requires Str(buf[..], start) && '\0' !in lit
    ensures eq <==> Text(buf[..], start) == lit
  {
    ghost var m, s := buf[..], Text(buf[..], start);
    TextIs(m, start);
    var i: nat := 0;
    hide Str, Len, Text;
    while i < |lit| && buf[start + i] == lit[i]
      invariant i <= |lit| && i <= |s| && s[..i] == lit[..i]
      decreases |lit| - i
    {
      CharAt(m, start, i);
      i := i + 1;
    }
    CharAt(m, start, i);
    eq := i == |lit| && buf[start + i] == '\0';
  }

  lemma WalkCons(stack: seq<string>, seg: string, rest: seq<string>)
    ensures Walk(stack, [seg] + rest) == Walk(Step(stack, seg), rest) && |[seg] + rest| == |rest| + 1
  {
    assert ([seg] + rest)[1..] == rest;
  }

  // Pointers into buf1 alone.
  lemma FirstOnly(m1: seq<char>, m2: seq<char>, t2: seq<char>, ptrs: seq<Ptr>, p1: nat, stack: seq<string>)
    requires Points(m1, m2, ptrs, p1, 0, stack) && forall k :: 0 <= k < |ptrs| ==> !ptrs[k].second
    ensures Points(m1, t2, ptrs, p1, 0, stack)
  {}

  lemma StepCases(stack: seq<string>, seg: string)
    ensures Step(stack, seg)
      == if seg == "." then stack
         else if seg == ".." then (if |stack| > 0 then stack[..|stack| - 1] else stack)
         else stack + [seg]
  {}

  // What one segment of path2 does to the stack.
  method Push(buf: array<char>, start: nat, q: nat, ptrs0: seq<Ptr>, ghost m1: seq<char>, ghost p1: nat,
              ghost stack: seq<string>)
    returns (ptrs: seq<Ptr>)
    requires Str(buf[..], start) && Cut(buf[..], start, q, Text(buf[..], start)) && |ptrs0| < SIZE
    requires Points(m1, buf[..], ptrs0, p1, q, stack)
    ensures Points(m1, buf[..], ptrs, p1, q, Step(stack, Text(buf[..], start))) && |ptrs| <= |ptrs0| + 1
  {
    ghost var seg := Text(buf[..], start);
    StepCases(stack, seg);
    hide Str, Len, Text, Cut, Step;
    var dot := Equals(buf, start, ".");
    var dots := Equals(buf, start, "..");
    ptrs := ptrs0;
    if dot {
    } else if dots {
      if |ptrs| > 0 {
        ptrs := ptrs[..|ptrs| - 1];
      }
    } else {
      ptrs := ptrs + [Ptr(true, start)];
    }
  }

  // Part 2: "." does nothing, ".." pops, every other segment is pushed; never more than 128.
  method SplitSecond(buf1: array<char>, buf2: array<char>, p1: nat, ptrs0: seq<Ptr>, ghost stack0: seq<string>)
    returns (ptrs: seq<Ptr>, p: nat, ghost stack: seq<string>)
    requires buf1 != buf2 && Str(buf2[..], 0) && p1 < buf1.Length
    requires Points(buf1[..], [], ptrs0, p1, 0, stack0) && (forall k :: 0 <= k < |ptrs0| ==> !ptrs0[k].second)
    requires |ptrs0| + |Segs(Text(buf2[..], 0))| <= SIZE
    modifies buf2
    ensures p < buf2.Length && Points(buf1[..], buf2[..], ptrs, p1, p, stack)
    ensures stack == Walk(stack0, Segs(old(Text(buf2[..], 0)))) && |ptrs| <= SIZE
  {
    ghost var goal, m1 := Walk(stack0, Segs(Text(buf2[..], 0))), buf1[..];
    ptrs, p, stack := ptrs0, 0, stack0;
    TextIs(buf2[..], 0);
    FirstOnly(m1, [], buf2[..], ptrs, p1, stack);
    hide Str, Len, Text, Segs, Cut, Step, Walk, Points;
    while true
      invariant p < buf2.Length && Str(buf2[..], p) && Walk(stack, Segs(Text(buf2[..], p))) == goal
      invariant Points(m1, buf2[..], ptrs, p1, p, stack) && buf1[..] == m1
      invariant |ptrs| + |Segs(Text(buf2[..], p))| <= SIZE
      decreases Len(buf2[..], p)
    {
      ghost var m := buf2[..];
      var found, start, q := NextSegment(buf2, p);
      PointsMore(m1, m, m1, buf2[..], ptrs, p1, p, p1, if found then q else p, stack);
      if !found {
        return;
      }
      WalkCons(stack, Text(buf2[..], start), Segs(Text(buf2[..], q)));
      ptrs := Push(buf2, start, q, ptrs, m1, p1, stack);
      stack := Step(stack, Text(buf2[..], start));
      p := q;
    }
  }

  function Part(stack: seq<string>, i: nat): string
    requires i <= |stack|
  {
    Slashed(stack[..i])
  }

  lemma PointsLength(m1: seq<char>, m2: seq<char>, ptrs: seq<Ptr>, p1: nat, p2: nat, stack: seq<string>)
    requires Points(m1, m2, ptrs, p1, p2, stack)
    ensures |ptrs| == |stack| && Part(stack, 0) == [] && Part(stack, |stack|) == Slashed(stack)
    ensures Join(stack) == if |ptrs| == 0 then "/" else Slashed(stack)
  {
    assert stack[..|stack|] == stack;
  }

  lemma PointsAt(m1: seq<char>, m2: seq<char>, ptrs: seq<Ptr>, p1: nat, p2: nat, stack: seq<string>, i: nat)
    requires Points(m1, m2, ptrs, p1, p2, stack) && i < |ptrs|
    ensures var m := if ptrs[i].second then m2 else m1;
      && |ptrs| == |stack| && Str(m, ptrs[i].start)
      && Text(m, ptrs[i].start) == stack[i] && Len(m, ptrs[i].start) == |stack[i]|
  {
    TextIs(if ptrs[i].second then m2 else m1, ptrs[i].start);
  }

  lemma {:induction false} SlashedJoin(a: seq<string>, b: seq<string>)
    ensures Slashed(a + b) == Slashed(a) + Slashed(b)
    decreases |a|
  {
    if a == [] {
      assert a + b == b;
    } else {
      assert (a + b)[1..] == a[1..] + b;
      SlashedJoin(a[1..], b);
    }
  }

  lemma SlashedNext(stack: seq<string>, i: nat)
    requires i < |stack|
    ensures Part(stack, i + 1) == Part(stack, i) + ['/'] + stack[i]
    ensures |Part(stack, i + 1)| <= |Slashed(stack)|
  {
    assert stack[..i + 1] == stack[..i] + [stack[i]];
    assert stack == stack[..i + 1] + stack[i + 1..];
    SlashedJoin(stack[..i], [stack[i]]);
    SlashedJoin(stack[..i + 1], stack[i + 1..]);
    assert Slashed([stack[i]]) == ['/'] + stack[i];
    assert Slashed(stack[..i]) + (['/'] + stack[i]) == Slashed(stack[..i]) + ['/'] + stack[i];
  }

  method WriteText(buf: array<char>, start: nat, res: array<char>, r0: nat) returns (r: nat)
    requires buf != res && Str(buf[..], start) && r0 + Len(buf[..], start) < res.Length
    modifies res
    ensures r == r0 + Len(buf[..], start) && res[..r] == old(res[..r0]) + Text(buf[..], start)
  {
    ghost var m, s, was := buf[..], Text(buf[..], start), res[..r0];
    TextIs(m, start);
    CharAt(m, start, 0);
    hide Str, Len, Text;
    r := r0;
    var i: nat := 0;
    while buf[start + i] != '\0'
      invariant i <= |s| && r == r0 + i && res[..r] == was + s[..i] && buf[..] == m
      invariant buf[start + i] == '\0' <==> i == |s|
      decreases |s| - i
    {
      CharAt(m, start, i);
      res[r] := buf[start + i];
      assert res[..r + 1] == res[..r] + [s[i]];
      r, i := r + 1, i + 1;
      CharAt(m, start, i);
    }
  }

  method EmitOne(buf: array<char>, start: nat, res: array<char>, r0: nat) returns (r: nat)
    requires buf != res && Str(buf[..], start) && r0 + 1 + |Text(buf[..], start)| < res.Length
    modifies res
    ensures r == r0 + 1 + |Text(buf[..], start)| && res[..r] == old(res[..r0]) + ['/'] + Text(buf[..], start)
  {
    TextIs(buf[..], start);
    hide *;
    res[r0] := '/';
    assert res[..r0 + 1] == old(res[..r0]) + ['/'];
    r := WriteText(buf, start, res, r0 + 1);
  }

  // One segment, from whichever buffer its pointer points into.
  method EmitAt(buf1: array<char>, buf2: array<char>, ptrs: seq<Ptr>, i: nat, res: array<char>, r0: nat,
                ghost p1: nat, ghost p2: nat, ghost stack: seq<string>)
    returns (r: nat)
    requires Points(buf1[..], buf2[..], ptrs, p1, p2, stack) && i < |ptrs| == |stack|
    requires res != buf1 && res != buf2 && r0 < res.Length && |Slashed(stack)| < res.Length
    requires res[..r0] == Part(stack, i)
    modifies res
    ensures r < res.Length && res[..r] == Part(stack, i + 1)
  {
    PointsAt(buf1[..], buf2[..], ptrs, p1, p2, stack, i);
    hide *;
    SlashedNext(stack, i);
    r := EmitOne(if ptrs[i].second then buf2 else buf1, ptrs[i].start, res, r0);
  }

  lemma PartEnds(stack: seq<string>)
    ensures Part(stack, 0) == [] && Part(stack, |stack|) == Slashed(stack)
  {
    assert stack[..|stack|] == stack;
  }

  method EmitAll(buf1: array<char>, buf2: array<char>, ptrs: seq<Ptr>, res: array<char>,
          ghost p1: nat, ghost p2: nat, ghost stack: seq<string>)
    returns (r: nat)
    requires Points(buf1[..], buf2[..], ptrs, p1, p2, stack)
    requires res != buf1 && res != buf2 && |Slashed(stack)| < res.Length
    modifies res
    ensures r == |Slashed(stack)| && res[..r] == Slashed(stack)
  {
    PointsLength(buf1[..], buf2[..], ptrs, p1, p2, stack);
    PartEnds(stack);
    hide *;
    var i: nat := 0;
    r := 0;
    while i < |ptrs|
      invariant i <= |ptrs| && r < res.Length && res[..r] == Part(stack, i)
      invariant Points(buf1[..], buf2[..], ptrs, p1, p2, stack)
    {
      r := EmitAt(buf1, buf2, ptrs, i, res, r, p1, p2, stack);
      i := i + 1;
    }
  }

  // Part 4: a slash and the segment's characters, for each pointer from the bottom up.
  method Emit(buf1: array<char>, buf2: array<char>, ptrs: seq<Ptr>, res: array<char>,
          ghost p1: nat, ghost p2: nat, ghost stack: seq<string>)
    requires Points(buf1[..], buf2[..], ptrs, p1, p2, stack)
    requires res != buf1 && res != buf2 && |Join(stack)| < res.Length
    modifies res
    ensures res[..|Join(stack)| + 1] == Join(stack) + ['\0']
  {
    PointsLength(buf1[..], buf2[..], ptrs, p1, p2, stack);
    hide *;
    var r: nat := 0;
    if |ptrs| == 0 {
      res[0] := '/';
      r := 1;
    } else {
      r := EmitAll(buf1, buf2, ptrs, res, p1, p2, stack);
    }
    assert res[..r] == Join(stack);
    res[r] := '\0';
    assert res[..r + 1] == res[..r] + ['\0'];
  }

  lemma NoPointers(m: seq<char>, p: nat, ptrs: seq<Ptr>, stack: seq<string>)
    requires (ptrs == [] && stack == []) || Points(m, m, ptrs, p, p, stack)
    requires forall k :: 0 <= k < |ptrs| ==> !ptrs[k].second
    ensures Points(m, [], ptrs, p, 0, stack) && |ptrs| == |stack|
  {}

  // What the second path starts from: the segments of the first, or nothing when it is absolute.
  method StackFirst(buf: array<char>, path1: string, absolute: bool)
    returns (ptrs: seq<Ptr>, p: nat, ghost stack: seq<string>)
    requires |path1| < buf.Length && '\0' !in path1
    modifies buf
    ensures p < buf.Length && Points(buf[..], [], ptrs, p, 0, stack)
    ensures forall k :: 0 <= k < |ptrs| ==> !ptrs[k].second
    ensures stack == (if absolute then [] else Segs(path1)) && |ptrs| == |stack|
  {
    hide Str, Text, Segs, Points;
    Copy(buf, path1);
    TrimSlashes(buf);
    ptrs, p, stack := SplitFirst(buf);
    if absolute {
      ptrs, stack := [], [];
    }
    NoPointers(buf[..], p, ptrs, stack);
  }

  lemma CatIs(path1: string, path2: string)
    ensures Cat(path1, path2) == Join(Walk(if Absolute(path2) then [] else Segs(path1), Segs(path2)))
    ensures Absolute(path2) <==> |path2| > 0 && path2[0] == '/'
  {}

  lemma StackFits(path1: string, path2: string)
    requires |path1| < SIZE && |path2| < SIZE
    ensures |if Absolute(path2) then [] else Segs(path1)| + |Segs(path2)| <= SIZE
  {
    SegsTotal(path1);
    SegsTotal(path2);
  }

  // cat2Path on arguments below 128 characters, into a buffer that the result fits.
  method CatToPath(path1: string, path2: string, res: array<char>)
    requires |path1| < SIZE && |path2| < SIZE && '\0' !in path1 && '\0' !in path2
    requires |Cat(path1, path2)| < res.Length
    modifies res
    ensures res[..|Cat(path1, path2)| + 1] == Cat(path1, path2) + ['\0']
  {
    CatIs(path1, path2);
    StackFits(path1, path2);
    hide *;
    var buf1, buf2 := new char[SIZE], new char[SIZE];
    ghost var stack;
    var ptrs, p1;
    ptrs, p1, stack := StackFirst(buf1, path1, |path2| > 0 && path2[0] == '/');
    Copy(buf2, path2);
    var p2;
    ptrs, p2, stack := SplitSecond(buf1, buf2, p1, ptrs, stack);
    Emit(buf1, buf2, ptrs, res, p1, p2, stack);
  }
}
