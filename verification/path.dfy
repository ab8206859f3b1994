// Joining paths (user/lib/file.c, cat2Path): as a function on strings, and what holds of it.
module Path {
  function Skip(s: string): (t: string)
    ensures |t| <= |s|
  {
    if s != [] && s[0] == '/' then Skip(s[1..]) else s
  }

  // The length of the segment that s starts with.
  function SegLen(s: string): (n: nat)
    ensures n <= |s|
  {
    if s == [] || s[0] == '/' then 0 else 1 + SegLen(s[1..])
  }

  lemma {:induction false} SkipStops(s: string)
    ensures var t := Skip(s); t == s[|s| - |t|..] && (t != [] ==> t[0] != '/' && SegLen(t) > 0)
  {
    if s != [] && s[0] == '/' { SkipStops(s[1..]); }
  }

  // The non-empty stretches between slashes.
  function Segs(s: string): seq<string>
    decreases |s|
  {
    var t := Skip(s);
    if t == [] then []
    else
      SkipStops(s);
      [t[..SegLen(t)]] + Segs(t[SegLen(t)..])
  }

  lemma {:induction false} SegLenStops(s: string)
    ensures var n := SegLen(s); '/' !in s[..n] && (n < |s| ==> s[n] == '/')
  {
    if s != [] && s[0] != '/' {
      SegLenStops(s[1..]);
      assert s[..SegLen(s)] == [s[0]] + s[1..][..SegLen(s[1..])];
    }
  }

  // The first segment and what follows it.
  lemma SegsFirst(s: string) returns (seg: string, rest: string)
    ensures Skip(s) == [] ==> Segs(s) == []
    ensures Skip(s) != [] ==>
      && Skip(s) == seg + rest && |seg| == SegLen(Skip(s)) > 0 && '/' !in seg && (rest == [] || rest[0] == '/')
      && Segs(s) == [seg] + Segs(rest) && |rest| < |s|
  {
    var t := Skip(s);
    SkipStops(s);
    SegLenStops(t);
    seg, rest := t[..SegLen(t)], t[SegLen(t)..];
  }

  // "." stays, ".." goes up, never above the root.
  function Step(stack: seq<string>, seg: string): seq<string> {
    if seg == "." then stack
    else if seg == ".." then (if stack == [] then [] else stack[..|stack| - 1])
    else stack + [seg]
  }

  function Walk(stack: seq<string>, segs: seq<string>): seq<string>
    decreases |segs|
  {
    if segs == [] then stack else Walk(Step(stack, segs[0]), segs[1..])
  }

  function Slashed(segs: seq<string>): string
    decreases |segs|
  {
    if segs == [] then [] else ['/'] + segs[0] + Slashed(segs[1..])
  }

  function Join(segs: seq<string>): string { if segs == [] then "/" else Slashed(segs) }

  predicate Absolute(s: string) { s != [] && s[0] == '/' }

  function Cat(path1: string, path2: string): string {
    Join(Walk(if Absolute(path2) then [] else Segs(path1), Segs(path2)))
  }

  // Names that can stand between slashes.
  predicate Names(segs: seq<string>) { forall i :: 0 <= i < |segs| ==> segs[i] != [] && '/' !in segs[i] }

  predicate Plain(segs: seq<string>) { Names(segs) && "." !in segs && ".." !in segs }

  predicate Canonical(s: string) { Plain(Segs(s)) && s == Join(Segs(s)) }

  lemma {:induction false} SegsAreNames(s: string)
    ensures Names(Segs(s))
    decreases |s|
  {
    hide Segs, Skip, SegLen;
    var seg, rest := SegsFirst(s);
    if Skip(s) != [] { SegsAreNames(rest); }
  }

  lemma {:induction false} SkipJoin(a: string, b: string)
    ensures Skip(a + b) == if Skip(a) == [] then Skip(b) else Skip(a) + b
  {
    if a == [] {
      assert a + b == b;
    } else if a[0] == '/' {
      assert (a + b)[1..] == a[1..] + b;
      SkipJoin(a[1..], b);
    }
  }

  lemma {:induction false} SegLenJoin(a: string, b: string)
    requires b == [] || b[0] == '/' || SegLen(a) < |a|
    ensures SegLen(a + b) == SegLen(a)
  {
    if a == [] {
      assert a + b == b;
    } else if a[0] != '/' {
      assert (a + b)[1..] == a[1..] + b;
      SegLenJoin(a[1..], b);
    }
  }

  lemma SegsSkip(s: string)
    ensures Segs(s) == Segs(Skip(s)) && Segs("/" + s) == Segs(s)
  {
    SkipStops(s);
    assert ("/" + s)[1..] == s;
  }

  lemma {:induction false} NameLen(s: string)
    requires '/' !in s
    ensures SegLen(s) == |s|
  {
    if s != [] {
      assert s[0] in s;
      NameLen(s[1..]);
    }
  }

  // A segment in front of the end or a slash.
  lemma SegsCons(seg: string, rest: string)
    requires seg != [] && '/' !in seg && (rest == [] || rest[0] == '/')
    ensures Segs(seg + rest) == [seg] + Segs(rest) && Skip(seg + rest) == seg + rest
  {
    NameLen(seg);
    SegLenJoin(seg, rest);
    assert seg[0] in seg;
    assert (seg + rest)[..|seg|] == seg && (seg + rest)[|seg|..] == rest;
  }

  lemma {:induction false} SegsSlash(a: string, b: string)
    ensures Segs(a + "/" + b) == Segs(a) + Segs(b)
    decreases |a|
  {
    hide Segs, Skip, SegLen;
    var seg, rest := SegsFirst(a);
    assert a + "/" + b == a + ("/" + b);
    SkipJoin(a, "/" + b);
    SegsSkip(a + "/" + b);
    if Skip(a) == [] {
      SegsSkip("/" + b);
      SegsSkip(b);
    } else {
      var tail := rest + "/" + b;
      assert Skip(a) + ("/" + b) == seg + tail;
      SegsCons(seg, tail);
      SegsSlash(rest, b);
    }
  }

  lemma {:induction false} SegsOfSlashed(segs: seq<string>)
    requires Names(segs)
    ensures Segs(Slashed(segs)) == segs
    decreases |segs|
  {
    if segs == [] {
      assert Slashed(segs) == [];
    } else {
      hide Segs, Skip, SegLen;
      var s, rest := segs[0], Slashed(segs[1..]);
      SegsOfSlashed(segs[1..]);
      assert Slashed(segs) == "/" + (s + rest);
      SegsSkip(s + rest);
      assert rest == [] || rest[0] == '/';
      SegsCons(s, rest);
    }
  }

  lemma SegsOfJoin(segs: seq<string>)
    requires Names(segs)
    ensures Segs(Join(segs)) == segs
  {
    SegsOfSlashed(segs);
    assert Skip("/") == [];
  }

  lemma {:induction false} WalkJoin(stack: seq<string>, a: seq<string>, b: seq<string>)
    ensures Walk(stack, a + b) == Walk(Walk(stack, a), b)
    decreases |a|
  {
    if a == [] {
      assert a + b == b;
    } else {
      assert (a + b)[1..] == a[1..] + b;
      WalkJoin(Step(stack, a[0]), a[1..], b);
    }
  }

  lemma {:induction false} WalkNames(stack: seq<string>, segs: seq<string>)
    requires Names(stack) && Names(segs)
    ensures Names(Walk(stack, segs))
    ensures Plain(stack) ==> Plain(Walk(stack, segs))
    decreases |segs|
  {
    if segs != [] { WalkNames(Step(stack, segs[0]), segs[1..]); }
  }

  lemma {:induction false} WalkPlain(stack: seq<string>, segs: seq<string>)
    requires Plain(segs)
    ensures Walk(stack, segs) == stack + segs
    decreases |segs|
  {
    if segs != [] {
      assert segs[0] in segs;
      WalkPlain(stack + [segs[0]], segs[1..]);
    }
  }

  // Going to b and then to c is going to b/c.
  lemma CatComposes(a: string, b: string, c: string)
    requires b != [] && !Absolute(c)
    ensures Cat(Cat(a, b), c) == Cat(a, b + "/" + c)
  {
    var base := if Absolute(b) then [] else Segs(a);
    SegsAreNames(a);
    SegsAreNames(b);
    WalkNames(base, Segs(b));
    SegsOfJoin(Walk(base, Segs(b)));
    SegsSlash(b, c);
    WalkJoin(base, Segs(b), Segs(c));
    assert Absolute(b + "/" + c) == Absolute(b);
  }

  // From a canonical directory every path leads to a canonical one, and a canonical path leads to
  // itself from anywhere.
  lemma CatCanonical(a: string, b: string)
    ensures Canonical(a) || Absolute(b) ==> Canonical(Cat(a, b))
    ensures Canonical(b) ==> Cat(a, b) == b
  {
    SegsAreNames(a);
    SegsAreNames(b);
    var base := if Absolute(b) then [] else Segs(a);
    WalkNames(base, Segs(b));
    SegsOfJoin(Walk(base, Segs(b)));
    if Canonical(b) {
      WalkPlain([], Segs(b));
      assert [] + Segs(b) == Segs(b);
    }
  }

  // How long results can get, and how many segments there can be on the way.
  function Total(segs: seq<string>): nat
    decreases |segs|
  {
    if segs == [] then 0 else 1 + |segs[0]| + Total(segs[1..])
  }

  lemma {:induction false} SegsTotal(s: string)
    ensures Total(Segs(s)) <= |s| + (if Absolute(s) then 0 else 1)
    ensures 2 * |Segs(s)| <= Total(Segs(s))
    decreases |s|
  {
    var seg, rest := SegsFirst(s);
    assert Absolute(s) ==> |Skip(s)| < |s|;
    hide Segs, Skip, SegLen;
    if Skip(s) != [] { SegsTotal(rest); }
  }

  lemma {:induction false} TotalJoin(a: seq<string>, b: seq<string>)
    ensures Total(a + b) == Total(a) + Total(b)
    decreases |a|
  {
    if a == [] {
      assert a + b == b;
    } else {
      assert (a + b)[1..] == a[1..] + b;
      TotalJoin(a[1..], b);
    }
  }

  lemma StepTotal(stack: seq<string>, seg: string)
    ensures Total(Step(stack, seg)) <= Total(stack) + 1 + |seg|
  {
    TotalJoin(stack, [seg]);
    if stack != [] {
      TotalJoin(stack[..|stack| - 1], stack[|stack| - 1..]);
      assert stack[..|stack| - 1] + stack[|stack| - 1..] == stack;
    }
  }

  lemma {:induction false} WalkTotal(stack: seq<string>, segs: seq<string>)
    ensures Total(Walk(stack, segs)) <= Total(stack) + Total(segs)
    ensures |Walk(stack, segs)| <= |stack| + |segs|
    decreases |segs|
  {
    if segs != [] {
      StepTotal(stack, segs[0]);
      WalkTotal(Step(stack, segs[0]), segs[1..]);
    }
  }

  lemma {:induction false} SlashedTotal(segs: seq<string>)
    ensures |Slashed(segs)| == Total(segs)
    decreases |segs|
  {
    if segs != [] { SlashedTotal(segs[1..]); }
  }

  // With arguments below 128 characters, the first absolute: at most 127 segments on the stack at
  // any time, and a result of at most 255 characters.
  lemma CatFits(a: string, b: string, k: nat)
    requires |a| < 128 && |b| < 128 && Absolute(a) && k <= |Segs(b)|
    ensures |Cat(a, b)| <= 255
    ensures |Walk(if Absolute(b) then [] else Segs(a), Segs(b)[..k])| <= 127
  {
    var base := if Absolute(b) then [] else Segs(a);
    SegsTotal(a);
    SegsTotal(b);
    WalkTotal(base, Segs(b));
    WalkTotal(base, Segs(b)[..k]);
    SlashedTotal(Walk(base, Segs(b)));
  }
}
