// Text in place (lib/string.c): strstr, memmove on overlapping regions, and replace_substr, which
// rewrites a string inside its own buffer.
module Strings {
  import opened Common

  // A string starts at p and is terminated within the buffer.
  ghost predicate Str(m: seq<char>, p: nat) { exists n: nat :: p <= n < |m| && m[n] == '\0' }

  function Len(m: seq<char>, p: nat): (n: nat)
    requires Str(m, p)
    ensures p + n < |m| && m[p + n] == '\0'
    decreases |m| - p
  {
    if m[p] == '\0' then 0 else 1 + Len(m, p + 1)
  }

  function Text(m: seq<char>, p: nat): string
    requires Str(m, p)
  {
    m[p..p + Len(m, p)]
  }

  lemma {:induction false} NoNul(m: seq<char>, p: nat)
    requires Str(m, p)
    ensures '\0' !in Text(m, p)
    decreases Len(m, p)
  {
    if m[p] != '\0' {
      NoNul(m, p + 1);
      assert Text(m, p) == [m[p]] + Text(m, p + 1);
    }
  }

  lemma {:induction false} LenIs(m: seq<char>, p: nat, n: nat)
    requires p + n < |m| && m[p + n] == '\0' && '\0' !in m[p..p + n]
    ensures Str(m, p) && Len(m, p) == n && Text(m, p) == m[p..p + n]
    decreases n
  {
    assert Str(m, p);
    if n > 0 {
      assert m[p..p + n][0] == m[p];
      assert m[p + 1..p + n] == m[p..p + n][1..];
      LenIs(m, p + 1, n - 1);
    }
  }

  lemma TextIs(m: seq<char>, p: nat)
    requires Str(m, p)
    ensures |Text(m, p)| == Len(m, p) && p + Len(m, p) < |m|
  {}

  lemma CharAt(m: seq<char>, p: nat, k: nat)
    requires Str(m, p) && k <= Len(m, p)
    ensures var s := Text(m, p);
      && (k < |s| ==> m[p + k] == s[k] && s[k] != '\0')
      && (k == |s| ==> m[p + k] == '\0')
  {
    NoNul(m, p);
    if k < Len(m, p) { assert Text(m, p)[k] in Text(m, p); }
  }

  predicate MatchAt(s: string, t: string, i: nat) { i + |t| <= |s| && s[i..i + |t|] == t }

  lemma MatchShift(s: string, t: string, i: nat)
    requires s != [] && i > 0
    ensures MatchAt(s, t, i) <==> MatchAt(s[1..], t, i - 1)
  {
    if i + |t| <= |s| { assert s[i..i + |t|] == s[1..][i - 1..i - 1 + |t|]; }
  }

  // A match is one in the tail, or at the front.
  lemma MatchShifts(s: string, t: string)
    requires s != []
    ensures forall i: nat {:trigger MatchAt(s, t, i)} :: i > 0 ==> (MatchAt(s, t, i) <==> MatchAt(s[1..], t, i - 1))
    ensures forall i: nat {:trigger MatchAt(s[1..], t, i)} :: MatchAt(s[1..], t, i) <==> MatchAt(s, t, i + 1)
    ensures MatchAt(s, t, 0) <==> t <= s
  {
    forall i: nat | i > 0 ensures MatchAt(s, t, i) <==> MatchAt(s[1..], t, i - 1) { MatchShift(s, t, i); }
    forall i: nat ensures MatchAt(s[1..], t, i) <==> MatchAt(s, t, i + 1) { MatchShift(s, t, i + 1); }
  }

  // The first occurrence of t in s.
  function Find(s: string, t: string): (o: Option<nat>)
    ensures o.Some? ==> MatchAt(s, t, o.value) && forall i :: 0 <= i < o.value ==> !MatchAt(s, t, i)
    ensures o.None? ==> forall i: nat :: !MatchAt(s, t, i)
  {
    if t <= s then Some(0)
    else if s == [] then None
    else
      var o := Find(s[1..], t);
      MatchShifts(s, t);
      if o.Some? then Some(o.value + 1) else None
  }

  // Every occurrence of a, from the left and without overlaps, replaced by b.
  function ReplaceAll(s: string, a: string, b: string): string
    requires a != []
  {
    if a <= s then b + ReplaceAll(s[|a|..], a, b)
    else if s == [] then []
    else [s[0]] + ReplaceAll(s[1..], a, b)
  }

  lemma FindNext(s: string, t: string)
    requires !(t <= s) && s != []
    ensures Find(s, t) == match Find(s[1..], t) case None => None case Some(i) => Some(i + 1)
  {
    hide MatchAt;
  }

  lemma FindFits(s: string, t: string)
    ensures Find(s, t).Some? ==> Find(s, t).value + |t| <= |s|
  {
    assert Find(s, t).Some? ==> MatchAt(s, t, Find(s, t).value);
  }

  lemma ReplaceNext(s: string, a: string, b: string)
    requires a != []
    ensures a <= s ==> Find(s, a) == Some(0) && ReplaceAll(s, a, b) == b + ReplaceAll(s[|a|..], a, b)
    ensures !(a <= s) && s != [] ==> ReplaceAll(s, a, b) == [s[0]] + ReplaceAll(s[1..], a, b)
    ensures s == [] ==> Find(s, a) == None && ReplaceAll(s, a, b) == []
  {}

  lemma Shift(s: string, b: string, rest: string, k: nat, n: nat)
    requires s != [] && k + n < |s|
    ensures s[1..][k + n..] == s[k + 1 + n..]
    ensures [s[0]] + (s[1..][..k] + b + rest) == s[..k + 1] + b + rest
  {
    assert [s[0]] + s[1..][..k] == s[..k + 1];
    assert [s[0]] + (s[1..][..k] + b + rest) == ([s[0]] + s[1..][..k]) + b + rest;
  }

  // Up to the first occurrence nothing is replaced.
  lemma {:induction false} ReplaceFrom(s: string, a: string, b: string)
    requires a != []
    ensures var o := Find(s, a);
      ReplaceAll(s, a, b) == if o.None? then s else s[..o.value] + b + ReplaceAll(s[o.value + |a|..], a, b)
  {
    hide MatchAt, ReplaceAll, Find;
    ReplaceNext(s, a, b);
    if a <= s {
      assert s[..0] + b == b;
    } else if s != [] {
      FindNext(s, a);
      FindFits(s[1..], a);
      ReplaceFrom(s[1..], a, b);
      var o := Find(s[1..], a);
      if o.Some? { Shift(s, b, ReplaceAll(s[1..][o.value + |a|..], a, b), o.value, |a|); }
    }
  }

  function TrimBack(s: string): string { if s != [] && White(s[|s| - 1]) then TrimBack(s[..|s| - 1]) else s }

  function TrimFront(s: string): string { if s != [] && White(s[0]) then TrimFront(s[1..]) else s }

  function Trimmed(s: string): string { TrimFront(TrimBack(s)) }

  lemma {:induction false} BackKeeps(s: string) returns (b: string)
    ensures s == TrimBack(s) + b && (forall c :: c in b ==> White(c))
    ensures TrimBack(s) != [] ==> !White(TrimBack(s)[|TrimBack(s)| - 1])
  {
    b := [];
    if s != [] && White(s[|s| - 1]) {
      b := BackKeeps(s[..|s| - 1]);
      b := b + [s[|s| - 1]];
    }
  }

  lemma {:induction false} FrontKeeps(s: string) returns (a: string)
    ensures s == a + TrimFront(s) && (forall c :: c in a ==> White(c))
    ensures TrimFront(s) != [] ==> !White(TrimFront(s)[0]) && TrimFront(s)[|TrimFront(s)| - 1] == s[|s| - 1]
  {
    a := [];
    if s != [] && White(s[0]) {
      a := FrontKeeps(s[1..]);
      a := [s[0]] + a;
    }
  }

  // Trimming takes off white space and nothing else, as much of it as there is at both ends.
  lemma TrimKeeps(s: string) returns (a: string, b: string)
    ensures s == a + Trimmed(s) + b && (forall c :: c in a || c in b ==> c in " \t\r\n")
    ensures Trimmed(s) != [] ==> Trimmed(s)[0] !in " \t\r\n" && Trimmed(s)[|Trimmed(s)| - 1] !in " \t\r\n"
  {
    b := BackKeeps(s);
    a := FrontKeeps(TrimBack(s));
    forall c: char ensures White(c) <==> c in " \t\r\n" { WhiteIs(c); }
  }

  lemma TrimNothing(m: seq<char>, p: nat)
    requires Str(m, p) && m[p] == '\0'
    ensures Text(m, p) == [] == Trimmed(Text(m, p))
  {}

  function BackOf(s: string, n: nat): string
    requires n <= |s|
  {
    TrimBack(s[..n])
  }

  lemma BackWhole(s: string)
    ensures BackOf(s, |s|) == TrimBack(s)
  {
    assert s[..|s|] == s;
  }

  lemma BackStep(s: string, n: nat)
    requires 0 < n <= |s| && White(s[n - 1])
    ensures BackOf(s, n) == BackOf(s, n - 1)
  {
    assert s[..n][..n - 1] == s[..n - 1];
  }

  lemma BackEnd(s: string, n: nat)
    requires n <= |s| && (n > 0 ==> !White(s[n - 1]))
    ensures BackOf(s, n) == s[..n]
  {}

  lemma FrontEnd(t: seq<char>, p: nat)
    requires Str(t, p) && p < |t| && (t[p] == '\0' || !White(t[p]))
    ensures TrimFront(Text(t, p)) == Text(t, p) && p + Len(t, p) < |t|
  {
    TextIs(t, p);
    CharAt(t, p, 0);
  }

  lemma TrimmedIs(s: string)
    ensures Trimmed(s) == TrimFront(TrimBack(s))
  {}

  // A string's tail is a string.
  lemma {:induction false} Suffix(m: seq<char>, p: nat, k: nat)
    requires Str(m, p) && k <= Len(m, p)
    ensures Str(m, p + k) && Len(m, p + k) == Len(m, p) - k && Text(m, p + k) == Text(m, p)[k..]
  {
    var n := Len(m, p);
    NoNul(m, p);
    assert m[p + k..p + n] == m[p..p + n][k..];
    LenIs(m, p + k, n - k);
  }

  lemma FrontStep(t: seq<char>, p: nat)
    requires Str(t, p) && p < |t| && t[p] != '\0' && White(t[p])
    ensures Str(t, p + 1) && Len(t, p + 1) == Len(t, p) - 1 && p + Len(t, p) < |t|
    ensures TrimFront(Text(t, p)) == TrimFront(Text(t, p + 1))
  {
    TextIs(t, p);
    CharAt(t, p, 0);
    Suffix(t, p, 1);
  }

  // A terminator written inside a string ends it there.
  lemma Truncated(m: seq<char>, t: seq<char>, start: nat, n: nat)
    requires Str(m, start) && n <= Len(m, start) && start + n < |m| && t == m[start + n := '\0']
    ensures Str(t, start) && Text(t, start) == Text(m, start)[..n] && Len(t, start) == n
  {
    NoNul(m, start);
    TextIs(m, start);
    assert t[start..start + n] == m[start..start + n] == Text(m, start)[..n];
    hide Text, Str, Len;
    LenIs(t, start, n);
  }

  // Growing replacements make texts no shorter, and shrinking ones no longer.
  lemma {:induction false} ReplaceLength(s: string, a: string, b: string)
    requires a != []
    ensures |b| >= |a| ==> |ReplaceAll(s, a, b)| >= |s|
    ensures |b| <= |a| ==> |ReplaceAll(s, a, b)| <= |s|
  {
    ReplaceNext(s, a, b);
    if a <= s {
      ReplaceLength(s[|a|..], a, b);
    } else if s != [] {
      ReplaceLength(s[1..], a, b);
    }
  }

  lemma SameSlice(a: seq<char>, b: seq<char>, k: nat, n: nat)
    requires |a| == |b| && k + n <= |a| && a[k..] == b[k..]
    ensures a[k..k + n] == b[k..k + n]
  {
    assert a[k..k + n] == a[k..][..n] && b[k..k + n] == b[k..][..n];
  }

  lemma FrontOf(m: seq<char>, t: seq<char>, p: nat, q: nat, e: nat)
    requires p <= q <= e <= |t| == |m| && t[..q] == m[..q]
    ensures t[p..e] == m[p..q] + t[q..e] && t[..p] == m[..p]
  {
    forall k | 0 <= k < q ensures t[k] == m[k] { assert t[..q][k] == m[..q][k]; }
  }

  // Names for the pieces of memory and text, so that each lemma looks into one of them only.
  function After(s: string, k: nat): (r: string)
    requires k <= |s|
    ensures |r| == |s| - k
  {
    s[k..]
  }

  function Piece(m: seq<char>, a: nat, b: nat): (r: seq<char>)
    requires a <= b <= |m|
    ensures |r| == b - a
  {
    m[a..b]
  }

  lemma SuffixAfter(m: seq<char>, p: nat, k: nat)
    requires Str(m, p) && k <= Len(m, p) && k <= |Text(m, p)|
    ensures Str(m, p + k) && Len(m, p + k) == Len(m, p) - k && Text(m, p + k) == After(Text(m, p), k)
  {
    Suffix(m, p, k);
  }

  // A terminated stretch of bytes reads the same wherever it stands.
  lemma SameString(m: seq<char>, p: nat, t: seq<char>, e: nat)
    requires Str(m, p) && e + Len(m, p) < |t| && t[e..e + Len(m, p) + 1] == m[p..p + Len(m, p) + 1]
    ensures Str(t, e) && Text(t, e) == Text(m, p)
  {
    var n := Len(m, p);
    assert t[e..e + n] == t[e..e + n + 1][..n] == m[p..p + n + 1][..n] == m[p..p + n];
    assert t[e + n] == t[e..e + n + 1][n] == m[p + n];
    NoNul(m, p);
    LenIs(t, e, n);
  }

  lemma SamePiece(m: seq<char>, p: nat, t: seq<char>, e: nat, n: nat)
    requires Str(m, p) && Len(m, p) == n && p + n + 1 <= |m| && e + n + 1 <= |t|
    requires Piece(t, e, e + n + 1) == Piece(m, p, p + n + 1)
    ensures Str(t, e) && Text(t, e) == Text(m, p)
  {
    hide Str, Len, Text;
    SameString(m, p, t, e);
  }

  // Between two turns of replace_substr's loop: done is what precedes p, no more of it will
  // change, and the rest of the text is replaced as if it stood alone.
  ghost predicate Turning(m: seq<char>, m0: seq<char>, str: nat, p: nat, done: string, oldSub: string, newSub: string) {
    && oldSub != [] && |m| == |m0| && p == str + |done| && p < |m| && m[..str] == m0[..str] && m[str..p] == done
    && '\0' !in done && Str(m, p) && Str(m0, str)
    && done + ReplaceAll(Text(m, p), oldSub, newSub) == ReplaceAll(Text(m0, str), oldSub, newSub)
    && p + |ReplaceAll(Text(m, p), oldSub, newSub)| < |m|
  }

  // What strstr told the loop, and how much text is left.
  ghost predicate Looked(m: seq<char>, p: nat, oldSub: string, r: Option<nat>, left: nat) {
    && Str(m, p) && left == Len(m, p)
    && r == match Find(Text(m, p), oldSub) case None => None case Some(i) => Some(p + i)
  }

  lemma LookedNow(m: seq<char>, p: nat, oldSub: string, r: Option<nat>, left: nat)
    requires Str(m, p) && left == Len(m, p)
    requires r == match Find(Text(m, p), oldSub) case None => None case Some(i) => Some(p + i)
    ensures Looked(m, p, oldSub, r, left)
  {}

  lemma NotFound(m: seq<char>, p: nat, oldSub: string, r: Option<nat>, left: nat)
    requires Looked(m, p, oldSub, r, left) && r.None?
    ensures Str(m, p) && Find(Text(m, p), oldSub) == None
  {}

  lemma TurnAt(m: seq<char>, p: nat, oldSub: string, r: Option<nat>, left: nat) returns (i: nat)
    requires Looked(m, p, oldSub, r, left) && r.Some?
    ensures Str(m, p) && Find(Text(m, p), oldSub) == Some(i) && r.value == p + i
    ensures left == Len(m, p) && |Text(m, p)| == left
  {
    i := r.value - p;
  }

  lemma LookAgain(m: seq<char>, m0: seq<char>, str: nat, p: nat, done: string, oldSub: string, newSub: string)
    requires Turning(m, m0, str, p, done, oldSub, newSub)
    ensures Str(m, p) && p < |m|
  {}

  lemma TurnStarts(m: seq<char>, str: nat, oldSub: string, newSub: string)
    requires Str(m, str) && oldSub != [] && str + |ReplaceAll(Text(m, str), oldSub, newSub)| < |m|
    ensures Turning(m, m, str, str, [], oldSub, newSub)
  {
    assert m[str..str] == [];
  }

  function Grown(done: string, s: string, i: nat, newSub: string): (r: string)
    requires i <= |s|
    ensures |r| == |done| + i + |newSub|
  {
    done + s[..i] + newSub
  }

  lemma TurnParts(m: seq<char>, m0: seq<char>, str: nat, p: nat, done: string, oldSub: string, newSub: string)
    requires Turning(m, m0, str, p, done, oldSub, newSub)
    ensures oldSub != [] && |m| == |m0| && p == str + |done| && p < |m| && str <= |m0|
    ensures Piece(m, 0, str) == Piece(m0, 0, str) && Piece(m, str, p) == done
    ensures '\0' !in done && Str(m, p) && Str(m0, str)
    ensures done + ReplaceAll(Text(m, p), oldSub, newSub) == ReplaceAll(Text(m0, str), oldSub, newSub)
    ensures p + |ReplaceAll(Text(m, p), oldSub, newSub)| < |m|
  {
    assert m[..str] == m[0..str] && m0[..str] == m0[0..str];
  }

  lemma TurnMade(m: seq<char>, m0: seq<char>, str: nat, p: nat, done: string, oldSub: string, newSub: string)
    requires oldSub != [] && |m| == |m0| && p == str + |done| && p < |m|
    requires Piece(m, 0, str) == Piece(m0, 0, str) && Piece(m, str, p) == done
    requires '\0' !in done && Str(m, p) && Str(m0, str)
    requires done + ReplaceAll(Text(m, p), oldSub, newSub) == ReplaceAll(Text(m0, str), oldSub, newSub)
    requires p + |ReplaceAll(Text(m, p), oldSub, newSub)| < |m|
    ensures Turning(m, m0, str, p, done, oldSub, newSub)
  {
    assert m[..str] == m[0..str] && m0[..str] == m0[0..str];
  }

  lemma GrownPiece(m: seq<char>, t: seq<char>, str: nat, p: nat, e: nat, done: string, s: string, i: nat,
                   newSub: string)
    requires str <= p <= e <= |t| == |m| && t[..p] == m[..p] && m[str..p] == done
    requires i <= |s| && t[p..e] == s[..i] + newSub
    requires '\0' !in done && '\0' !in s && '\0' !in newSub
    ensures Piece(t, 0, str) == Piece(m, 0, str) && Piece(t, str, e) == Grown(done, s, i, newSub)
    ensures '\0' !in Grown(done, s, i, newSub)
  {
    FrontOf(m, t, str, p, e);
    assert done + (s[..i] + newSub) == done + s[..i] + newSub;
    assert m[..str] == m[0..str] && t[..str] == t[0..str];
  }

  lemma GrownThen(done: string, s: string, i: nat, oldLen: nat, newSub: string, rest: string, all: string)
    requires i + oldLen <= |s| && all == s[..i] + newSub + rest
    ensures Grown(done, s, i, newSub) + rest == done + all && |all| == i + |newSub| + |rest|
    ensures After(s, i + oldLen) == s[i + oldLen..]
  {
    assert done + (s[..i] + newSub + rest) == done + s[..i] + newSub + rest;
  }

  // There is room for one more replacement.
  lemma TurnFits(m: seq<char>, m0: seq<char>, str: nat, p: nat, done: string, oldSub: string, newSub: string, i: nat)
    requires Turning(m, m0, str, p, done, oldSub, newSub) && Find(Text(m, p), oldSub) == Some(i)
    ensures i + |oldSub| <= Len(m, p) && Str(m, p + i + |oldSub|) && p + Len(m, p) < |m|
    ensures Len(m, p + i + |oldSub|) == Len(m, p) - i - |oldSub|
    ensures p + i + |newSub| + Len(m, p + i + |oldSub|) < |m|
  {
    hide *;
    TurnParts(m, m0, str, p, done, oldSub, newSub);
    var s := Text(m, p);
    TextIs(m, p);
    FindFits(s, oldSub);
    Suffix(m, p, i + |oldSub|);
    if |newSub| >= |oldSub| {
      ReplaceFrom(s, oldSub, newSub);
      ReplaceLength(s[i + |oldSub|..], oldSub, newSub);
      GrownThen([], s, i, |oldSub|, newSub,
                ReplaceAll(s[i + |oldSub|..], oldSub, newSub), ReplaceAll(s, oldSub, newSub));
    }
  }

  // The result to come is the same before and after a turn.
  lemma TurnResult(m: seq<char>, m0: seq<char>, str: nat, p: nat, done: string, oldSub: string, newSub: string, i: nat)
    requires Turning(m, m0, str, p, done, oldSub, newSub) && Find(Text(m, p), oldSub) == Some(i)
    ensures i + |oldSub| <= |Text(m, p)|
    ensures var s := Text(m, p);
      && Grown(done, s, i, newSub) + ReplaceAll(After(s, i + |oldSub|), oldSub, newSub)
         == ReplaceAll(Text(m0, str), oldSub, newSub)
      && p + i + |newSub| + |ReplaceAll(After(s, i + |oldSub|), oldSub, newSub)| < |m|
  {
    hide *;
    TurnParts(m, m0, str, p, done, oldSub, newSub);
    var s := Text(m, p);
    FindFits(s, oldSub);
    ReplaceFrom(s, oldSub, newSub);
    GrownThen(done, s, i, |oldSub|, newSub,
              ReplaceAll(s[i + |oldSub|..], oldSub, newSub), ReplaceAll(s, oldSub, newSub));
  }

  // A text whose front was checked and whose tail is a string is a string.
  lemma Joined(m: seq<char>, str: nat, p: nat, done: string)
    requires str <= p <= |m| && Str(m, p) && m[str..p] == done && '\0' !in done
    ensures Str(m, str) && Text(m, str) == done + Text(m, p)
  {
    var n := Len(m, p);
    NoNul(m, p);
    assert m[str..p + n] == m[str..p] + m[p..p + n];
    LenIs(m, str, p - str + n);
  }

  lemma TurnEnds(m: seq<char>, m0: seq<char>, str: nat, p: nat, done: string, oldSub: string, newSub: string)
    requires Turning(m, m0, str, p, done, oldSub, newSub) && Find(Text(m, p), oldSub) == None
    ensures Str(m, str) && Text(m, str) == ReplaceAll(Text(m0, str), oldSub, newSub) && m[..str] == m0[..str]
  {
    ReplaceFrom(Text(m, p), oldSub, newSub);
    Joined(m, str, p, done);
  }

  function Moved(m: seq<char>, d: nat, s: nat, n: nat): (t: seq<char>)
    requires d + n <= |m| && s + n <= |m|
    ensures |t| == |m|
  {
    m[..d] + m[s..s + n] + m[d + n..]
  }

  lemma MovedSlices(m: seq<char>, d: nat, s: nat, n: nat)
    requires d + n <= |m| && s + n <= |m|
    ensures var t := Moved(m, d, s, n); |t| == |m| && t[..d] == m[..d] && t[d..d + n] == m[s..s + n]
  {}

  lemma MovedText(t: seq<char>, d: nat, p: nat)
    requires Str(t, p) && d <= p && p + Len(t, p) < |t|
    ensures var u := Moved(t, d, p, Len(t, p) + 1); Str(u, d) && Text(u, d) == Text(t, p) && u[..d] == t[..d]
  {
    var n := Len(t, p) + 1;
    MovedSlices(t, d, p, n);
    SameString(t, p, Moved(t, d, p, n), d);
  }

  // memmove is skipped when old and new are equally long: it would move nothing.
  lemma SpliceSame(m: seq<char>, q: nat, oldLen: nat, tail: nat)
    requires q + oldLen + tail + 1 <= |m|
    ensures Moved(m, q + oldLen, q + oldLen, tail + 1) == m
  {}

  function Written(m: seq<char>, d: nat, src: seq<char>): (t: seq<char>)
    requires d + |src| <= |m|
    ensures |t| == |m|
  {
    m[..d] + src + m[d + |src|..]
  }

  // One turn of replace_substr on memory m: the text at p has old at i; its tail moves to end
  // right behind the place of new, which is then written.
  function Splice(m: seq<char>, q: nat, oldLen: nat, newSub: string, tail: nat): seq<char>
    requires q + oldLen + tail + 1 <= |m| && q + |newSub| + tail + 1 <= |m|
  {
    Written(Moved(m, q + |newSub|, q + oldLen, tail + 1), q, newSub)
  }

  lemma WrittenSlices(m: seq<char>, d: nat, src: seq<char>)
    requires d + |src| <= |m|
    ensures var t := Written(m, d, src);
      |t| == |m| && t[..d] == m[..d] && t[d..d + |src|] == src && t[d + |src|..] == m[d + |src|..]
  {}

  lemma SpliceSlices(m: seq<char>, q: nat, oldLen: nat, newSub: string, tail: nat)
    requires q + oldLen + tail + 1 <= |m| && q + |newSub| + tail + 1 <= |m|
    ensures var t, e := Splice(m, q, oldLen, newSub, tail), q + |newSub|;
      && |t| == |m| && t[..q] == m[..q] && t[q..e] == newSub
      && t[e..e + tail + 1] == m[q + oldLen..q + oldLen + tail + 1]
  {
    hide Moved, Written;
    var e := q + |newSub|;
    var m1 := Moved(m, e, q + oldLen, tail + 1);
    MovedSlices(m, e, q + oldLen, tail + 1);
    WrittenSlices(m1, q, newSub);
    var t := Written(m1, q, newSub);
    assert t[e..e + tail + 1] == m1[e..e + tail + 1] by { SameSlice(t, m1, e, tail + 1); }
    assert m1[..q] == m1[..e][..q] == m[..e][..q] == m[..q];
  }

  lemma SpliceFront(m: seq<char>, p: nat, i: nat, oldLen: nat, newSub: string, tail: nat)
    requires Str(m, p) && i + oldLen + tail == Len(m, p)
    requires p + i + oldLen + tail < |m| && p + i + |newSub| + tail < |m|
    ensures var t := Splice(m, p + i, oldLen, newSub, tail);
      |t| == |m| && t[..p] == m[..p] && t[p..p + i + |newSub|] == Text(m, p)[..i] + newSub
  {
    var q := p + i;
    SpliceSlices(m, q, oldLen, newSub, tail);
    assert m[p..q] == Text(m, p)[..i];
    hide *;
    FrontOf(m, Splice(m, q, oldLen, newSub, tail), p, q, q + |newSub|);
  }

  lemma SplicePiece(m: seq<char>, q: nat, oldLen: nat, newSub: string, tail: nat)
    requires q + oldLen + tail + 1 <= |m| && q + |newSub| + tail + 1 <= |m|
    ensures var t, e := Splice(m, q, oldLen, newSub, tail), q + |newSub|;
      |t| == |m| && Piece(t, e, e + tail + 1) == Piece(m, q + oldLen, q + oldLen + tail + 1)
  {
    hide Splice;
    SpliceSlices(m, q, oldLen, newSub, tail);
  }

  lemma SpliceBack(m: seq<char>, p: nat, i: nat, oldLen: nat, newSub: string, tail: nat)
    requires Str(m, p) && i + oldLen + tail == Len(m, p) && i + oldLen <= |Text(m, p)|
    requires p + i + oldLen + tail < |m| && p + i + |newSub| + tail < |m|
    ensures var t, e := Splice(m, p + i, oldLen, newSub, tail), p + i + |newSub|;
      |t| == |m| && Str(t, e) && Text(t, e) == After(Text(m, p), i + oldLen)
  {
    hide *;
    SuffixAfter(m, p, i + oldLen);
    SplicePiece(m, p + i, oldLen, newSub, tail);
    SamePiece(m, p + i + oldLen, Splice(m, p + i, oldLen, newSub, tail), p + i + |newSub|, tail);
  }

  // The text at p had old at i; behind new, the rest of the text stands as it was.
  lemma SpliceIs(m: seq<char>, p: nat, i: nat, oldLen: nat, newSub: string, tail: nat)
    requires Str(m, p) && i + oldLen + tail == Len(m, p)
    requires p + i + oldLen + tail < |m| && p + i + |newSub| + tail < |m|
    ensures var t := Splice(m, p + i, oldLen, newSub, tail);
      && |t| == |m| && t[..p] == m[..p] && t[p..p + i + |newSub|] == Text(m, p)[..i] + newSub
      && Str(t, p + i + |newSub|) && Text(t, p + i + |newSub|) == Text(m, p)[i + oldLen..]
  {
    TextIs(m, p);
    hide Str, Len, Text, Splice;
    SpliceFront(m, p, i, oldLen, newSub, tail);
    SpliceBack(m, p, i, oldLen, newSub, tail);
  }

  // The memory after a turn: what precedes p has grown by the text up to the match and by new.
  lemma TurnSplices(m: seq<char>, str: nat, p: nat, done: string, i: nat, oldLen: nat, newSub: string, tail: nat)
    requires str <= p <= |m| && Str(m, p) && i + oldLen + tail == Len(m, p)
    requires p == str + |done| && Piece(m, str, p) == done
    requires p + i + oldLen + tail < |m| && p + i + |newSub| + tail < |m| && '\0' !in done && '\0' !in newSub
    requires |Text(m, p)| == Len(m, p)
    ensures var t, e := Splice(m, p + i, oldLen, newSub, tail), p + i + |newSub|;
      && |t| == |m| && Piece(t, 0, str) == Piece(m, 0, str) && Piece(t, str, e) == Grown(done, Text(m, p), i, newSub)
      && '\0' !in Grown(done, Text(m, p), i, newSub)
      && Str(t, e) && Text(t, e) == After(Text(m, p), i + oldLen) && Len(t, e) == tail
  {
    var s, t, e := Text(m, p), Splice(m, p + i, oldLen, newSub, tail), p + i + |newSub|;
    hide Str, Len, Text, Splice;
    SpliceIs(m, p, i, oldLen, newSub, tail);
    NoNul(m, p);
    TextIs(t, e);
    GrownPiece(m, t, str, p, e, done, s, i, newSub);
  }

  lemma TurnKeeps(m: seq<char>, m0: seq<char>, str: nat, p: nat, done: string, oldSub: string, newSub: string,
                  i: nat, tail: nat)
    requires Turning(m, m0, str, p, done, oldSub, newSub) && Find(Text(m, p), oldSub) == Some(i) && '\0' !in newSub
    requires i + |oldSub| + tail == Len(m, p) && p + i + |oldSub| + tail < |m| && p + i + |newSub| + tail < |m|
    requires i <= |Text(m, p)|
    ensures var t, e := Splice(m, p + i, |oldSub|, newSub, tail), p + i + |newSub|;
      && Turning(t, m0, str, e, Grown(done, Text(m, p), i, newSub), oldSub, newSub)
      && Len(t, e) < Len(m, p)
  {
    hide *;
    TextIs(m, p);
    TurnParts(m, m0, str, p, done, oldSub, newSub);
    TurnSplices(m, str, p, done, i, |oldSub|, newSub, tail);
    TurnResult(m, m0, str, p, done, oldSub, newSub, i);
    TurnMade(Splice(m, p + i, |oldSub|, newSub, tail), m0, str, p + i + |newSub|,
             Grown(done, Text(m, p), i, newSub), oldSub, newSub);
  }

  // Bytes lo to hi - 1 of the region have been moved.
  ghost predicate PartMoved(now: seq<char>, m: seq<char>, d: nat, s: nat, lo: nat, hi: nat)
    requires d + hi <= |m| && s + hi <= |m|
  {
    |now| == |m| && forall k {:trigger now[k]} :: 0 <= k < |m| ==>
      now[k] == if d + lo <= k < d + hi then m[s + k - d] else m[k]
  }

  lemma AllMoved(now: seq<char>, m: seq<char>, d: nat, s: nat, n: nat)
    requires d + n <= |m| && s + n <= |m| && PartMoved(now, m, d, s, 0, n)
    ensures now == Moved(m, d, s, n)
  {}

  ghost predicate Copied(now: seq<char>, m: seq<char>, d: nat, src: seq<char>, i: nat)
    requires d + |src| <= |m| && i <= |src|
  {
    |now| == |m| && forall k :: 0 <= k < |m| ==> now[k] == if d <= k < d + i then src[k - d] else m[k]
  }

  lemma CopiedNone(m: seq<char>, d: nat, src: seq<char>)
    requires d + |src| <= |m|
    ensures Copied(m, m, d, src, 0)
  {
  }

  lemma CopiedAll(now: seq<char>, m: seq<char>, d: nat, src: seq<char>)
    requires d + |src| <= |m| && Copied(now, m, d, src, |src|)
    ensures now == Written(m, d, src)
  {
  }

  predicate Agree(s: string, t: string, i: nat, j: nat) { i + j <= |s| && j <= |t| && s[i..i + j] == t[..j] }

  // The text agrees with the needle for j characters, and then perhaps no longer.
  lemma Compared(s: string, t: string, i: nat, j: nat)
    requires i <= |s|
    ensures Agree(s, t, i, 0)
    ensures Agree(s, t, i, j) ==> (j == |t| ==> MatchAt(s, t, i))
    ensures Agree(s, t, i, j) && j < |t| && i + j < |s| ==> (Agree(s, t, i, j + 1) <==> s[i + j] == t[j])
    ensures Agree(s, t, i, j) && j < |t| && (i + j == |s| || s[i + j] != t[j]) ==> !MatchAt(s, t, i)
  {
    if Agree(s, t, i, j) && j < |t| && i + j < |s| {
      assert s[i..i + j + 1] == s[i..i + j] + [s[i + j]];
      assert t[..j + 1] == t[..j] + [t[j]];
      assert MatchAt(s, t, i) ==> s[i..i + |t|][j] == s[i + j];
    }
  }

  lemma FirstMatch(s: string, t: string, i: nat)
    requires (t == [] && i == 0) || MatchAt(s, t, i)
    requires forall k :: 0 <= k < i ==> !MatchAt(s, t, k)
    ensures Find(s, t) == Some(i)
  {
    assert t == [] ==> MatchAt(s, t, 0);
  }

  // The text ran out while it still agreed with the needle: no later match fits.
  lemma NoMatch(s: string, t: string, i: nat)
    requires i <= |s| && |s| - i < |t| && forall k :: 0 <= k < i ==> !MatchAt(s, t, k)
    ensures Find(s, t) == None
  {}

  class Memory {
    const mem: array<char>

    constructor (mem: array<char>)
      ensures this.mem == mem
    {
      this.mem := mem;
    }

    method StrLen(s: nat) returns (n: nat)
      requires Str(mem[..], s)
      ensures n == Len(mem[..], s)
    {
      ghost var m := mem[..];
      TextIs(m, s);
      hide Str, Len, Text;
      n := 0;
      CharAt(m, s, 0);
      while mem[s + n] != '\0'
        invariant n <= Len(m, s) && (mem[s + n] == '\0' <==> n == Len(m, s))
        decreases Len(m, s) - n
      {
        n := n + 1;
        CharAt(m, s, n);
      }
    }

    // strstr's inner loop: how far the text from h + i on agrees with the needle.
    method Compare(h: nat, i: nat, needle: string) returns (j: nat)
      requires Str(mem[..], h) && '\0' !in needle && i <= Len(mem[..], h)
      ensures j <= |needle| && i + j <= Len(mem[..], h)
      ensures j == |needle| <==> MatchAt(Text(mem[..], h), needle, i)
    {
      ghost var m, s := mem[..], Text(mem[..], h);
      TextIs(m, h);
      CharAt(m, h, i);
      Compared(s, needle, i, 0);
      hide Str, Len, Text, MatchAt, Agree;
      j := 0;
      while j < |needle| && mem[h + i + j] != '\0' && mem[h + i + j] == needle[j]
        invariant j <= |needle| && i + j <= |s| && Agree(s, needle, i, j)
        decreases |needle| - j
      {
        CharAt(m, h, i + j);
        Compared(s, needle, i, j);
        j := j + 1;
      }
      CharAt(m, h, i + j);
      Compared(s, needle, i, j);
    }

    // The early break when the text runs out loses no match.
    method StrStr(h: nat, needle: string) returns (r: Option<nat>)
      requires Str(mem[..], h) && '\0' !in needle
      ensures r == match Find(Text(mem[..], h), needle) case None => None case Some(i) => Some(h + i)
    {
      ghost var m, s := mem[..], Text(mem[..], h);
      TextIs(m, h);
      hide Str, Len, Text, MatchAt, Agree, Find;
      if needle == [] {
        FirstMatch(s, needle, 0);
        return Some(h);
      }
      var i := 0;
      while mem[h + i] != '\0'
        invariant i <= |s| && forall k :: 0 <= k < i ==> !MatchAt(s, needle, k)
        decreases |s| - i
      {
        CharAt(m, h, i);
        var j := Compare(h, i, needle);
        if j == |needle| {
          FirstMatch(s, needle, i);
          return Some(h + i);
        }
        CharAt(m, h, i + j);
        if mem[h + i + j] == '\0' {
          NoMatch(s, needle, i);
          break;
        }
        i := i + 1;
      }
      CharAt(m, h, i);
      NoMatch(s, needle, i);
      r := None;
    }

    // The loop body of replace_substr: the text behind old at q moves, and new takes its place.
    method ReplaceAt(q: nat, oldLen: nat, newSub: string, tailLen: nat, align: nat)
      requires q + oldLen + tailLen < mem.Length && q + |newSub| + tailLen < mem.Length
      modifies mem
      ensures mem[..] == Splice(old(mem[..]), q, oldLen, newSub, tailLen)
    {
      hide Moved, Written;
      var newLen := |newSub|;
      if newLen > oldLen {
        MemMove(q + newLen, q + oldLen, tailLen + 1);
      } else if newLen < oldLen {
        MemMove(q + newLen, q + oldLen, tailLen + 1);
      } else {
        SpliceSame(mem[..], q, oldLen, tailLen);
      }
      MemCpy(q, newSub, align + q, 0);
    }

    // In place, as long as the result fits the buffer, even if new contains old.
    method ReplaceSubstr(str: nat, oldSub: string, newSub: string, align: nat)
      requires Str(mem[..], str) && '\0' !in oldSub && '\0' !in newSub
      requires oldSub != [] ==> str + |ReplaceAll(Text(mem[..], str), oldSub, newSub)| < mem.Length
      modifies mem
      ensures Str(mem[..], str) && mem[..str] == old(mem[..str])
      ensures Text(mem[..], str)
        == if oldSub == [] then old(Text(mem[..], str)) else ReplaceAll(old(Text(mem[..], str)), oldSub, newSub)
    {
      hide *;
      if oldSub == [] {
        return;
      }
      ghost var m0 := mem[..];
      ghost var done: string := [];
      TurnStarts(m0, str, oldSub, newSub);
      ghost var left := Len(m0, str);
      var p: nat := str;
      var r := StrStr(p, oldSub);
      LookedNow(m0, p, oldSub, r, left);
      while r.Some?
        invariant Turning(mem[..], m0, str, p, done, oldSub, newSub) && Looked(mem[..], p, oldSub, r, left)
        decreases left
      {
        ghost var m := mem[..];
        ghost var i := TurnAt(m, p, oldSub, r, left);
        TurnFits(m, m0, str, p, done, oldSub, newSub, i);
        var q: nat := r.value;
        var tailLen := StrLen(q + |oldSub|);
        TurnKeeps(m, m0, str, p, done, oldSub, newSub, i, tailLen);
        ReplaceAt(q, |oldSub|, newSub, tailLen, align);
        done := Grown(done, Text(m, p), i, newSub);
        p := q + |newSub|;
        LookAgain(mem[..], m0, str, p, done, oldSub, newSub);
        left := Len(mem[..], p);
        r := StrStr(p, oldSub);
        LookedNow(mem[..], p, oldSub, r, left);
      }
      NotFound(mem[..], p, oldSub, r, left);
      TurnEnds(mem[..], m0, str, p, done, oldSub, newSub);
    }

    // trim_inplace: the trailing white space is cut off, then the rest moves over the leading one.
    method Trim(str: nat)
      requires Str(mem[..], str)
      modifies mem
      ensures Str(mem[..], str) && Text(mem[..], str) == Trimmed(old(Text(mem[..], str)))
      ensures mem[..str] == old(mem[..str])
    {
      TextIs(mem[..], str);
      hide *;
      if mem[str] == '\0' {
        TrimNothing(mem[..], str);
        return;
      }
      TrimmedIs(Text(mem[..], str));
      TrimEnd(str);
      TrimStart(str);
    }

    method TrimEnd(str: nat)
      requires Str(mem[..], str)
      modifies mem
      ensures Str(mem[..], str) && Text(mem[..], str) == TrimBack(old(Text(mem[..], str)))
      ensures mem[..str] == old(mem[..str])
    {
      ghost var m, s := mem[..], Text(mem[..], str);
      TextIs(m, str);
      var len: nat := StrLen(str);
      BackWhole(s);
      hide *;
      while len > 0 && White(mem[str + len - 1])
        invariant len <= |s| && BackOf(s, len) == TrimBack(s) && mem[..] == m
        decreases len
      {
        CharAt(m, str, len - 1);
        BackStep(s, len);
        len := len - 1;
      }
      if len > 0 { CharAt(m, str, len - 1); }
      BackEnd(s, len);
      mem[str + len] := '\0';
      Truncated(m, mem[..], str, len);
    }

    method SkipWhite(str: nat) returns (start: nat)
      requires Str(mem[..], str)
      ensures str <= start && Str(mem[..], start) && start + Len(mem[..], start) < mem.Length
      ensures Text(mem[..], start) == TrimFront(Text(mem[..], str))
    {
      ghost var t := mem[..];
      start := str;
      TextIs(t, str);
      hide *;
      while mem[start] != '\0' && White(mem[start])
        invariant str <= start && Str(t, start) && start + Len(t, start) == str + Len(t, str)
        invariant TrimFront(Text(t, start)) == TrimFront(Text(t, str))
        decreases Len(t, start)
      {
        FrontStep(t, start);
        start := start + 1;
      }
      FrontEnd(t, start);
    }

    method TrimStart(str: nat)
      requires Str(mem[..], str)
      modifies mem
      ensures Str(mem[..], str) && Text(mem[..], str) == TrimFront(old(Text(mem[..], str)))
      ensures mem[..str] == old(mem[..str])
    {
      ghost var t := mem[..];
      TextIs(t, str);
      hide *;
      assert mem[..str] == t[..str];
      var start := SkipWhite(str);
      if start != str {
        var rest := StrLen(start);
        MovedText(t, str, start);
        MemMove(str, start, rest + 1);
        assert mem[..str] == mem[..][..str];
      }
    }

    // Regions may overlap: the order of copying saves every byte before it is overwritten.
    method MemMove(d: nat, s: nat, n: nat)
      requires d + n <= mem.Length && s + n <= mem.Length
      modifies mem
      ensures mem[..] == Moved(old(mem[..]), d, s, n)
    {
      ghost var m := mem[..];
      if d < s {
        var i := 0;
        while i < n
          invariant 0 <= i <= n
          invariant PartMoved(mem[..], m, d, s, 0, i)
        {
          assert mem[..][s + i] == m[s + i];
          mem[d + i] := mem[s + i];
          i := i + 1;
        }
        AllMoved(mem[..], m, d, s, n);
      } else if d > s {
        var i := n;
        while i > 0
          invariant 0 <= i <= n
          invariant PartMoved(mem[..], m, d, s, i, n)
        {
          assert mem[..][s + i - 1] == m[s + i - 1];
          mem[d + i - 1] := mem[s + i - 1];
          i := i - 1;
        }
        AllMoved(mem[..], m, d, s, n);
      } else {
        assert m == Moved(m, d, s, n);
      }
    }

    // dstAlign and srcAlign are the addresses modulo 4: bytes up to a word boundary, then words,
    // then the remaining bytes.
    method MemCpy(d: nat, src: seq<char>, dstAlign: nat, srcAlign: nat)
      requires d + |src| <= mem.Length
      modifies mem
      ensures mem[..] == Written(old(mem[..]), d, src)
    {
      hide Copied;
      ghost var m := mem[..];
      CopiedNone(m, d, src);
      var i, n := 0, |src|;
      if srcAlign % 4 != dstAlign % 4 {
        while i < n
          invariant 0 <= i <= n && Copied(mem[..], m, d, src, i)
        {
          i := CopyByte(d, src, i, m);
        }
        CopiedAll(mem[..], m, d, src);
        return;
      }
      while (dstAlign + i) % 4 != 0 && i < n
        invariant 0 <= i <= n && Copied(mem[..], m, d, src, i)
        decreases n - i
      {
        i := CopyByte(d, src, i, m);
      }
      while i + 4 <= n
        invariant 0 <= i <= n && Copied(mem[..], m, d, src, i)
      {
        i := CopyWord(d, src, i, m);
      }
      while i < n
        invariant 0 <= i <= n && Copied(mem[..], m, d, src, i)
      {
        i := CopyByte(d, src, i, m);
      }
      CopiedAll(mem[..], m, d, src);
    }

    // *dst++ = *src++, a byte and a word of four.
    method CopyByte(d: nat, src: seq<char>, i: nat, ghost m: seq<char>) returns (next: nat)
      requires d + |src| <= mem.Length && |m| == mem.Length && i < |src| && Copied(mem[..], m, d, src, i)
      modifies mem
      ensures next == i + 1 && Copied(mem[..], m, d, src, next)
    {
      mem[d + i] := src[i];
      next := i + 1;
    }

    method CopyWord(d: nat, src: seq<char>, i: nat, ghost m: seq<char>) returns (next: nat)
      requires d + |src| <= mem.Length && |m| == mem.Length && i + 4 <= |src| && Copied(mem[..], m, d, src, i)
      modifies mem
      ensures next == i + 4 && Copied(mem[..], m, d, src, next)
    {
      mem[d + i], mem[d + i + 1], mem[d + i + 2], mem[d + i + 3] := src[i], src[i + 1], src[i + 2], src[i + 3];
      next := i + 4;
    }
  }
}
