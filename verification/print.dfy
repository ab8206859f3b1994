// Number formatting (lib/print.c): print_num writes the digits backwards into a buffer, pads it,
// moves the sign, and reverses it in place.
module Print {
  import opened Common

  predicate Base(b: nat) { b == 2 || b == 8 || b == 10 || b == 16 }

  // 'a' + d - 10, and so on.
  function Digit(d: nat, up: bool): char
    requires d < 16
  {
    if d <= 9 then '0' + d as char else if up then 'A' + (d - 10) as char else 'a' + (d - 10) as char
  }

  function DigitVal(c: char): Option<nat> {
    if '0' <= c <= '9' then Some((c - '0') as nat)
    else if 'a' <= c <= 'f' then Some((c - 'a') as nat + 10)
    else if 'A' <= c <= 'F' then Some((c - 'A') as nat + 10)
    else None
  }

  // The digits of u, most significant first.
  function Digits(u: nat, base: nat, up: bool): string
    requires Base(base)
  {
    (if u < base then [] else Digits(u / base, base, up)) + [Digit(u % base, up)]
  }

  // The order in which print_num's first loop produces them.
  function Backwards(u: nat, base: nat, up: bool): string
    requires Base(base)
  {
    [Digit(u % base, up)] + (if u < base then [] else Backwards(u / base, base, up))
  }

  function Fill(c: char, n: nat): (s: string)
    ensures |s| == n && forall i :: 0 <= i < n ==> s[i] == c
  {
    seq(n, i => c)
  }

  function Max(a: nat, b: nat): nat { if a < b then b else a }

  // What is printed, by the documentation of the flags.
  function Format(u: nat, base: nat, neg: bool, width: nat, ladjust: bool, padc: char, up: bool): string
    requires Base(base)
  {
    var digits, sign := Digits(u, base, up), if neg then "-" else "";
    var n := |sign| + |digits|;
    var pad := Max(width, n) - n;
    if ladjust then sign + digits + Fill(' ', pad)
    else if padc == '0' then sign + Fill('0', pad) + digits
    else Fill(padc, pad) + sign + digits
  }

  // Reading a number back: blanks around it are dropped.
  predicate IsDigits(s: string, base: nat) {
    s != [] && forall i :: 0 <= i < |s| ==> DigitVal(s[i]).Some? && DigitVal(s[i]).value < base
  }

  function Value(s: string, base: nat): nat
  {
    if s == [] then 0
    else Value(s[..|s| - 1], base) * base + (match DigitVal(s[|s| - 1]) case Some(d) => d case None => 0)
  }

  function DropFront(s: string): string { if s != [] && s[0] == ' ' then DropFront(s[1..]) else s }

  function DropBack(s: string): string
  {
    if s != [] && s[|s| - 1] == ' ' then DropBack(s[..|s| - 1]) else s
  }

  function Signed(neg: bool, v: int): int { if neg then -v else v }

  function Read(s: string, base: nat): Option<int> {
    var t := DropBack(DropFront(s));
    if IsDigits(t, base) then Some(Signed(false, Value(t, base)))
    else if t != [] && t[0] == '-' && IsDigits(t[1..], base) then Some(Signed(true, Value(t[1..], base)))
    else None
  }

  lemma DivBase(u: nat, base: nat)
    requires Base(base)
    ensures u / base * base + u % base == u && u % base < base <= 16
    ensures u >= base ==> 0 < u / base < u
  {
    if base == 2 {} else if base == 8 {} else if base == 10 {} else {}
  }

  lemma DigitReads(d: nat, up: bool)
    requires d < 16
    ensures DigitVal(Digit(d, up)) == Some(d)
  {}

  lemma Snoc(s: string, c: char, base: nat)
    requires DigitVal(c).Some? && DigitVal(c).value < base && (s == [] || IsDigits(s, base))
    ensures IsDigits(s + [c], base) && Value(s + [c], base) == Value(s, base) * base + DigitVal(c).value
  {
    assert (s + [c])[..|s|] == s;
  }

  lemma ZeroDigit(d: nat, up: bool)
    requires d < 16
    ensures Digit(d, up) == '0' <==> d == 0
  {}

  lemma SmallMod(u: nat, base: nat)
    requires Base(base) && u < base
    ensures u % base == u && u < 16
  {
    if base == 2 {} else if base == 8 {} else if base == 10 {} else {}
  }

  lemma DigitsFirst(u: nat, base: nat, up: bool)
    requires Base(base) && u < base
    ensures Digits(u, base, up) == [Digit(u, up)]
  {
    SmallMod(u, base);
    hide Digit;
    assert [] + [Digit(u, up)] == [Digit(u, up)];
  }

  lemma DigitsNext(u: nat, base: nat, up: bool)
    requires Base(base) && u >= base
    ensures Digits(u, base, up) == Digits(u / base, base, up) + [Digit(u % base, up)]
  {
    hide Digit;
  }

  // One more digit.
  lemma Worth(s: string, c: char, q: nat, u: nat, base: nat)
    requires Base(base) && IsDigits(s, base) && Value(s, base) == q && q == u / base && DigitVal(c) == Some(u % base)
    ensures IsDigits(s + [c], base) && Value(s + [c], base) == u
  {
    hide Value, DigitVal;
    DivBase(u, base);
    Snoc(s, c, base);
  }

  lemma OneDigit(c: char, base: nat)
    requires DigitVal(c).Some? && DigitVal(c).value < base
    ensures IsDigits([c], base) && Value([c], base) == DigitVal(c).value
  {
    Snoc([], c, base);
    assert [] + [c] == [c];
  }

  lemma DigitsSmall(u: nat, base: nat, up: bool)
    requires Base(base) && u < base
    ensures IsDigits(Digits(u, base, up), base) && Value(Digits(u, base, up), base) == u
  {
    SmallMod(u, base);
    DigitReads(u, up);
    DigitsFirst(u, base, up);
    hide Value, Digits, IsDigits, DigitVal, Digit, Base;
    OneDigit(Digit(u, up), base);
  }

  lemma DigitsLarge(u: nat, base: nat, up: bool)
    requires Base(base) && u >= base
    requires IsDigits(Digits(u / base, base, up), base) && Value(Digits(u / base, base, up), base) == u / base
    ensures IsDigits(Digits(u, base, up), base) && Value(Digits(u, base, up), base) == u
  {
    DivBase(u, base);
    DigitReads(u % base, up);
    DigitsNext(u, base, up);
    hide Value, Digits, IsDigits, DigitVal, Digit;
    Worth(Digits(u / base, base, up), Digit(u % base, up), u / base, u, base);
  }

  lemma {:induction false} DigitsWorth(u: nat, base: nat, up: bool)
    requires Base(base)
    ensures IsDigits(Digits(u, base, up), base) && Value(Digits(u, base, up), base) == u
  {
    hide Value, Digits, IsDigits;
    if u < base {
      DigitsSmall(u, base, up);
    } else {
      DivBase(u, base);
      DigitsWorth(u / base, base, up);
      DigitsLarge(u, base, up);
    }
  }

  lemma {:induction false} DigitsLead(u: nat, base: nat, up: bool)
    requires Base(base)
    ensures Digits(u, base, up) != [] && (Digits(u, base, up)[0] == '0' <==> u == 0)
  {
    hide Digits, Digit;
    if u < base {
      SmallMod(u, base);
      DigitsFirst(u, base, up);
      ZeroDigit(u, up);
    } else {
      DivBase(u, base);
      DigitsNext(u, base, up);
      DigitsLead(u / base, base, up);
    }
  }

  // The digits are a number, they are worth u, and they start with 0 only for 0.
  lemma DigitsRead(u: nat, base: nat, up: bool)
    requires Base(base)
    ensures var s := Digits(u, base, up); IsDigits(s, base) && Value(s, base) == u && (s[0] == '0' ==> u == 0)
  {
    hide Value, Digits, IsDigits;
    DigitsWorth(u, base, up);
    DigitsLead(u, base, up);
  }

  // %X prints capitals, %x small letters.
  lemma {:induction false} DigitsCase(u: nat, base: nat, up: bool)
    requires Base(base)
    ensures forall c :: c in Digits(u, base, up) ==>
                          '0' <= c <= '9' || (if up then 'A' <= c <= 'F' else 'a' <= c <= 'f')
    decreases u
  {
    if u >= base { DigitsCase(u / base, base, up); }
  }

  lemma {:induction false} AllZeros(n: nat, base: nat)
    ensures Value(Fill('0', n), base) == 0
  {
    if n > 0 {
      assert Fill('0', n)[..n - 1] == Fill('0', n - 1);
      AllZeros(n - 1, base);
    }
  }

  lemma {:induction false} ZerosInFront(n: nat, s: string, base: nat)
    requires IsDigits(s, base)
    ensures IsDigits(Fill('0', n) + s, base) && Value(Fill('0', n) + s, base) == Value(s, base)
    decreases |s|
  {
    var t := Fill('0', n) + s;
    assert t[|t| - 1] == s[|s| - 1];
    assert t[..|t| - 1] == Fill('0', n) + s[..|s| - 1];
    if |s| == 1 {
      AllZeros(n, base);
      assert Fill('0', n) + s[..0] == Fill('0', n);
    } else {
      ZerosInFront(n, s[..|s| - 1], base);
    }
  }

  lemma {:induction false} BlanksInFront(n: nat, s: string)
    requires s != [] && s[0] != ' '
    ensures DropFront(Fill(' ', n) + s) == s
  {
    if n == 0 {
      assert Fill(' ', 0) + s == s;
    } else {
      assert (Fill(' ', n) + s)[1..] == Fill(' ', n - 1) + s;
      BlanksInFront(n - 1, s);
    }
  }

  lemma {:induction false} BlanksBehind(n: nat, s: string)
    requires s != [] && s[|s| - 1] != ' '
    ensures DropBack(s + Fill(' ', n)) == s
  {
    if n == 0 {
      assert s + Fill(' ', 0) == s;
    } else {
      var t := s + Fill(' ', n);
      assert t[..|t| - 1] == s + Fill(' ', n - 1);
      BlanksBehind(n - 1, s);
    }
  }

  lemma NoTail(a: string)
    ensures a + [] == a
  {}

  // Blanks, sign, zeros, digits, blanks.
  function Laid(front: nat, sign: string, zeros: nat, digits: string, back: nat): string {
    Fill(' ', front) + (sign + (Fill('0', zeros) + digits)) + Fill(' ', back)
  }

  lemma LaidLeft(sign: string, digits: string, pad: nat)
    ensures Laid(0, sign, 0, digits, pad) == sign + digits + Fill(' ', pad)
  {
    assert Fill(' ', 0) == [] && Fill('0', 0) == [];
    assert [] + digits == digits && [] + (sign + digits) == sign + digits;
  }

  lemma LaidZeros(sign: string, digits: string, pad: nat)
    ensures Laid(0, sign, pad, digits, 0) == sign + Fill('0', pad) + digits
  {
    assert Fill(' ', 0) == [];
    var body := sign + (Fill('0', pad) + digits);
    assert [] + body == body;
    NoTail(body);
    assert body == sign + Fill('0', pad) + digits;
  }

  lemma LaidRight(sign: string, digits: string, pad: nat)
    ensures Laid(pad, sign, 0, digits, 0) == Fill(' ', pad) + sign + digits
  {
    assert Fill(' ', 0) == [] && Fill('0', 0) == [];
    assert [] + digits == digits;
    NoTail(Fill(' ', pad) + (sign + digits));
    assert Fill(' ', pad) + (sign + digits) == Fill(' ', pad) + sign + digits;
  }

  lemma FormatCases(u: nat, base: nat, neg: bool, width: nat, ladjust: bool, padc: char, up: bool)
    returns (digits: string, sign: string, pad: nat)
    requires Base(base)
    ensures digits == Digits(u, base, up) && sign == (if neg then "-" else "")
    ensures |sign| + |digits| + pad == Max(width, |sign| + |digits|) && |sign| == if neg then 1 else 0
    ensures Format(u, base, neg, width, ladjust, padc, up) ==
            if ladjust then sign + digits + Fill(' ', pad)
            else if padc == '0' then sign + Fill('0', pad) + digits
            else Fill(padc, pad) + sign + digits
  {
    hide Digits, Fill;
    digits, sign := Digits(u, base, up), if neg then "-" else "";
    pad := Max(width, |sign| + |digits|) - (|sign| + |digits|);
  }

  // Every format is a signed number between blanks, with the zeros behind the sign.
  lemma FormatShape(u: nat, base: nat, neg: bool, width: nat, ladjust: bool, padc: char, up: bool)
    returns (front: nat, zeros: nat, back: nat)
    requires Base(base) && (padc == ' ' || padc == '0')
    ensures Format(u, base, neg, width, ladjust, padc, up)
      == Laid(front, if neg then "-" else "", zeros, Digits(u, base, up), back)
    ensures front + zeros + back + |Digits(u, base, up)| + (if neg then 1 else 0)
      == Max(width, |Digits(u, base, up)| + if neg then 1 else 0)
  {
    hide *;
    var digits, sign, pad := FormatCases(u, base, neg, width, ladjust, padc, up);
    front, zeros, back := 0, 0, 0;
    if ladjust {
      back := pad;
      LaidLeft(sign, digits, pad);
    } else if padc == '0' {
      zeros := pad;
      LaidZeros(sign, digits, pad);
    } else {
      front := pad;
      LaidRight(sign, digits, pad);
    }
  }

  lemma SignReads(neg: bool, digits: string, base: nat, front: nat, back: nat)
    requires IsDigits(digits, base) && base <= 16
    ensures Read(Fill(' ', front) + ((if neg then "-" else "") + digits) + Fill(' ', back), base)
      == Some(Signed(neg, Value(digits, base)))
  {
    var t := (if neg then "-" else "") + digits;
    var s := Fill(' ', front) + t + Fill(' ', back);
    assert s == Fill(' ', front) + (t + Fill(' ', back));
    assert DigitVal(digits[0]).Some? && DigitVal(digits[|digits| - 1]).Some?;
    BlanksInFront(front, t + Fill(' ', back));
    BlanksBehind(back, t);
    if neg {
      assert t[1..] == digits && DigitVal(t[0]).None?;
    } else {
      assert t == digits;
    }
  }

  // Whatever the base, width, adjustment and padding, what was printed reads back as the number.
  lemma FormatReads(u: nat, base: nat, neg: bool, width: nat, ladjust: bool, padc: char, up: bool)
    requires Base(base) && (padc == ' ' || padc == '0')
    ensures Read(Format(u, base, neg, width, ladjust, padc, up), base) == Some(Signed(neg, u))
    ensures |Format(u, base, neg, width, ladjust, padc, up)|
      == Max(width, |Digits(u, base, up)| + if neg then 1 else 0)
  {
    hide Format, Read, Value, Digits, IsDigits;
    var digits := Digits(u, base, up);
    DigitsRead(u, base, up);
    var front, zeros, back := FormatShape(u, base, neg, width, ladjust, padc, up);
    ZerosInFront(zeros, digits, base);
    SignReads(neg, Fill('0', zeros) + digits, base, front, back);
  }

  lemma DigitEnds(u: nat, base: nat, up: bool)
    requires Base(base)
    ensures var d := Digits(u, base, up); d != [] && DigitVal(d[0]).Some? && DigitVal(d[|d| - 1]).Some?
  {
    hide Digits, Value;
    DigitsRead(u, base, up);
  }

  lemma LeftPlaces(d: string, neg: bool, pad: nat)
    requires d != [] && DigitVal(d[0]).Some?
    ensures var t, n := (if neg then "-" else "") + d + Fill(' ', pad), |d| + if neg then 1 else 0;
      && |t| == n + pad && (t[0] == '-' <==> neg) && t[0] != ' '
      && forall i :: n <= i < |t| ==> t[i] == ' '
  {
  }

  lemma RightPlaces(d: string, neg: bool, pad: nat)
    requires d != [] && DigitVal(d[|d| - 1]).Some?
    ensures var t := Fill(' ', pad) + (if neg then "-" else "") + d;
      && |t| == |d| + pad + (if neg then 1 else 0) && DigitVal(t[|t| - 1]).Some?
      && forall i :: 0 <= i < pad ==> t[i] == ' '
  {
    var t := Fill(' ', pad) + (if neg then "-" else "") + d;
    assert t[|t| - 1] == d[|d| - 1];
  }

  lemma ZeroPlaces(d: string, neg: bool, pad: nat)
    requires d != [] && DigitVal(d[0]).Some? && DigitVal(d[|d| - 1]).Some?
    ensures var t, k := (if neg then "-" else "") + Fill('0', pad) + d, if neg then 1 else 0;
      && |t| == k + pad + |d| && DigitVal(t[|t| - 1]).Some? && (t[0] == '-' <==> neg)
      && forall i :: k <= i < k + pad ==> t[i] == '0'
  {
    var t := (if neg then "-" else "") + Fill('0', pad) + d;
    assert t[|t| - 1] == d[|d| - 1];
    if !neg { assert t[0] == if pad > 0 then '0' else d[0]; }
  }

  // Where the padding goes. Adjusted to the left the text begins with the number and ends in blanks; to
  // the right it ends with the number's last digit, behind blanks or, the sign being first, zeros.
  lemma FormatPlaces(u: nat, base: nat, neg: bool, width: nat, ladjust: bool, padc: char, up: bool)
    requires Base(base) && (padc == ' ' || padc == '0')
    ensures var t, k := Format(u, base, neg, width, ladjust, padc, up), if neg then 1 else 0;
      var n := k + |Digits(u, base, up)|;
      && k < n <= |t|
      && (ladjust ==> (t[0] == '-' <==> neg) && t[0] != ' ' && forall i :: n <= i < |t| ==> t[i] == ' ')
      && (!ladjust ==> DigitVal(t[|t| - 1]).Some?)
      && (!ladjust && padc == ' ' ==> forall i :: 0 <= i < |t| - n ==> t[i] == ' ')
      && (!ladjust && padc == '0' ==>
            (t[0] == '-' <==> neg) && forall i :: k <= i < k + |t| - n ==> t[i] == '0')
  {
    DigitEnds(u, base, up);
    hide *;
    var d, sign, pad := FormatCases(u, base, neg, width, ladjust, padc, up);
    if ladjust { LeftPlaces(d, neg, pad); }
    else if padc == '0' { ZeroPlaces(d, neg, pad); }
    else { RightPlaces(d, neg, pad); }
  }

  function Rev(s: string): (r: string)
    ensures |r| == |s|
  {
    if s == [] then [] else Rev(s[1..]) + [s[0]]
  }

  lemma {:induction false} RevIs(s: string, r: string)
    requires |r| == |s| && forall i :: 0 <= i < |s| ==> r[i] == s[|s| - 1 - i]
    ensures r == Rev(s)
  {
    if s != [] {
      RevIs(s[1..], r[..|s| - 1]);
      assert r == r[..|s| - 1] + [r[|s| - 1]];
    }
  }

  lemma {:induction false} RevJoin(a: string, b: string)
    ensures Rev(a + b) == Rev(b) + Rev(a)
  {
    if a == [] {
      assert a + b == b && Rev(b) + [] == Rev(b);
    } else {
      assert (a + b)[1..] == a[1..] + b;
      RevJoin(a[1..], b);
      assert Rev(b) + (Rev(a[1..]) + [a[0]]) == Rev(b) + Rev(a[1..]) + [a[0]];
    }
  }

  lemma {:induction false} RevTwice(s: string)
    ensures Rev(Rev(s)) == s
  {
    if s != [] {
      RevJoin(Rev(s[1..]), [s[0]]);
      RevTwice(s[1..]);
    }
  }

  lemma {:induction false} BackwardsIs(u: nat, base: nat, up: bool)
    requires Base(base)
    ensures Backwards(u, base, up) == Rev(Digits(u, base, up))
  {
    if u >= base {
      BackwardsIs(u / base, base, up);
      RevJoin(Digits(u / base, base, up), [Digit(u % base, up)]);
    }
  }

  // A 32-bit number has at most 32 digits.
  function Pow2(n: nat): nat { if n == 0 then 1 else 2 * Pow2(n - 1) }

  lemma EightMore(n: nat)
    ensures Pow2(n + 8) == 256 * Pow2(n)
  {
    assert Pow2(n + 4) == 2 * Pow2(n + 3) == 4 * Pow2(n + 2) == 8 * Pow2(n + 1);
    assert Pow2(n + 8) == 2 * Pow2(n + 7) == 4 * Pow2(n + 6) == 8 * Pow2(n + 5);
  }

  lemma {:induction false} FewDigits(u: nat, base: nat, up: bool, n: nat)
    requires Base(base) && u < Pow2(n)
    ensures |Backwards(u, base, up)| <= if n == 0 then 1 else n
  {
    if u >= base {
      assert u / base <= u / 2 by { if base == 2 {} else if base == 8 {} else if base == 10 {} else {} }
      FewDigits(u / base, base, up, n - 1);
    }
  }

  lemma DigitsFit(u: nat, base: nat, up: bool)
    requires Base(base) && u < U32
    ensures |Backwards(u, base, up)| <= 32
  {
    EightMore(0);
    EightMore(8);
    EightMore(16);
    EightMore(24);
    FewDigits(u, base, up, 32);
  }

  // The digit that is due at p, and whether it is the last.
  lemma NextDigit(all: string, p: nat, v: nat, base: nat, up: bool)
    requires Base(base) && p <= |all| && all[p..] == Backwards(v, base, up)
    ensures p < |all| && all[p] == Digit(v % base, up)
    ensures if v / base != 0 then all[p + 1..] == Backwards(v / base, base, up) else p + 1 == |all|
  {
    hide Digit;
    DivBase(v, base);
    assert all[p] == all[p..][0] && all[p + 1..] == all[p..][1..];
  }

  // The do-while loop: the digits, least significant first.
  method WriteDigits(buf: array<char>, u: nat, base: nat, up: bool) returns (p: nat)
    requires Base(base) && u < U32 && buf.Length >= 32
    modifies buf
    ensures p == |Backwards(u, base, up)| <= 32 && buf[..p] == Backwards(u, base, up)
  {
    DigitsFit(u, base, up);
    hide Backwards, Digit, Base;
    ghost var all := Backwards(u, base, up);
    p := 0;
    var v, more := u, true;
    while more
      invariant 0 <= v && p <= |all| && buf[..p] == all[..p]
      invariant if more then all[p..] == Backwards(v, base, up) else p == |all|
      decreases |all| - p, more
    {
      var tmp := v % base;
      NextDigit(all, p, v, base, up);
      buf[p] := Digit(tmp, up);
      assert buf[..p + 1] == buf[..p] + [Digit(tmp, up)] && all[..p + 1] == all[..p] + [all[p]];
      p := p + 1;
      more := v / base != 0;
      v := v / base;
    }
    assert buf[..p] == all;
  }

  // Where the number and its padding stand before the reversal. With zeros in front of a negative
  // number the sign moves past them.
  function Padded(all: string, neg: bool, ladjust: bool, padc: char, len: nat): (s: string)
    requires len >= |all| + if neg then 1 else 0
    ensures |s| == len
  {
    var sign := if neg then "-" else "";
    var n := len - |all| - |sign|;
    if neg && !ladjust && padc == '0' then all + Fill('0', n) + sign
    else all + sign + Fill(if ladjust then ' ' else padc, n)
  }

  // Either padding loop: bytes lo to hi - 1 become c.
  method FillRange(buf: array<char>, lo: nat, hi: nat, c: char)
    requires lo <= hi <= buf.Length
    modifies buf
    ensures buf[..hi] == old(buf[..lo]) + Fill(c, hi - lo)
  {
    ghost var was := buf[..lo];
    for i := lo to hi
      invariant buf[..lo] == was && buf[lo..i] == Fill(c, i - lo)
    {
      buf[i] := c;
      assert buf[lo..i + 1] == buf[lo..i] + [c];
    }
    assert buf[..hi] == buf[..lo] + buf[lo..hi];
  }

  method AddPadding(buf: array<char>, actual: nat, len: nat, neg: bool, ladjust: bool, padc: char, ghost all: string)
    requires actual == |all| + (if neg then 1 else 0) && actual <= len <= buf.Length
    requires buf[..actual] == all + if neg then "-" else ""
    modifies buf
    ensures buf[..len] == Padded(all, neg, ladjust, padc, len)
  {
    hide Fill;
    var padding := if ladjust then ' ' else padc;
    if neg && !ladjust && padc == '0' {
      assert buf[..actual - 1] == buf[..actual][..actual - 1] == all;
      FillRange(buf, actual - 1, len - 1, '0');
      buf[len - 1] := '-';
      assert buf[..len] == buf[..len - 1] + "-";
    } else {
      FillRange(buf, actual, len, padding);
    }
  }

  method ReversePrefix(buf: array<char>, n: nat)
    requires n <= buf.Length
    modifies buf
    ensures buf[..] == Rev(old(buf[..n])) + old(buf[n..])
  {
    ghost var was := buf[..];
    var begin, end := 0, n - 1;
    while end > begin
      invariant 0 <= begin <= end + 1 && begin + end == n - 1
      invariant forall k :: 0 <= k < begin || end < k < n ==> buf[k] == was[n - 1 - k]
      invariant forall k :: begin <= k <= end || n <= k < buf.Length ==> buf[k] == was[k]
    {
      buf[begin], buf[end] := buf[end], buf[begin];
      begin, end := begin + 1, end - 1;
    }
    RevIs(was[..n], buf[..n]);
    assert buf[..] == buf[..n] + buf[n..];
  }

  lemma Split(a: string, b: string)
    ensures (a + b)[..|a|] == a && (a + b)[|a|..] == b
  {}

  lemma RevLeft(digits: string, sign: string, blanks: string)
    requires Rev(sign) == sign
    ensures var was, p := Rev(digits) + sign + blanks, |digits| + |sign|;
      was[..p] == Rev(digits) + sign && was[p..] == blanks
    ensures Rev(Rev(digits) + sign) == sign + digits
  {
    hide Rev;
    RevTwice(digits);
    Split(Rev(digits) + sign, blanks);
    RevJoin(Rev(digits), sign);
  }

  lemma RevAll(digits: string, a: string, b: string)
    requires Rev(a) == a && Rev(b) == b
    ensures Rev(Rev(digits) + a + b) == b + a + digits
  {
    var all := Rev(digits);
    RevTwice(digits);
    hide Rev;
    RevJoin(all + a, b);
    RevJoin(all, a);
    assert b + (a + digits) == b + a + digits;
  }

  lemma RevFill(c: char, n: nat)
    ensures Rev(Fill(c, n)) == Fill(c, n)
  {
    RevIs(Fill(c, n), Fill(c, n));
  }

  lemma FormatIs(u: nat, base: nat, neg: bool, length: nat, ladjust: bool, padc: char, up: bool, len: nat)
    requires Base(base)
    requires var p := |Digits(u, base, up)| + (if neg then 1 else 0); len == if length < p then p else length
    ensures var digits, sign := Digits(u, base, up), if neg then "-" else "";
      var pad := len - |digits| - |sign|;
      Format(u, base, neg, length, ladjust, padc, up)
      == if ladjust then sign + digits + Fill(' ', pad)
         else if padc == '0' then sign + Fill('0', pad) + digits
         else Fill(padc, pad) + sign + digits
  {}

  lemma RevShort(sign: string)
    requires |sign| <= 1
    ensures Rev(sign) == sign
  {
    RevIs(sign, sign);
  }

  lemma ReversedLeft(digits: string, neg: bool, padc: char, len: nat)
    requires len >= |digits| + if neg then 1 else 0
    ensures var sign := if neg then "-" else "";
      var was, p := Padded(Rev(digits), neg, true, padc, len), |digits| + |sign|;
      Rev(was[..p]) + was[p..] == sign + digits + Fill(' ', len - p)
  {
    hide Rev, Fill;
    var sign := if neg then "-" else "";
    RevShort(sign);
    RevLeft(digits, sign, Fill(' ', len - |digits| - |sign|));
  }

  lemma PaddedIs(all: string, neg: bool, padc: char, len: nat)
    requires len >= |all| + if neg then 1 else 0
    ensures var sign := if neg then "-" else "";
      var pad, was := Fill(padc, len - |all| - |sign|), Padded(all, neg, false, padc, len);
      && was == (if neg && padc == '0' then all + pad + sign else all + sign + pad)
      && was[..len] == was && was[len..] == []
  {}

  lemma NoSign(pad: string)
    ensures pad + "" == pad == "" + pad
  {}

  lemma ReversedRight(digits: string, neg: bool, padc: char, len: nat)
    requires len >= |digits| + if neg then 1 else 0
    ensures var sign := if neg then "-" else "";
      var was, pad := Padded(Rev(digits), neg, false, padc, len), Fill(padc, len - |digits| - |sign|);
      && was[..len] == was && was[len..] == []
      && Rev(was) == if padc == '0' then sign + pad + digits else pad + sign + digits
  {
    hide *;
    var sign := if neg then "-" else "";
    var pad := Fill(padc, len - |digits| - |sign|);
    PaddedIs(Rev(digits), neg, padc, len);
    RevFill(padc, len - |digits| - |sign|);
    RevShort(sign);
    if neg && padc == '0' {
      RevAll(digits, pad, sign);
    } else {
      RevAll(digits, sign, pad);
      if !neg { NoSign(pad); }
    }
  }

  // Reversing turns what is in the buffer into the format.
  lemma Reversed(u: nat, base: nat, neg: bool, length: nat, ladjust: bool, padc: char, up: bool, len: nat,
                 was: string, n: nat)
    requires Base(base)
    requires var p := |Backwards(u, base, up)| + (if neg then 1 else 0);
      len == (if length < p then p else length) && n == (if ladjust then p else len)
    requires was == Padded(Backwards(u, base, up), neg, ladjust, padc, len)
    ensures Rev(was[..n]) + was[n..] == Format(u, base, neg, length, ladjust, padc, up)
  {
    hide *;
    BackwardsIs(u, base, up);
    var digits := Digits(u, base, up);
    FormatIs(u, base, neg, length, ladjust, padc, up, len);
    if ladjust {
      ReversedLeft(digits, neg, padc, len);
    } else {
      NoTail(Rev(was));
      ReversedRight(digits, neg, padc, len);
    }
  }

  // The first n characters reversed in place, and what is then the output.
  method Mirrored(buf: array<char>, n: nat, len: nat) returns (out: string)
    requires n <= len <= buf.Length
    modifies buf
    ensures out == Rev(old(buf[..len])[..n]) + old(buf[..len])[n..]
  {
    hide *;
    ghost var was := buf[..len];
    assert buf[..n] == was[..n] && buf[n..][..len - n] == was[n..];
    ReversePrefix(buf, n);
    out := buf[..len];
    assert out == buf[..n] + buf[n..][..len - n];
  }

  // The buffer of length + 70 bytes is never overrun.
  method PrintNum(u: nat, base: nat, neg: bool, length: nat, ladjust: bool, padc: char, up: bool) returns (out: string)
    requires Base(base) && u < U32
    ensures out == Format(u, base, neg, length, ladjust, padc, up)
  {
    hide *;
    var buf := new char[length + 70];
    ghost var all := Backwards(u, base, up);
    var p := WriteDigits(buf, u, base, up);
    if neg {
      buf[p] := '-';
      p := p + 1;
    }
    assert buf[..p] == all + if neg then "-" else "";
    var len := if length < p then p else length;
    AddPadding(buf, p, len, neg, ladjust, padc, all);
    ghost var was := buf[..len];
    var n := if ladjust then p else len;
    out := Mirrored(buf, n, len);
    Reversed(u, base, neg, length, ladjust, padc, up, len, was, n);
  }

  // What vprintfmt passes to print_num for %d and %u: INT_MIN's negation wraps to itself, and so
  // to the right magnitude.
  function Negative(num: int, isSigned: bool): bool { isSigned && num < 0 }

  function Magnitude(num: int, isSigned: bool): nat {
    (if Negative(num, isSigned) && num != -0x8000_0000 then -num else num) % U32
  }

  lemma MagnitudeIs(num: int, isSigned: bool)
    requires -0x8000_0000 <= num < 0x8000_0000
    ensures Magnitude(num, isSigned) < U32
    ensures Signed(Negative(num, isSigned), Magnitude(num, isSigned)) == if isSigned then num else num % U32
  {}

  method PrintDecimal(num: int, isSigned: bool, width: nat, ladjust: bool, padc: char) returns (out: string)
    requires -0x8000_0000 <= num < 0x8000_0000 && (padc == ' ' || padc == '0')
    ensures Read(out, 10) == Some(if isSigned then num else num % U32)
    ensures |out| >= width
  {
    assert Base(10);
    assert forall a, b :: Max(a, b) >= a;
    hide *;
    var neg, u := Negative(num, isSigned), Magnitude(num, isSigned);
    MagnitudeIs(num, isSigned);
    out := PrintNum(u, 10, neg, width, ladjust, padc, false);
    FormatReads(u, 10, neg, width, ladjust, padc, false);
  }
}
