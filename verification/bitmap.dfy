// The free-block bitmap as fs/fs.c packs it: 32 blocks to a word, a set bit for a free block.
module Bitmap {
  // 1 << (b % 32)
  function Mask(b: nat): bv32 { (1 as bv32) << ((b % 32) as bv5) }

  function And(w: bv32, m: bv32): bv32 { w & m }

  function With(w: bv32, m: bv32): bv32 { w | m }

  function Sans(w: bv32, m: bv32): bv32 { w & !m }

  predicate Covers(words: seq<bv32>, nblocks: nat) { nblocks <= 32 * |words| }

  predicate Test(words: seq<bv32>, b: nat)
    requires b / 32 < |words|
  {
    And(words[b / 32], Mask(b)) != 0
  }

  lemma Shifts(i: bv5, j: bv5)
    ensures (1 as bv32) << i != 0
    ensures i != j ==> And((1 as bv32) << i, (1 as bv32) << j) == 0
  {}

  lemma Words(w: bv32, a: bv32, b: bv32)
    ensures (w | a) & b == (w & b) | (a & b)
    ensures a & b == 0 ==> (w & !a) & b == w & b
    ensures (w & !a) & a == 0 && (w | a) & a == a
    ensures w | 0 == w
  {}

  lemma Meet(w: bv32, a: bv32, b: bv32)
    requires And(a, b) == 0
    ensures And(With(w, a), b) == And(w, b)
    ensures And(Sans(w, a), b) == And(w, b)
  {
    Words(w, a, b);
    Words(w & b, a, b);
  }

  lemma Same(w: bv32, a: bv32)
    ensures And(With(w, a), a) == a && And(Sans(w, a), a) == 0
  {
    Words(w, a, a);
  }

  lemma SmallCast(i: nat)
    requires i < 32
    ensures (i as bv5) as nat == i
  {}

  lemma CastsDiffer(i: nat, j: nat)
    requires i < 32 && j < 32
    ensures i != j ==> i as bv5 != j as bv5
  {
    SmallCast(i);
    SmallCast(j);
  }

  lemma MasksMeet(b: nat, c: nat)
    ensures Mask(b) != 0
    ensures b % 32 != c % 32 ==> And(Mask(b), Mask(c)) == 0
  {
    hide And;
    CastsDiffer(b % 32, c % 32);
    Shifts((b % 32) as bv5, (c % 32) as bv5);
  }

  // What one word says of two blocks it holds.
  lemma WordOf(w: bv32, b: nat, c: nat)
    requires b / 32 == c / 32
    ensures And(With(w, Mask(b)), Mask(c)) != 0 <==> c == b || And(w, Mask(c)) != 0
    ensures And(Sans(w, Mask(b)), Mask(c)) != 0 <==> c != b && And(w, Mask(c)) != 0
  {
    hide Mask, And, With, Sans;
    MasksMeet(b, c);
    MasksMeet(c, b);
    if b == c {
      Same(w, Mask(b));
    } else {
      Meet(w, Mask(b), Mask(c));
    }
  }

  // Setting or clearing a block's bit is seen by tests of that block alone.
  lemma SetBit(words: seq<bv32>, b: nat, c: nat)
    requires b / 32 < |words| && c / 32 < |words|
    ensures Test(words[b / 32 := With(words[b / 32], Mask(b))], c) <==> c == b || Test(words, c)
    ensures Test(words[b / 32 := Sans(words[b / 32], Mask(b))], c) <==> c != b && Test(words, c)
  {
    hide Mask, And, With, Sans;
    if b / 32 == c / 32 { WordOf(words[b / 32], b, c); }
  }

  const ONES: bv32 := 0xffff_ffff

  lemma Ones(m: bv32)
    ensures And(ONES, m) == m && And(0, m) == 0
  {}

  // memset to 0xff marks every block of a word free; to zero, none.
  lemma AllOnes(b: nat)
    ensures And(ONES, Mask(b)) != 0 && And(0, Mask(b)) == 0
  {
    MasksMeet(b, b);
    Ones(Mask(b));
  }
}
