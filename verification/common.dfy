// Names shared by the models: error codes, option values, sizes and sequence helpers.
module Common {

  datatype Option<+T> = None | Some(value: T)

  // env_status
  datatype Status = Free | Runnable | NotRunnable

  const E_BAD_ENV := -2
  const E_INVAL := -3
  const E_NO_MEM := -4
  const E_NO_FREE_ENV := -6
  const E_IPC_NOT_RECV := -7
  const E_NO_DISK := -8
  const E_NOT_FOUND := -10

  const U32: nat := 0x1_0000_0000       // one more than the largest u_int
  const PAGE_SIZE: nat := 4096

  // What the string library and the shell take for white space.
  predicate White(c: char) { c == ' ' || c == '\t' || c == '\r' || c == '\n' }

  lemma WhiteIs(c: char)
    ensures White(c) <==> c in " \t\r\n"
  {
    var blanks := " \t\r\n";
    assert blanks[0] == ' ' && blanks[1] == '\t' && blanks[2] == '\r' && blanks[3] == '\n';
  }

  ghost predicate Distinct<T>(q: seq<T>) {
    forall i, j :: 0 <= i < j < |q| ==> q[i] != q[j]
  }

  // The sequence without its element at position k.
  function Drop<T>(q: seq<T>, k: nat): (r: seq<T>)
    requires k < |q|
    ensures |r| == |q| - 1
    ensures forall i :: 0 <= i < k ==> r[i] == q[i]
    ensures forall i :: k <= i < |r| ==> r[i] == q[i + 1]
  {
    q[..k] + q[k + 1..]
  }

  function IndexOf<T(==)>(q: seq<T>, x: T): (k: nat)
    requires x in q
    ensures k < |q| && q[k] == x && x !in q[..k]
  {
    if q[0] == x then 0 else 1 + IndexOf(q[1..], x)
  }

  // The sequence with the first x taken out, or unchanged when x is not in it.
  function Without<T(==)>(q: seq<T>, x: T): (r: seq<T>)
    ensures x !in q ==> r == q
  {
    if x in q then Drop(q, IndexOf(q, x)) else q
  }

  lemma WithoutDistinct<T>(q: seq<T>, x: T)
    requires Distinct(q)
    ensures Distinct(Without(q, x)) && x !in Without(q, x)
    ensures forall y :: y in Without(q, x) <==> y in q && y != x
  {
    if x in q {
      var k, r := IndexOf(q, x), Without(q, x);
      forall y ensures y in r <==> y in q && y != x {
        if y in q && y != x {
          var i := IndexOf(q, y);
          assert r[if i < k then i else i - 1] == y;
        }
        if y in r {
          var i := IndexOf(r, y);
          assert q[if i < k then i else i + 1] == y;
        }
      }
    }
  }

  lemma WithoutIn<T>(q: seq<T>, x: T)
    ensures forall y :: y in Without(q, x) ==> y in q
  {
    if x in q {
      var k := IndexOf(q, x);
      assert Without(q, x) == q[..k] + q[k + 1..];
    }
  }

  lemma {:induction false} IndexFirst<T>(q: seq<T>, x: T, k: nat)
    requires k < |q| && q[k] == x && forall i :: 0 <= i < k ==> q[i] != x
    ensures x in q && IndexOf(q, x) == k
  {
    if k > 0 { IndexFirst(q[1..], x, k - 1); }
  }

  lemma IndexUnique<T>(q: seq<T>, k: nat)
    requires Distinct(q) && k < |q|
    ensures IndexOf(q, q[k]) == k
  {
    IndexFirst(q, q[k], k);
  }
}
