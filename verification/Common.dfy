/** Data types, machine integers and finite sums shared by every part of the model. */
module Common {

  datatype Option<+T> = None | Some(value: T)

  datatype Result<+T, +E> = Ok(value: T) | Err(error: E)

  /** What becomes of one SQL statement: no fault, it never ran, or it ran but its answer was lost. */
  datatype Fault = NoFault | NotRun | AnswerLost

  const INT32_MAX: int := 0x7FFF_FFFF
  const INT64_MAX: int := 0x7FFF_FFFF_FFFF_FFFF
  const TWO_32: int := 0x1_0000_0000
  const TWO_64: int := 0x1_0000_0000_0000_0000

  /** Go's conversion to int32: the value modulo 2^32, read as a signed number. */
  function Int32(x: int): (r: int)
    ensures -INT32_MAX - 1 <= r <= INT32_MAX
    ensures exists k :: x == r + k * TWO_32
    ensures -INT32_MAX - 1 <= x <= INT32_MAX ==> r == x
  {
    var m := x % TWO_32;
    assert x == m + (x / TWO_32) * TWO_32;
    assert x == (m - TWO_32) + (x / TWO_32 + 1) * TWO_32;
    if m <= INT32_MAX then m else m - TWO_32
  }

  /** Go's int64 arithmetic: the exact result modulo 2^64, read as a signed number. */
  function Int64(x: int): (r: int)
    ensures -INT64_MAX - 1 <= r <= INT64_MAX
    ensures -INT64_MAX - 1 <= x <= INT64_MAX ==> r == x
  {
    var m := x % TWO_64;
    if m <= INT64_MAX then m else m - TWO_64
  }

  /** Scaling by a positive factor keeps the order. */
  lemma ScaleStrict(x: int, y: int, k: nat)
    requires k > 0
    ensures x < y <==> x * k < y * k
  {
    if x < y {
      assert (y - x) * k > 0;
    } else {
      assert (x - y) * k >= 0;
    }
  }

  lemma Int64Congruent(x: int)
    ensures exists k :: x == Int64(x) + k * TWO_64
  {
    var m := x % TWO_64;
    assert x == m + (x / TWO_64) * TWO_64;
    assert x == (m - TWO_64) + (x / TWO_64 + 1) * TWO_64;
  }

  /** Wrapping sums may be reduced at every step or once at the end. */
  lemma Int64Add(x: int, y: int)
    ensures Int64(Int64(x) + y) == Int64(x + y)
  {
    var k := (x - Int64(x)) / TWO_64;
    assert x == Int64(x) + k * TWO_64;
    assert (Int64(x) + y) % TWO_64 == (x + y) % TWO_64;
  }

  /** The sum of f over s. */
  ghost function SumBy<T>(s: seq<T>, f: T -> int): int {
    if s == [] then 0 else SumBy(s[..|s| - 1], f) + f(s[|s| - 1])
  }

  lemma SumAppend<T>(s: seq<T>, x: T, f: T -> int)
    ensures SumBy(s + [x], f) == SumBy(s, f) + f(x)
  {
    assert (s + [x])[..|s|] == s;
  }

  lemma {:induction false} SumUpdate<T>(s: seq<T>, i: nat, x: T, f: T -> int)
    requires i < |s|
    ensures SumBy(s[i := x], f) == SumBy(s, f) - f(s[i]) + f(x)
  {
    var n := |s| - 1;
    if i == n {
      assert s[i := x][..n] == s[..n];
    } else {
      assert s[i := x][..n] == s[..n][i := x];
      SumUpdate(s[..n], i, x, f);
    }
  }

  lemma {:induction false} SumConcat<T>(s: seq<T>, t: seq<T>, f: T -> int)
    ensures SumBy(s + t, f) == SumBy(s, f) + SumBy(t, f)
  {
    if t == [] {
      assert s + t == s;
    } else {
      assert (s + t)[..|s + t| - 1] == s + t[..|t| - 1];
      SumConcat(s, t[..|t| - 1], f);
    }
  }

  /** Sums of pointwise comparable terms compare the same way. */
  lemma {:induction false} SumLe<T>(s: seq<T>, f: T -> int, g: T -> int)
    requires forall x :: x in s ==> f(x) <= g(x)
    ensures SumBy(s, f) <= SumBy(s, g)
  {
    if s != [] {
      assert s[|s| - 1] in s;
      assert forall x :: x in s[..|s| - 1] ==> x in s;
      SumLe(s[..|s| - 1], f, g);
    }
  }
}
