/** 64-bit unsigned words, their wrap-around, and sums over sequences. */
module Words {

  const WORD: int := 0x1_0000_0000_0000_0000
  const MAX_WORD: Word := WORD - 1

  type Word = x: int | 0 <= x < WORD

  /** What a uint64_t holds after an addition or subtraction with exact result x. */
  function Wrap(x: int): Word {
    x % WORD
  }

  /** Words have 64 bits: wrapping takes away a multiple of 2^64, and nothing from what fits. */
  lemma WrapIsUnsigned64(x: int)
    ensures 0 <= Wrap(x) < 18446744073709551616
    ensures exists k :: x == Wrap(x) + 18446744073709551616 * k
  {
    assert x == Wrap(x) + 18446744073709551616 * (x / WORD);
  }

  lemma WrapAdd(a: int, b: int)
    ensures Wrap(Wrap(a) + b) == Wrap(a + b)
  {
    assert a == WORD * (a / WORD) + Wrap(a);
  }

  lemma MulMono(k: nat, a: int, b: int)
    requires a <= b
    ensures k * a <= k * b
  {
    assert 0 <= k * (b - a);
  }

  lemma Cancel(k: nat, a: nat, b: nat, r: nat)
    requires r < k && k * a <= k * b + r
    ensures a <= b
  {
    assert k * (a - b) == k * a - k * b;
    if b < a {
      MulMono(k, 1, a - b);
    }
  }

  /** The sum of f over a sequence. */
  function Total<T>(xs: seq<T>, f: T -> int): int {
    if xs == [] then 0 else Total(xs[..|xs| - 1], f) + f(xs[|xs| - 1])
  }

  lemma {:induction false} TotalUpdate<T>(xs: seq<T>, i: nat, x: T, f: T -> int)
    requires i < |xs|
    ensures Total(xs[i := x], f) == Total(xs, f) - f(xs[i]) + f(x)
  {
    var last := |xs| - 1;
    if i < last {
      TotalUpdate(xs[..last], i, x, f);
      assert xs[i := x][..last] == xs[..last][i := x];
    } else {
      assert xs[i := x][..last] == xs[..last];
    }
  }

  lemma {:induction false} TotalConcat<T>(xs: seq<T>, ys: seq<T>, f: T -> int)
    ensures Total(xs + ys, f) == Total(xs, f) + Total(ys, f)
  {
    if ys == [] {
      assert xs + ys == xs;
    } else {
      var last := |ys| - 1;
      TotalConcat(xs, ys[..last], f);
      assert (xs + ys)[..|xs| + last] == xs + ys[..last];
    }
  }

  /** If every value is at most k, the total is at most k for each of them. */
  lemma {:induction false} TotalAtMost<T>(xs: seq<T>, k: int, f: T -> int)
    requires forall i :: 0 <= i < |xs| ==> f(xs[i]) <= k
    ensures Total(xs, f) <= |xs| * k
  {
    if xs != [] {
      TotalAtMost(xs[..|xs| - 1], k, f);
      assert |xs| * k == (|xs| - 1) * k + k;
    }
  }

  /** If every value is at least k, so is the total for each of them. */
  lemma {:induction false} TotalAtLeast<T>(xs: seq<T>, k: int, f: T -> int)
    requires forall i :: 0 <= i < |xs| ==> k <= f(xs[i])
    ensures |xs| * k <= Total(xs, f)
  {
    if xs != [] {
      TotalAtLeast(xs[..|xs| - 1], k, f);
      assert |xs| * k == (|xs| - 1) * k + k;
    }
  }

  function Itself(x: int): int { x }

  /** The sum of a sequence of integers. */
  function Sum(xs: seq<int>): int {
    Total(xs, Itself)
  }

  lemma {:induction false} SumBounds(xs: seq<int>, lo: int, hi: int)
    requires forall i :: 0 <= i < |xs| ==> lo <= xs[i] <= hi
    ensures |xs| * lo <= Sum(xs) <= |xs| * hi
  {
    if xs != [] {
      SumBounds(xs[..|xs| - 1], lo, hi);
      assert |xs| * lo == (|xs| - 1) * lo + lo;
      assert |xs| * hi == (|xs| - 1) * hi + hi;
    }
  }
}
