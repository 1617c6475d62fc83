/** Small string helpers shared by the error renderer and the gutter. */
module Strings {

  /** `k` copies of `c` (Rust's `{:c>k$}` padding, JavaScript's `c.repeat(k)`). */
  function Repeat(c: char, k: nat): (r: string)
    ensures |r| == k
    ensures forall i | 0 <= i < k :: r[i] == c
  {
    if k == 0 then [] else Repeat(c, k - 1) + [c]
  }

  /** Number of occurrences of `c` in `s`. */
  function Count(c: char, s: string): nat
  {
    if s == [] then 0 else Count(c, s[..|s| - 1]) + (if s[|s| - 1] == c then 1 else 0)
  }

  lemma {:induction false} CountAppend(c: char, a: string, b: string)
    ensures Count(c, a + b) == Count(c, a) + Count(c, b)
    decreases |b|
  {
    if b != [] {
      assert (a + b)[..|a + b| - 1] == a + b[..|b| - 1];
      CountAppend(c, a, b[..|b| - 1]);
    } else {
      assert a + b == a;
    }
  }

  lemma {:induction false} CountRepeat(c: char, d: char, k: nat)
    ensures Count(c, Repeat(d, k)) == if c == d then k else 0
  {
    if k > 0 {
      assert Repeat(d, k)[..k - 1] == Repeat(d, k - 1);
      CountRepeat(c, d, k - 1);
    }
  }
}
