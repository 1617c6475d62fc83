/** The line-number gutter of the web editor (website/src/gutter.js): one
    right-aligned number per source line, followed by as many newlines as
    the line takes on screen. Line numbers and heights are natural numbers. */
module Gutter {
  import opened Strings

  /** `nbCharLineNb`: the width of a line number, capped at four. */
  function NbCharLineNb(nb: nat): (r: nat)
    ensures 1 <= r <= 4
  {
    if nb < 10 then 1
    else if nb < 100 then 2
    else if nb < 1000 then 3
    else 4
  }

  lemma NbCharMonotone(a: nat, b: nat)
    requires a <= b
    ensures NbCharLineNb(a) <= NbCharLineNb(b)
  {
  }

  function DigitChar(d: nat): (c: char)
    requires d < 10
    ensures '0' <= c <= '9' && c as int - '0' as int == d
  {
    (d + '0' as int) as char
  }

  /** The decimal writing of `n`, as JavaScript converts an integer to a string. */
  function Decimal(n: nat): (r: string)
    ensures |r| > 0
    ensures forall k | 0 <= k < |r| :: '0' <= r[k] <= '9'
    decreases n
  {
    if n < 10 then [DigitChar(n)] else Decimal(n / 10) + [DigitChar(n % 10)]
  }

  /** The number a string of decimal digits denotes. */
  function DigitsValue(s: string): nat
    requires forall k | 0 <= k < |s| :: '0' <= s[k] <= '9'
    decreases |s|
  {
    if |s| == 0 then 0 else 10 * DigitsValue(s[..|s| - 1]) + (s[|s| - 1] as int - '0' as int)
  }

  /** Reading the digits back gives the number written. */
  lemma {:induction false} DecimalValue(n: nat)
    ensures DigitsValue(Decimal(n)) == n
    decreases n
  {
    var r := Decimal(n);
    if n >= 10 {
      DecimalValue(n / 10);
      assert r[..|r| - 1] == Decimal(n / 10);
    }
  }

  /** The width `nbCharLineNb` gives is the number of digits of the number
      exactly when the number has at most four digits. */
  lemma {:induction false} DecimalLength(n: nat)
    ensures |Decimal(n)| == NbCharLineNb(n) <==> n < 10000
    ensures n >= 10000 ==> |Decimal(n)| > 4
    decreases n
  {
    if n >= 10 {
      DecimalLength(n / 10);
    }
  }

  /** `formatLineNb`: the number `idx` padded on the left to the width of
      `nbLine`, then `height` newlines. JavaScript's `repeat` throws on a
      negative count, so the number may not be wider than `nbLine`'s. */
  function FormatLineNb(idx: nat, nbLine: nat, height: nat): (r: string)
    requires NbCharLineNb(idx) <= NbCharLineNb(nbLine)
    ensures |r| == NbCharLineNb(nbLine) - NbCharLineNb(idx) + |Decimal(idx)| + height
    ensures forall k | 0 <= k < NbCharLineNb(nbLine) - NbCharLineNb(idx) :: r[k] == ' '
    ensures r[NbCharLineNb(nbLine) - NbCharLineNb(idx)..|r| - height] == Decimal(idx)
    ensures forall k | |r| - height <= k < |r| :: r[k] == '\n'
  {
    var pad := Repeat(' ', NbCharLineNb(nbLine) - NbCharLineNb(idx));
    var r := pad + Decimal(idx) + Repeat('\n', height);
    assert r[|pad|..|r| - height] == Decimal(idx);
    r
  }

  /** Up to 9999 lines, a number no greater than the line count is right
      aligned: spaces, then its digits ending at the column of the width of
      the line count, then exactly `height` newlines. */
  lemma RightAligned(idx: nat, nbLine: nat, height: nat)
    requires idx <= nbLine < 10000
    ensures NbCharLineNb(idx) <= NbCharLineNb(nbLine)
    ensures |FormatLineNb(idx, nbLine, height)| == NbCharLineNb(nbLine) + height
    ensures |Decimal(idx)| <= NbCharLineNb(nbLine)
    ensures forall k | 0 <= k < NbCharLineNb(nbLine) - |Decimal(idx)| ::
              FormatLineNb(idx, nbLine, height)[k] == ' '
    ensures FormatLineNb(idx, nbLine, height)[NbCharLineNb(nbLine) - |Decimal(idx)|..NbCharLineNb(nbLine)]
         == Decimal(idx)
    ensures forall k | NbCharLineNb(nbLine) <= k < NbCharLineNb(nbLine) + height ::
              FormatLineNb(idx, nbLine, height)[k] == '\n'
  {
    NbCharMonotone(idx, nbLine);
    DecimalLength(idx);
    var w := NbCharLineNb(nbLine);
    var pad := Repeat(' ', w - NbCharLineNb(idx));
    var d := Decimal(idx);
    var r := FormatLineNb(idx, nbLine, height);
    assert r == pad + d + Repeat('\n', height);
    assert |pad| == w - |d|;
    assert r[|pad|..w] == d;
  }

  /** Digits are never newlines. */
  lemma {:induction false} DecimalNewlines(n: nat)
    ensures Count('\n', Decimal(n)) == 0
    decreases n
  {
    var r := Decimal(n);
    if n >= 10 {
      DecimalNewlines(n / 10);
      assert r[..|r| - 1] == Decimal(n / 10);
    }
  }

  /** An entry ends with exactly `height` newlines and has no other. */
  lemma FormatNewlines(idx: nat, nbLine: nat, height: nat)
    requires NbCharLineNb(idx) <= NbCharLineNb(nbLine)
    ensures Count('\n', FormatLineNb(idx, nbLine, height)) == height
  {
    var pad := Repeat(' ', NbCharLineNb(nbLine) - NbCharLineNb(idx));
    CountAppend('\n', pad + Decimal(idx), Repeat('\n', height));
    CountAppend('\n', pad, Decimal(idx));
    CountRepeat('\n', ' ', NbCharLineNb(nbLine) - NbCharLineNb(idx));
    CountRepeat('\n', '\n', height);
    DecimalNewlines(idx);
  }

  /** The first `k` entries of the gutter of `heights`, each numbered from 0
      and followed by one more newline. */
  function Entries(heights: seq<nat>, k: nat): (r: string)
    requires k <= |heights|
    ensures |r| >= 2 * k
  {
    if k == 0 then ""
    else
      NbCharMonotone(k - 1, |heights|);
      Entries(heights, k - 1) + FormatLineNb(k - 1, |heights|, heights[k - 1]) + "\n"
  }

  /** `heightsToGutterContent`. */
  method HeightsToGutterContent(heights: seq<nat>) returns (content: string)
    ensures content == Entries(heights, |heights|)
  {
    content := "";
    for i := 0 to |heights|
      invariant content == Entries(heights, i)
    {
      NbCharMonotone(i, |heights|);
      content := content + FormatLineNb(i, |heights|, heights[i]) + "\n";
    }
  }

  function Sum(xs: seq<nat>): nat {
    if xs == [] then 0 else Sum(xs[..|xs| - 1]) + xs[|xs| - 1]
  }

  /** The gutter has one newline per line plus one per row of height. */
  lemma {:induction false} EntriesNewlines(heights: seq<nat>, k: nat)
    requires k <= |heights|
    ensures Count('\n', Entries(heights, k)) == Sum(heights[..k]) + k
  {
    if k > 0 {
      EntriesNewlines(heights, k - 1);
      NbCharMonotone(k - 1, |heights|);
      var entry := FormatLineNb(k - 1, |heights|, heights[k - 1]);
      CountAppend('\n', Entries(heights, k - 1) + entry, "\n");
      CountAppend('\n', Entries(heights, k - 1), entry);
      FormatNewlines(k - 1, |heights|, heights[k - 1]);
      assert Count('\n', "\n") == 1 by {
        assert "\n"[..0] == [];
      }
      assert heights[..k][..k - 1] == heights[..k - 1];
    }
  }

  lemma GutterNewlines(heights: seq<nat>)
    ensures Count('\n', Entries(heights, |heights|)) == Sum(heights) + |heights|
  {
    EntriesNewlines(heights, |heights|);
    assert heights[..|heights|] == heights;
  }

  /** Up to 9999 lines, every entry takes the width of the line count, its
      height in newlines and one more newline. */
  lemma {:induction false} EntriesLength(heights: seq<nat>, k: nat)
    requires k <= |heights| < 10000
    ensures |Entries(heights, k)| == k * (NbCharLineNb(|heights|) + 1) + Sum(heights[..k])
  {
    if k > 0 {
      EntriesLength(heights, k - 1);
      RightAligned(k - 1, |heights|, heights[k - 1]);
      assert heights[..k][..k - 1] == heights[..k - 1];
    }
  }
}
