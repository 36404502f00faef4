/**
 * String helpers with Python's semantics: `str.rstrip(chars)`, `s.split(".")[0]`,
 * `os.path.basename`, `str.endswith`, `str.startswith` and `sep.join(xs)`.
 */
module Text {

  /**
   * `s.rstrip(chars)`: drops the longest suffix made only of characters in
   * `chars`. It strips a character SET, not a suffix string.
   */
  function RStrip(s: string, chars: set<char>): (r: string)
    ensures |r| <= |s| && r == s[..|r|]
    ensures forall k :: |r| <= k < |s| ==> s[k] in chars
    ensures r == "" || r[|r| - 1] !in chars
  {
    if s == [] then s
    else if s[|s| - 1] in chars then RStrip(s[..|s| - 1], chars)
    else s
  }

  /** `s.split(".")[0]`: the text before the first '.', or all of `s`. */
  function Stem(s: string): (r: string)
    ensures |r| <= |s| && r == s[..|r|]
    ensures '.' !in r
    ensures |r| < |s| ==> s[|r|] == '.'
  {
    if s == [] || s[0] == '.' then [] else [s[0]] + Stem(s[1..])
  }

  /** `os.path.basename(s)` and `s.split("/")[-1]`: the text after the last '/'. */
  function Basename(s: string): (r: string)
    ensures |r| <= |s| && r == s[|s| - |r|..]
    ensures '/' !in r
    ensures |r| < |s| ==> s[|s| - |r| - 1] == '/'
  {
    if s == [] || s[|s| - 1] == '/' then [] else Basename(s[..|s| - 1]) + [s[|s| - 1]]
  }

  predicate EndsWith(s: string, suffix: string) {
    |suffix| <= |s| && s[|s| - |suffix|..] == suffix
  }

  predicate StartsWith(s: string, prefix: string) {
    |prefix| <= |s| && s[..|prefix|] == prefix
  }

  /** `sep.join(xs)`. */
  function Join(xs: seq<string>, sep: string): string {
    if |xs| == 0 then ""
    else if |xs| == 1 then xs[0]
    else Join(xs[..|xs| - 1], sep) + sep + xs[|xs| - 1]
  }

  /** What a loop `for x in xs: query += x + sep` appends: every item followed by `sep`. */
  function Terminated(xs: seq<string>, sep: string): string {
    if |xs| == 0 then "" else Terminated(xs[..|xs| - 1], sep) + xs[|xs| - 1] + sep
  }

  /** What a loop `for x in xs: query += sep + x` appends: every item preceded by `sep`. */
  function Preceded(xs: seq<string>, sep: string): string {
    if |xs| == 0 then "" else Preceded(xs[..|xs| - 1], sep) + sep + xs[|xs| - 1]
  }

  /** Appending one more item to the loop's accumulator. */
  lemma TerminatedSnoc(xs: seq<string>, x: string, sep: string)
    ensures Terminated(xs + [x], sep) == Terminated(xs, sep) + x + sep
  {
    assert (xs + [x])[..|xs|] == xs;
  }

  lemma PrecededSnoc(xs: seq<string>, x: string, sep: string)
    ensures Preceded(xs + [x], sep) == Preceded(xs, sep) + sep + x
  {
    assert (xs + [x])[..|xs|] == xs;
  }

  /** A non-empty terminated list is the joined list plus one trailing separator. */
  lemma {:induction false} TerminatedIsJoin(xs: seq<string>, sep: string)
    requires |xs| > 0
    ensures Terminated(xs, sep) == Join(xs, sep) + sep
  {
    if |xs| > 1 {
      var init := xs[..|xs| - 1];
      TerminatedIsJoin(init, sep);
      assert Terminated(xs, sep) == Join(init, sep) + sep + xs[|xs| - 1] + sep;
    } else {
      assert xs[..0] == [];
    }
  }

  /** Joining one more item onto a list is the terminated list plus that item. */
  lemma JoinSnoc(xs: seq<string>, x: string, sep: string)
    ensures Join(xs + [x], sep) == Terminated(xs, sep) + x
  {
    assert (xs + [x])[..|xs|] == xs;
    if |xs| > 0 {
      TerminatedIsJoin(xs, sep);
    }
  }

  /** The last character of `x + y` for a non-empty `y`. */
  lemma LastOfAppend(x: string, y: string)
    requires y != ""
    ensures (x + y)[|x + y| - 1] == y[|y| - 1]
  {
  }

  lemma Assoc3(a: string, b: string, c: string)
    ensures a + (b + c) == a + b + c
  {
  }

  /** Regrouping a five-part concatenation. */
  lemma Assoc5(a: string, b: string, c: string, d: string, e: string)
    ensures a + (b + (c + d) + e) == a + b + c + d + e
    ensures a + (b + (c + d)) == a + b + c + d
  {
  }

  /** A list preceded item by item is `sep` plus the joined list. */
  lemma {:induction false} PrecededIsJoin(xs: seq<string>, sep: string)
    requires |xs| > 0
    ensures Preceded(xs, sep) == sep + Join(xs, sep)
  {
    if |xs| > 1 {
      var init := xs[..|xs| - 1];
      PrecededIsJoin(init, sep);
      assert Preceded(xs, sep) == sep + Join(init, sep) + sep + xs[|xs| - 1];
    } else {
      assert xs[..0] == [];
    }
  }

  /** Stripping a concatenation strips the right part first, and reaches the left one only when the right part vanishes. */
  lemma {:induction false} RStripAppend(x: string, y: string, chars: set<char>)
    ensures RStrip(x + y, chars) == if RStrip(y, chars) == "" then RStrip(x, chars) else x + RStrip(y, chars)
  {
    if y == [] {
      assert x + y == x;
    } else {
      var y' := y[..|y| - 1];
      assert (x + y)[..|x + y| - 1] == x + y';
      assert (x + y)[|x + y| - 1] == y[|y| - 1];
      if y[|y| - 1] in chars {
        RStripAppend(x, y', chars);
      }
    }
  }

  /** A string made only of stripped characters vanishes. */
  lemma {:induction false} RStripAll(s: string, chars: set<char>)
    requires forall k :: 0 <= k < |s| ==> s[k] in chars
    ensures RStrip(s, chars) == ""
  {
    if s != [] {
      RStripAll(s[..|s| - 1], chars);
    }
  }

  /** `x + y`, with `y` made only of stripped characters and `x` ending in a kept one, strips back to `x`. */
  lemma RStripTrailing(x: string, y: string, chars: set<char>)
    requires x != "" && x[|x| - 1] !in chars
    requires forall k :: 0 <= k < |y| ==> y[k] in chars
    ensures RStrip(x + y, chars) == x
  {
    RStripAll(y, chars);
    RStripAppend(x, y, chars);
  }

  /** Stripping `a + last + sep` when `sep` is made only of stripped characters. */
  lemma StripTail(a: string, last: string, sep: string, chars: set<char>)
    requires forall k :: 0 <= k < |sep| ==> sep[k] in chars
    ensures RStrip(a + last + sep, chars) ==
      (if RStrip(last, chars) == "" then RStrip(a, chars) else a + RStrip(last, chars))
  {
    RStripAll(sep, chars);
    RStripAppend(a + last, sep, chars);
    RStripAppend(a, last, chars);
  }

  /** The stem of a name without '/' has no '/' either. */
  lemma StemKeepsSlashFree(s: string)
    requires '/' !in s
    ensures '/' !in Stem(s)
  {
    var r := Stem(s);
    assert r == s[..|r|];
    forall k | 0 <= k < |r| ensures r[k] != '/' {
      assert r[k] == s[k];
    }
  }

  /** The decimal digit of `d`. */
  function Digit(d: nat): char
    requires d < 10
  {
    "0123456789"[d]
  }

  /** The value of a string of decimal digits. */
  function DigitsValue(s: string): nat
    requires forall k :: 0 <= k < |s| ==> '0' <= s[k] <= '9'
  {
    if |s| == 0 then 0
    else 10 * DigitsValue(s[..|s| - 1]) + ((s[|s| - 1] as int) - ('0' as int))
  }

  /** `str(n)` of a non-negative integer: its decimal digits, without leading zeros. */
  function Decimal(n: nat): (r: string)
    ensures |r| > 0 && forall k :: 0 <= k < |r| ==> '0' <= r[k] <= '9'
    ensures |r| > 1 ==> r[0] != '0'
  {
    if n < 10 then [Digit(n)] else Decimal(n / 10) + [Digit(n % 10)]
  }

  /** Reading the digits of `str(n)` back gives `n`. */
  lemma {:induction false} DecimalRoundTrip(n: nat)
    ensures DigitsValue(Decimal(n)) == n
  {
    if n >= 10 {
      DecimalRoundTrip(n / 10);
      var r := Decimal(n);
      assert r[..|r| - 1] == Decimal(n / 10);
    }
  }
}
