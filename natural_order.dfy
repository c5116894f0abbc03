/**
 * The natural-order file name comparison of the image list (the fallback
 * comparator used when no `Intl.Collator` is available): both names are cut
 * into maximal runs of digits and of non-digits, runs are compared pairwise,
 * two digit runs by their decimal value and anything else by code-point order,
 * and a name that has run out of runs contributes the empty string.
 */
module NaturalOrder {

  /** `\d` in a JavaScript regular expression: the ASCII digits. */
  predicate IsDigit(ch: char) {
    '0' <= ch <= '9'
  }

  /** `/^\d+$/.test(s)`: a non-empty string of digits only. */
  predicate IsDigits(s: string) {
    |s| > 0 && forall i :: 0 <= i < |s| ==> IsDigit(s[i])
  }

  /** The value of one decimal digit. */
  function DigitValue(ch: char): (d: nat)
    requires IsDigit(ch)
    ensures d < 10
  {
    ch as int - '0' as int
  }

  /** `10` to the power `k`. */
  function Pow10(k: nat): (p: nat)
    ensures p >= 1
  {
    if k == 0 then 1 else 10 * Pow10(k - 1)
  }

  /** `parseInt(s, 10)` on a digit run, without the rounding of a double: below `10` to the run's length. */
  function ParseDigits(s: string): (n: nat)
    requires IsDigits(s)
    ensures n < Pow10(|s|)
  {
    if |s| == 1 then DigitValue(s[0])
    else 10 * ParseDigits(s[..|s| - 1]) + DigitValue(s[|s| - 1])
  }

  /** Leading zeros do not change the value: `parseInt("007", 10)` is `7`. */
  lemma {:induction false} ParseDigitsLeadingZero(s: string)
    requires IsDigits(s)
    ensures IsDigits("0" + s) && ParseDigits("0" + s) == ParseDigits(s)
  {
    var z := "0" + s;
    if |s| == 1 {
      assert z[..1] == "0";
    } else {
      assert z[..|z| - 1] == "0" + s[..|s| - 1];
      assert z[|z| - 1] == s[|s| - 1];
      ParseDigitsLeadingZero(s[..|s| - 1]);
    }
  }

  /**
   * Code-point comparison of two strings, standing for `localeCompare`:
   * negative, zero or positive as `a` sorts before, with or after `b`.
   */
  function LexCompare(a: string, b: string): (r: int)
    ensures -1 <= r <= 1
    ensures r == 0 <==> a == b
  {
    if |a| == 0 && |b| == 0 then 0
    else if |a| == 0 then -1
    else if |b| == 0 then 1
    else if a[0] < b[0] then -1
    else if a[0] > b[0] then 1
    else
      assert a == [a[0]] + a[1..] && b == [b[0]] + b[1..];
      LexCompare(a[1..], b[1..])
  }

  /** Swapping the arguments of the code-point comparison negates it. */
  lemma {:induction false} LexCompareAntisymmetric(a: string, b: string)
    ensures LexCompare(b, a) == -LexCompare(a, b)
  {
    if |a| > 0 && |b| > 0 && a[0] == b[0] {
      LexCompareAntisymmetric(a[1..], b[1..]);
    }
  }

  /** Every character of `s` is of the same kind (digit or not) as the first. */
  predicate Uniform(s: string) {
    UniformUpTo(s, |s|)
  }

  /** The first `n` characters of `s` are of the same kind as the first. */
  predicate UniformUpTo(s: string, n: nat)
    requires n <= |s|
  {
    forall i :: 0 <= i < n ==> IsDigit(s[i]) == IsDigit(s[0])
  }

  /** The length of the first maximal run of `s` (see RunLengthMaximal). */
  function RunLength(s: string): (n: nat)
    requires |s| > 0
    ensures 1 <= n <= |s|
  {
    if |s| == 1 || IsDigit(s[1]) != IsDigit(s[0]) then 1 else 1 + RunLength(s[1..])
  }

  /** The first run is of one kind, and the character after it is of the other kind. */
  lemma {:induction false} RunLengthMaximal(s: string)
    requires |s| > 0
    ensures UniformUpTo(s, RunLength(s))
    ensures RunLength(s) < |s| ==> IsDigit(s[RunLength(s)]) != IsDigit(s[0])
  {
    if |s| > 1 && IsDigit(s[1]) == IsDigit(s[0]) {
      RunLengthMaximal(s[1..]);
      assert forall i :: 1 <= i < |s| ==> s[i] == s[1..][i - 1];
    }
  }

  /** A string of one kind of character is one run. */
  lemma {:induction false} RunLengthUniform(s: string)
    requires |s| > 0 && Uniform(s)
    ensures RunLength(s) == |s|
  {
    if |s| > 1 {
      assert IsDigit(s[1]) == IsDigit(s[0]);
      assert forall i :: 0 <= i < |s| - 1 ==> s[1..][i] == s[i + 1];
      RunLengthUniform(s[1..]);
    }
  }

  /** The first run of `u + v` is that of `u` when `v` starts with the other kind of character. */
  lemma {:induction false} RunLengthJoin(u: string, v: string)
    requires |u| > 0 && |v| > 0 && IsDigit(Last(u)) != IsDigit(v[0])
    ensures RunLength(u + v) == RunLength(u)
  {
    var w := u + v;
    if |u| == 1 {
      assert w[1] == v[0];
    } else {
      assert w[1] == u[1];
      if IsDigit(u[1]) == IsDigit(u[0]) {
        assert w[1..] == u[1..] + v;
        RunLengthJoin(u[1..], v);
      }
    }
  }

  /** All strings of `xs`, one after the other. */
  function Concat(xs: seq<string>): string {
    if |xs| == 0 then [] else xs[0] + Concat(xs[1..])
  }

  /** The last character of a non-empty string. */
  function Last(s: string): char
    requires |s| > 0
  {
    s[|s| - 1]
  }

  /**
   * `s.split(/(\d+)/).filter(Boolean)`: the maximal runs of digits and of
   * non-digits of `s`, in order and without empty pieces (see RunsSplit).
   */
  function Runs(s: string): seq<string>
    decreases |s|
  {
    if |s| == 0 then []
    else
      var n := RunLength(s);
      [s[..n]] + Runs(s[n..])
  }

  /**
   * The runs put back together give the name again; each run is non-empty and
   * of one kind, and neighbouring runs are of different kinds (so each is maximal).
   */
  lemma RunsSplit(s: string)
    ensures Concat(Runs(s)) == s
    ensures forall k :: 0 <= k < |Runs(s)| ==> |Runs(s)[k]| > 0 && Uniform(Runs(s)[k])
    ensures forall k :: 0 <= k < |Runs(s)| - 1 ==> IsDigit(Last(Runs(s)[k])) != IsDigit(Runs(s)[k + 1][0])
  {
    RunsConcat(s);
    RunsUniform(s);
    RunsAlternate(s);
  }

  lemma {:induction false} RunsConcat(s: string)
    ensures Concat(Runs(s)) == s
    decreases |s|
  {
    if |s| > 0 {
      var n := RunLength(s);
      RunsConcat(s[n..]);
      assert Runs(s) == [s[..n]] + Runs(s[n..]);
      assert s == s[..n] + s[n..];
    }
  }

  lemma {:induction false} RunsUniform(s: string)
    ensures forall k :: 0 <= k < |Runs(s)| ==> |Runs(s)[k]| > 0 && Uniform(Runs(s)[k])
    decreases |s|
  {
    if |s| > 0 {
      var n := RunLength(s);
      var r, rest := Runs(s), Runs(s[n..]);
      RunLengthMaximal(s);
      RunsUniform(s[n..]);
      assert r == [s[..n]] + rest;
      assert Uniform(s[..n]) by {
        assert forall i :: 0 <= i < n ==> s[..n][i] == s[i];
      }
      assert forall k :: 1 <= k < |r| ==> r[k] == rest[k - 1];
    }
  }

  lemma {:induction false} RunsAlternate(s: string)
    ensures forall k :: 0 <= k < |Runs(s)| - 1 && |Runs(s)[k]| > 0 && |Runs(s)[k + 1]| > 0 ==>
      IsDigit(Last(Runs(s)[k])) != IsDigit(Runs(s)[k + 1][0])
    decreases |s|
  {
    if |s| > 0 {
      var n := RunLength(s);
      var r, rest := Runs(s), Runs(s[n..]);
      RunLengthMaximal(s);
      RunsAlternate(s[n..]);
      assert r == [s[..n]] + rest;
      assert Last(s[..n]) == s[n - 1];
      if n < |s| {
        assert rest == [s[n..][..RunLength(s[n..])]] + Runs(s[n..][RunLength(s[n..])..]);
        assert rest[0][0] == s[n];
        assert IsDigit(s[n - 1]) == IsDigit(s[0]) by {
          assert UniformUpTo(s, n);
        }
      }
      assert forall k :: 1 <= k < |r| - 1 ==> r[k] == rest[k - 1] && r[k + 1] == rest[k];
    }
  }

  /** Digit runs are numbers; any other pair of runs compares by code point. */
  function CompareRun(x: string, y: string): int {
    if IsDigits(x) && IsDigits(y) then ParseDigits(x) - ParseDigits(y) else LexCompare(x, y)
  }

  /** `xs[i] ?? ''`. */
  function RunAt(xs: seq<string>, i: nat): string {
    if i < |xs| then xs[i] else ""
  }

  /** The comparison from run index `i` on: the first pair of runs that differ decides. */
  function CompareRunsFrom(xs: seq<string>, ys: seq<string>, i: nat): int
    decreases |xs| + |ys| - i
  {
    if i >= |xs| && i >= |ys| then 0
    else
      var c := CompareRun(RunAt(xs, i), RunAt(ys, i));
      if c != 0 then c else CompareRunsFrom(xs, ys, i + 1)
  }

  /** The natural-order comparison of two file names: negative, zero or positive. */
  function NaturalCompare(a: string, b: string): int {
    CompareRunsFrom(Runs(a), Runs(b), 0)
  }

  /** Swapping the names negates the comparison, so a sort by it never sees `a < b` and `b < a` together. */
  lemma NaturalCompareAntisymmetric(a: string, b: string)
    ensures NaturalCompare(b, a) == -NaturalCompare(a, b)
  {
    CompareRunsFromAntisymmetric(Runs(a), Runs(b), 0);
  }

  lemma {:induction false} CompareRunsFromAntisymmetric(xs: seq<string>, ys: seq<string>, i: nat)
    ensures CompareRunsFrom(ys, xs, i) == -CompareRunsFrom(xs, ys, i)
    decreases |xs| + |ys| - i
  {
    if i < |xs| || i < |ys| {
      LexCompareAntisymmetric(RunAt(xs, i), RunAt(ys, i));
      CompareRunsFromAntisymmetric(xs, ys, i + 1);
    }
  }

  /** Every name compares equal to itself. */
  lemma NaturalCompareReflexive(a: string)
    ensures NaturalCompare(a, a) == 0
  {
    var xs := Runs(a);
    CompareRunsFromSkip(xs, xs, 0, |xs|);
  }

  /** Runs that are equal on both sides from `i` up to `j` do not decide the comparison. */
  lemma {:induction false} CompareRunsFromSkip(xs: seq<string>, ys: seq<string>, i: nat, j: nat)
    requires i <= j <= |xs| && j <= |ys|
    requires forall k :: i <= k < j ==> xs[k] == ys[k]
    ensures CompareRunsFrom(xs, ys, i) == CompareRunsFrom(xs, ys, j)
    decreases j - i
  {
    if i < j {
      assert CompareRun(xs[i], ys[i]) == 0;
      CompareRunsFromSkip(xs, ys, i + 1, j);
    }
  }

  /** A string of one kind of character is a single run. */
  lemma RunsOfUniform(u: string)
    requires |u| > 0 && Uniform(u)
    ensures Runs(u) == [u]
  {
    RunLengthUniform(u);
    assert u[..|u|] == u;
  }

  /** Where two strings meet with a change of kind, their runs are those of each side. */
  lemma {:induction false} RunsJoin(u: string, v: string)
    requires |u| > 0 && |v| > 0 && IsDigit(Last(u)) != IsDigit(v[0])
    ensures Runs(u + v) == Runs(u) + Runs(v)
    decreases |u|
  {
    var n := RunLength(u);
    var w := u + v;
    RunLengthJoin(u, v);
    assert w[..n] == u[..n];
    assert w[n..] == u[n..] + v;
    if n < |u| {
      assert Last(u[n..]) == Last(u);
      calc {
        Runs(w);
        [w[..n]] + Runs(w[n..]);
        [u[..n]] + Runs(u[n..] + v);
        { RunsJoin(u[n..], v); }
        [u[..n]] + (Runs(u[n..]) + Runs(v));
        ([u[..n]] + Runs(u[n..])) + Runs(v);
        Runs(u) + Runs(v);
      }
    } else {
      assert |u[n..]| == 0 && u[..n] == u;
      assert w[..n] == u && w[n..] == v;
      calc {
        Runs(w);
        [w[..n]] + Runs(w[n..]);
        [u] + Runs(v);
        { assert Runs(u) == [u[..n]] + Runs(u[n..]) == [u]; }
        Runs(u) + Runs(v);
      }
    }
  }

  /**
   * Digit runs compare by value: two names that differ only in one digit run,
   * with no digit on either side of it, compare as the two numbers do.
   */
  lemma DigitRunsCompareNumerically(p: string, d: string, e: string, s: string)
    requires IsDigits(d) && IsDigits(e)
    requires |p| == 0 || !IsDigit(Last(p))
    requires |s| == 0 || !IsDigit(s[0])
    ensures NaturalCompare(p + (d + s), p + (e + s)) == ParseDigits(d) - ParseDigits(e)
  {
    RunsAroundDigits(p, d, s);
    RunsAroundDigits(p, e, s);
    CompareAtOneRun(Runs(p), d, e, Runs(s));
  }

  /** Run sequences that agree except at one position compare as the runs there do. */
  lemma CompareAtOneRun(ps: seq<string>, x: string, y: string, ss: seq<string>)
    ensures CompareRunsFrom(ps + ([x] + ss), ps + ([y] + ss), 0) == CompareRun(x, y)
  {
    var xs, ys := ps + ([x] + ss), ps + ([y] + ss);
    var m := |ps|;
    CompareRunsFromSkip(xs, ys, 0, m);
    assert RunAt(xs, m) == x && RunAt(ys, m) == y;
    CompareRunsFromSkip(xs, ys, m + 1, |xs|);
  }

  lemma RunsAroundDigits(p: string, d: string, s: string)
    requires IsDigits(d)
    requires |p| == 0 || !IsDigit(Last(p))
    requires |s| == 0 || !IsDigit(s[0])
    ensures Runs(p + (d + s)) == Runs(p) + ([d] + Runs(s))
  {
    var t := d + s;
    RunsDigitsThen(d, s);
    if |p| == 0 {
      assert p + t == t;
    } else {
      RunsJoinDigits(p, t);
    }
  }

  lemma RunsJoinDigits(p: string, t: string)
    requires |p| > 0 && !IsDigit(Last(p))
    requires |t| > 0 && IsDigit(t[0])
    ensures Runs(p + t) == Runs(p) + Runs(t)
  {
    RunsJoin(p, t);
  }

  lemma RunsDigitsThen(d: string, s: string)
    requires IsDigits(d)
    requires |s| == 0 || !IsDigit(s[0])
    ensures |d + s| > 0 && IsDigit((d + s)[0])
    ensures Runs(d + s) == [d] + Runs(s)
  {
    assert Uniform(d);
    RunsOfUniform(d);
    if |s| > 0 {
      assert IsDigit(Last(d));
      RunsJoin(d, s);
    } else {
      assert d + s == d;
    }
  }

  /** The comparator itself, as the source writes it: a loop over run positions with early returns. */
  method CompareNames(a: string, b: string) returns (c: int)
    ensures c == NaturalCompare(a, b)
  {
    var ax := Runs(a);
    var bx := Runs(b);
    var len := if |ax| >= |bx| then |ax| else |bx|;
    for i := 0 to len
      invariant CompareRunsFrom(ax, bx, i) == NaturalCompare(a, b)
    {
      var ra := RunAt(ax, i);
      var rb := RunAt(bx, i);
      if IsDigits(ra) && IsDigits(rb) {
        var an: int := ParseDigits(ra);
        var bn: int := ParseDigits(rb);
        if an != bn {
          return an - bn;
        }
      } else {
        var cmp := LexCompare(ra, rb);
        if cmp != 0 {
          return cmp;
        }
      }
    }
    return 0;
  }
}
