/**
  The Gini coefficient of scripts/colony-census.ts, over post counts and over reaction counts: one
  pass over the ascending counts.
 */
module Census {

  function Total(s: seq<int>): int {
    if s == [] then 0 else s[0] + Total(s[1..])
  }

  function Abs(x: int): int {
    if x < 0 then -x else x
  }

  /** Sum of |x - y| over the elements y. */
  function SpreadAround(x: int, s: seq<int>): int {
    if s == [] then 0 else Abs(x - s[0]) + SpreadAround(x, s[1..])
  }

  /** Sum of the absolute differences of all unordered pairs: the numerator of the Gini coefficient
      in its textbook form. */
  function PairSpread(s: seq<int>): int {
    if s == [] then 0 else SpreadAround(s[0], s[1..]) + PairSpread(s[1..])
  }

  function Insert(x: int, s: seq<int>): seq<int> {
    if s == [] || x <= s[0] then [x] + s else [s[0]] + Insert(x, s[1..])
  }

  /** .sort((a, b) => a - b) */
  function Sorted(s: seq<int>): seq<int> {
    if s == [] then [] else Insert(s[0], Sorted(s[1..]))
  }

  predicate Ascending(s: seq<int>) {
    forall i, j :: 0 <= i < j < |s| ==> s[i] <= s[j]
  }

  predicate Counts(s: seq<int>) {
    forall i :: 0 <= i < |s| ==> s[i] >= 0
  }

  /** The terms the loop has added after n steps. */
  function Weighted(s: seq<int>, n: nat): int
    requires n <= |s|
  {
    if n == 0 then 0 else Weighted(s, n - 1) + (2 * n - |s| - 1) * s[n - 1]
  }

  /** The loop of both Gini computations; the coefficient itself is undefined for n or total 0. */
  method GiniNumerator(counts: seq<int>) returns (numerator: int, total: int)
    ensures numerator == PairSpread(counts) && total == Total(counts)
  {
    var sorted := Sorted(counts);
    var n := |sorted|;
    total := 0;
    for i := 0 to n
      invariant total + Total(sorted[i..]) == Total(sorted)
    {
      assert sorted[i..][1..] == sorted[i + 1..];
      total := total + sorted[i];
    }
    numerator := 0;
    for i := 0 to n
      invariant numerator == Weighted(sorted, i)
    {
      numerator := numerator + (2 * (i + 1) - n - 1) * sorted[i];
    }
    SortedIsFaithful(counts);
    WeightedIsPairSpread(sorted);
  }

  // ---------------------------------------------------------------- sorting does not matter

  lemma {:induction false} InsertIsFaithful(x: int, s: seq<int>)
    ensures Total(Insert(x, s)) == x + Total(s)
    ensures forall y :: SpreadAround(y, Insert(x, s)) == Abs(y - x) + SpreadAround(y, s)
    ensures PairSpread(Insert(x, s)) == SpreadAround(x, s) + PairSpread(s)
    ensures Ascending(s) ==> Ascending(Insert(x, s))
    ensures |Insert(x, s)| == |s| + 1 && forall y :: y in Insert(x, s) ==> y == x || y in s
  {
    if s == [] || x <= s[0] {
      assert ([x] + s)[1..] == s;
    } else {
      InsertIsFaithful(x, s[1..]);
      var r := Insert(x, s[1..]);
      assert ([s[0]] + r)[1..] == r;
      if Ascending(s) {
        forall i | 0 <= i < |r| ensures s[0] <= r[i] { assert r[i] in r; }
      }
    }
  }

  lemma {:induction false} SortedIsFaithful(s: seq<int>)
    ensures Ascending(Sorted(s)) && |Sorted(s)| == |s|
    ensures Total(Sorted(s)) == Total(s) && PairSpread(Sorted(s)) == PairSpread(s)
    ensures forall y :: SpreadAround(y, Sorted(s)) == SpreadAround(y, s)
    ensures forall y :: y in Sorted(s) ==> y in s
  {
    if s != [] {
      SortedIsFaithful(s[1..]);
      InsertIsFaithful(s[0], Sorted(s[1..]));
    }
  }

  // ---------------------------------------------------------------- the linear form

  lemma {:induction false} SpreadOfMinimum(x: int, s: seq<int>)
    requires forall i :: 0 <= i < |s| ==> x <= s[i]
    ensures SpreadAround(x, s) == Total(s) - |s| * x
  {
    if s != [] {
      SpreadOfMinimum(x, s[1..]);
      assert |s| * x == |s[1..]| * x + x;
    }
  }

  /** Dropping the smallest count lowers every other weight by one. */
  lemma {:induction false} WeightedTail(s: seq<int>, n: nat)
    requires 1 <= n <= |s|
    ensures Weighted(s, n) == (1 - |s|) * s[0] + Weighted(s[1..], n - 1) + Total(s[1..n])
  {
    if n == 1 {
      assert s[1..1] == [];
      assert Weighted(s, 1) == Weighted(s, 0) + (2 * 1 - |s| - 1) * s[0];
    } else {
      WeightedTail(s, n - 1);
      assert s[1..n] == s[1..n - 1] + [s[n - 1]];
      TotalAppend(s[1..n - 1], s[n - 1]);
      assert s[1..][n - 2] == s[n - 1];
      var w, t := 2 * n - |s| - 1, 2 * (n - 1) - |s[1..]| - 1;
      assert w == t + 1;
      assert w * s[n - 1] == t * s[n - 1] + s[n - 1];
    }
  }

  lemma {:induction false} TotalAppend(s: seq<int>, x: int)
    ensures Total(s + [x]) == Total(s) + x
  {
    if s == [] {
      assert s + [x] == [x];
    } else {
      assert (s + [x])[1..] == s[1..] + [x];
      TotalAppend(s[1..], x);
    }
  }

  /** The single pass over ascending counts computes the sum over all pairs. */
  lemma {:induction false} WeightedIsPairSpread(s: seq<int>)
    requires Ascending(s)
    ensures Weighted(s, |s|) == PairSpread(s)
  {
    if s != [] {
      var rest := s[1..];
      WeightedIsPairSpread(rest);
      WeightedTail(s, |s|);
      assert s[1..|s|] == rest;
      SpreadOfMinimum(s[0], rest);
      assert (1 - |s|) * s[0] == -(|rest| * s[0]);
    }
  }

  // ---------------------------------------------------------------- bounds

  lemma {:induction false} SpreadIsBounded(x: int, s: seq<int>)
    requires x >= 0 && Counts(s)
    ensures 0 <= SpreadAround(x, s) <= |s| * x + Total(s)
    ensures Total(s) >= 0
  {
    if s != [] {
      SpreadIsBounded(x, s[1..]);
      assert |s| * x == |s[1..]| * x + x;
    }
  }

  lemma {:induction false} SpreadIsZeroExactly(x: int, s: seq<int>)
    ensures SpreadAround(x, s) >= 0
    ensures SpreadAround(x, s) == 0 <==> forall i :: 0 <= i < |s| ==> s[i] == x
  {
    if s != [] {
      SpreadIsZeroExactly(x, s[1..]);
      assert s == [s[0]] + s[1..];
    }
  }

  /** The numerator lies between 0 and (n - 1) * total. */
  lemma {:induction false} NumeratorBounds(s: seq<int>)
    requires Counts(s)
    ensures 0 <= PairSpread(s) <= if s == [] then 0 else (|s| - 1) * Total(s)
  {
    hide SpreadAround;
    if s != [] {
      var rest := s[1..];
      NumeratorBounds(rest);
      SpreadIsBounded(s[0], rest);
      Expand(|rest|, s[0], Total(rest));
    }
  }

  lemma Expand(n: int, x: int, t: int)
    ensures n * (x + t) == (n - 1) * t + (n * x + t)
  {
  }

  /** It is 0 exactly when all counts are equal. */
  lemma {:induction false} ZeroMeansEqual(s: seq<int>)
    ensures PairSpread(s) >= 0
    ensures PairSpread(s) == 0 <==> forall i, j :: 0 <= i < j < |s| ==> s[i] == s[j]
  {
    hide SpreadAround;
    if s != [] {
      var rest := s[1..];
      ZeroMeansEqual(rest);
      SpreadIsZeroExactly(s[0], rest);
      assert s == [s[0]] + rest;
    }
  }

  function Gini(numerator: int, n: nat, total: int): real
    requires n > 0 && total != 0
  {
    numerator as real / (n * total) as real
  }

  /** So the coefficient of n counts that are not all zero lies between 0 and (n - 1) / n. */
  lemma GiniBounds(s: seq<int>)
    requires Counts(s) && Total(s) > 0
    ensures s != [] && 0.0 <= Gini(PairSpread(s), |s|, Total(s)) <= (|s| - 1) as real / |s| as real
  {
    NumeratorBounds(s);
    var n, t, p := |s|, Total(s), PairSpread(s);
    assert n * t > 0;
    var d := (n * t) as real;
    assert (n - 1) as real / n as real == ((n - 1) * t) as real / d by { Cancel(n - 1, n, t); }
    DivideBoth(p, (n - 1) * t, n * t);
  }

  lemma Cancel(a: int, n: int, t: int)
    requires n > 0 && t > 0 && n * t > 0
    ensures a as real / n as real == (a * t) as real / (n * t) as real
  {
    var x, y, z := a as real, n as real, t as real;
    assert (a * t) as real == x * z && (n * t) as real == y * z;
    assert x / y * (y * z) == x * z;
  }

  lemma DivideBoth(p: int, q: int, d: int)
    requires 0 <= p <= q && d > 0
    ensures 0.0 <= p as real / d as real <= q as real / d as real
  {
  }

  /** The upper bound is reached: when one of n has everything the coefficient is (n - 1) / n. */
  lemma OneHasEverything(n: nat, x: int)
    requires n > 0 && x > 0
    ensures var s := Zeros(n - 1) + [x];
      Counts(s) && |s| == n && Total(s) == x && Gini(PairSpread(s), n, Total(s)) == (n - 1) as real / n as real
  {
    var s := Zeros(n - 1) + [x];
    ZerosAndOne(n - 1, x);
    assert n * x > 0;
    Cancel(n - 1, n, x);
  }

  function Zeros(n: nat): (s: seq<int>)
    ensures |s| == n && forall i :: 0 <= i < n ==> s[i] == 0
  {
    if n == 0 then [] else [0] + Zeros(n - 1)
  }

  lemma {:induction false} ZerosAndOne(n: nat, x: int)
    requires x >= 0
    ensures var s := Zeros(n) + [x];
      Total(s) == x && SpreadAround(0, s) == x && PairSpread(s) == n * x
  {
    var s := Zeros(n) + [x];
    if n > 0 {
      ZerosAndOne(n - 1, x);
      assert s[1..] == Zeros(n - 1) + [x] && s[0] == 0;
      assert n * x == (n - 1) * x + x;
    }
  }
}
