/**
 * Normalising domain weights to percentages: each share is rounded half-to-even and the first largest
 * weight absorbs the rounding error. Weights are exact rationals here.
 */
module WeightNormalisation {
  import opened Sequences

  /** Python's `round` to an integer. */
  function RoundHalfEven(x: real): int {
    var f := x.Floor;
    var d := x - f as real;
    if d < 0.5 then f else if d > 0.5 then f + 1 else if f % 2 == 0 then f else f + 1
  }

  /** `r` is off from `x` by at most a half, and by exactly a half, on either side, only if it is even. */
  predicate Nearest(x: real, r: int) {
    && -0.5 <= r as real - x <= 0.5
    && (r as real - x == 0.5 || r as real - x == -0.5 ==> r % 2 == 0)
  }

  /** Rounding gives the nearest integer, the even one of two, and no other integer is that. */
  lemma RoundClose(x: real)
    ensures forall r: int :: Nearest(x, r) <==> r == RoundHalfEven(x)
    ensures x >= 0.0 ==> RoundHalfEven(x) >= 0
  {
    forall r: int | Nearest(x, r) ensures r == RoundHalfEven(x) {
      OnlyNearest(x, r);
    }
    assert Nearest(x, RoundHalfEven(x));
  }

  lemma OnlyNearest(x: real, r: int)
    requires Nearest(x, r)
    ensures r == RoundHalfEven(x)
  {
    var f := x.Floor;
    assert f as real <= x < (f + 1) as real;
    assert (f - 1) as real < r as real < (f + 2) as real;
  }

  function Sum(ws: seq<real>): real {
    if ws == [] then 0.0 else Sum(ws[..|ws| - 1]) + ws[|ws| - 1]
  }

  function Share(w: real, total: real): real
    requires total > 0.0
  {
    w / total * 100.0
  }

  function Rounded(ws: seq<real>, total: real): seq<int>
    requires total > 0.0
  {
    seq(|ws|, i requires 0 <= i < |ws| => RoundHalfEven(Share(ws[i], total)))
  }

  /** `max(domains, key=...)`: the first index with the largest value. */
  function FirstMax(rs: seq<int>): (m: nat)
    requires rs != []
    ensures m < |rs| && (forall j :: 0 <= j < |rs| ==> rs[j] <= rs[m]) && (forall j :: 0 <= j < m ==> rs[j] < rs[m])
  {
    if |rs| == 1 then 0
    else
      var n := |rs| - 1;
      var m := FirstMax(rs[..n]);
      if rs[n] > rs[..n][m] then n else m
  }

  /** The rounding error the largest weight absorbs. */
  function Correction(ws: seq<real>): int
    requires Sum(ws) > 0.0
  {
    100 - SumOf(Rounded(ws, Sum(ws)))
  }

  lemma PositiveIsNonempty(ws: seq<real>)
    requires Sum(ws) > 0.0
    ensures ws != []
  {
  }

  function AsReals(rs: seq<int>): seq<real> {
    seq(|rs|, i requires 0 <= i < |rs| => rs[i] as real)
  }

  predicate NeedsWork(ws: seq<real>) {
    Sum(ws) != 100.0 && Sum(ws) > 0.0
  }

  function Corrected(ws: seq<real>): (rs: seq<int>)
    requires Sum(ws) > 0.0
    ensures |rs| == |ws|
  {
    PositiveIsNonempty(ws);
    var rs := Rounded(ws, Sum(ws));
    var m := FirstMax(rs);
    rs[m := rs[m] + Correction(ws)]
  }

  function Normalised(ws: seq<real>): (r: seq<real>)
    ensures |r| == |ws|
  {
    if NeedsWork(ws) then AsReals(Corrected(ws)) else ws
  }

  // ---------------------------------------------------------------- the code

  type Domains = seq<(string, real)>

  function Weights(domains: Domains): seq<real> {
    seq(|domains|, i requires 0 <= i < |domains| => domains[i].1)
  }

  /** `sum(domains.values())` */
  method Total(domains: Domains) returns (total: real)
    ensures total == Sum(Weights(domains))
  {
    var ws := Weights(domains);
    total := 0.0;
    for i := 0 to |domains|
      invariant total == Sum(ws[..i])
    {
      assert ws[..i + 1][..i] == ws[..i];
      total := total + domains[i].1;
    }
    assert ws[..|ws|] == ws;
  }

  /** `max(domains, key=...)` */
  method IndexOfMax(rs: seq<int>) returns (best: nat)
    requires rs != []
    ensures best == FirstMax(rs)
  {
    best := 0;
    for i := 1 to |rs|
      invariant best < i && best == FirstMax(rs[..i])
    {
      assert rs[..i + 1][..i] == rs[..i];
      if rs[i] > rs[best] {
        best := i;
      }
    }
    assert rs[..|rs|] == rs;
  }

  /** The comprehension that rounds every share, and the sum of what it produces. */
  method RoundAll(domains: Domains, total: real) returns (rounded: seq<int>, sum: int)
    requires total > 0.0
    ensures rounded == Rounded(Weights(domains), total) && sum == SumOf(rounded)
  {
    rounded, sum := [], 0;
    for i := 0 to |domains|
      invariant |rounded| == i && forall j :: 0 <= j < i ==> rounded[j] == RoundHalfEven(Share(domains[j].1, total))
      invariant sum == SumOf(rounded)
    {
      var r := RoundHalfEven(Share(domains[i].1, total));
      assert (rounded + [r])[..i] == rounded;
      rounded := rounded + [r];
      sum := sum + r;
    }
  }

  /** The first largest value absorbs a difference. */
  method CorrectLargest(rounded: seq<int>, diff: int) returns (values: seq<int>)
    requires rounded != []
    ensures values == rounded[FirstMax(rounded) := rounded[FirstMax(rounded)] + diff]
  {
    values := rounded;
    if diff != 0 {
      var largest := IndexOfMax(values);
      values := values[largest := values[largest] + diff];
    }
  }

  /** The dictionary is an insertion-ordered list of entries; its keys and their order never change. */
  method NormaliseWeights(domains: Domains) returns (result: Domains)
    ensures |result| == |domains| && forall i :: 0 <= i < |domains| ==> result[i].0 == domains[i].0
    ensures Weights(result) == Normalised(Weights(domains))
  {
    result := domains;
    var total := Total(domains);
    if total != 100.0 && total > 0.0 {
      PositiveIsNonempty(Weights(domains));
      var values, sum := RoundAll(domains, total);
      values := CorrectLargest(values, 100 - sum);
      result := seq(|domains|, i requires 0 <= i < |domains| => (domains[i].0, values[i] as real));
    }
  }

  // ---------------------------------------------------------------- sums

  lemma {:induction false} SharesSum(ws: seq<real>, total: real, shares: seq<real>)
    requires total > 0.0 && |shares| == |ws| && forall i :: 0 <= i < |ws| ==> shares[i] == Share(ws[i], total)
    ensures Sum(shares) == Share(Sum(ws), total)
  {
    if ws != [] {
      var n := |ws| - 1;
      SharesSum(ws[..n], total, shares[..n]);
      ShareAdds(Sum(ws[..n]), ws[n], total);
    } else {
      assert shares == [];
    }
  }

  lemma ShareAdds(a: real, b: real, total: real)
    requires total > 0.0
    ensures Share(a + b, total) == Share(a, total) + Share(b, total)
  {
    assert (a + b) / total == a / total + b / total;
  }

  lemma ShareOfTotal(total: real)
    requires total > 0.0
    ensures Share(total, total) == 100.0
  {
  }

  /** Rounding errors accumulate to at most n/2, and to exactly n/2 only if every one of them is 1/2. */
  lemma {:induction false} ErrorsBounded(rs: seq<int>, shares: seq<real>)
    requires |rs| == |shares| && forall i :: 0 <= i < |rs| ==> -0.5 <= rs[i] as real - shares[i] <= 0.5
    ensures var n := |rs| as real; -n / 2.0 <= SumOf(rs) as real - Sum(shares) <= n / 2.0
    ensures SumOf(rs) as real - Sum(shares) == |rs| as real / 2.0 ==>
      forall i :: 0 <= i < |rs| ==> rs[i] as real - shares[i] == 0.5
  {
    if rs != [] {
      var n := |rs| - 1;
      ErrorsBounded(rs[..n], shares[..n]);
    }
  }

  function Shares(ws: seq<real>): seq<real>
    requires Sum(ws) > 0.0
  {
    seq(|ws|, i requires 0 <= i < |ws| => Share(ws[i], Sum(ws)))
  }

  lemma RoundedVersusShares(ws: seq<real>)
    requires Sum(ws) > 0.0
    ensures Sum(Shares(ws)) == 100.0
    ensures forall i :: 0 <= i < |ws| ==> -0.5 <= Rounded(ws, Sum(ws))[i] as real - Shares(ws)[i] <= 0.5
    ensures -(|ws| as real) / 2.0 <= Correction(ws) as real <= |ws| as real / 2.0
  {
    SharesSum(ws, Sum(ws), Shares(ws));
    ShareOfTotal(Sum(ws));
    forall i | 0 <= i < |ws| ensures -0.5 <= Rounded(ws, Sum(ws))[i] as real - Shares(ws)[i] <= 0.5 {
      RoundClose(Shares(ws)[i]);
    }
    ErrorsBounded(Rounded(ws, Sum(ws)), Shares(ws));
  }

  lemma {:induction false} SumUpdate(rs: seq<int>, m: nat, x: int)
    requires m < |rs|
    ensures SumOf(rs[m := x]) == SumOf(rs) - rs[m] + x
  {
    var n := |rs| - 1;
    if m == n {
      assert rs[m := x][..n] == rs[..n];
    } else {
      assert rs[m := x][..n] == rs[..n][m := x];
      SumUpdate(rs[..n], m, x);
    }
  }

  lemma {:induction false} SumOfReals(rs: seq<int>)
    ensures Sum(AsReals(rs)) == SumOf(rs) as real
  {
    if rs != [] {
      var n := |rs| - 1;
      assert AsReals(rs)[..n] == AsReals(rs[..n]);
      SumOfReals(rs[..n]);
    }
  }

  // ---------------------------------------------------------------- what normalising guarantees

  /** The first of the largest values. */
  predicate FirstLargest(rs: seq<int>, m: int) {
    && 0 <= m < |rs| && (forall j :: 0 <= j < |rs| ==> rs[j] <= rs[m])
    && forall j :: 0 <= j < m ==> rs[j] < rs[m]
  }

  /** The result in terms of the shares: nearest integers, and the first largest one makes up what is missing. */
  lemma NormalisedExactly(ws: seq<real>, rs: seq<int>, m: nat)
    requires Sum(ws) > 0.0 && Sum(ws) != 100.0 && |rs| == |ws| && FirstLargest(rs, m)
    requires forall i :: 0 <= i < |ws| ==> Nearest(ws[i] / Sum(ws) * 100.0, rs[i])
    ensures forall i :: 0 <= i < |ws| ==>
      Normalised(ws)[i] == if i == m then (rs[i] + (100 - SumOf(rs))) as real else rs[i] as real
  {
    RoundedIs(ws, Sum(ws), rs);
  }

  lemma RoundedIs(ws: seq<real>, total: real, rs: seq<int>)
    requires total > 0.0 && |rs| == |ws| && forall i :: 0 <= i < |ws| ==> Nearest(ws[i] / total * 100.0, rs[i])
    ensures Rounded(ws, total) == rs
  {
    forall i | 0 <= i < |ws| ensures RoundHalfEven(Share(ws[i], total)) == rs[i] {
      RoundClose(Share(ws[i], total));
    }
  }

  /** Weights that already add up to 100, or have no positive total, stay as they are. */
  lemma LeftAlone(ws: seq<real>)
    requires Sum(ws) == 100.0 || Sum(ws) <= 0.0
    ensures Normalised(ws) == ws
  {
  }

  lemma {:induction false} SumAdds(a: seq<real>, b: seq<real>)
    ensures Sum(a + b) == Sum(a) + Sum(b)
    ensures forall x: real :: Sum([x]) == x
  {
    forall x: real ensures Sum([x]) == x {
      assert [x][..0] == [];
    }
    if b == [] {
      assert a + b == a;
    } else {
      var n := |b| - 1;
      assert (a + b)[..|a + b| - 1] == a + b[..n];
      SumAdds(a, b[..n]);
    }
  }

  /** Ties go to the even neighbour, down as well as up: 37.5 becomes 38 and 62.5 becomes 62. */
  lemma TiesToEven()
    ensures Normalised([3.0, 5.0]) == [38.0, 62.0]
  {
    var ws := [3.0, 5.0];
    SumAdds([3.0], [5.0]);
    assert [3.0] + [5.0] == ws;
    assert SumOf([38, 62]) == 100 by {
      assert [38, 62][..1] == [38] && [38][..0] == [];
    }
    NormalisedExactly(ws, [38, 62], 1);
  }

  /** The result adds up to exactly 100 if and only if the total was positive. */
  lemma SumsToHundred(ws: seq<real>)
    ensures Sum(Normalised(ws)) == 100.0 <==> Sum(ws) > 0.0
  {
    if NeedsWork(ws) {
      PositiveIsNonempty(ws);
      var rs := Rounded(ws, Sum(ws));
      var m := FirstMax(rs);
      SumUpdate(rs, m, rs[m] + Correction(ws));
      SumOfReals(Corrected(ws));
    }
  }

  /**
   * For any positive total the correction is at most n/2 in size and every weight but the corrected one
   * lies within 1/2 of its exact share.
   */
  lemma StaysCloseToShares(ws: seq<real>)
    requires Sum(ws) > 0.0
    ensures ws != [] && -(|ws| as real) / 2.0 <= Correction(ws) as real <= |ws| as real / 2.0
    ensures forall i :: 0 <= i < |ws| && i != FirstMax(Rounded(ws, Sum(ws))) ==>
      -0.5 <= Normalised(ws)[i] - Share(ws[i], Sum(ws)) <= 0.5
  {
    PositiveIsNonempty(ws);
    RoundedVersusShares(ws);
    if Sum(ws) == 100.0 {
      forall i | 0 <= i < |ws| ensures Normalised(ws)[i] == Share(ws[i], Sum(ws)) {
        assert ws[i] / 100.0 * 100.0 == ws[i];
      }
    } else {
      forall i | 0 <= i < |ws| && i != FirstMax(Rounded(ws, Sum(ws)))
        ensures -0.5 <= Normalised(ws)[i] - Share(ws[i], Sum(ws)) <= 0.5
      {
        assert Normalised(ws)[i] == Rounded(ws, Sum(ws))[i] as real && Shares(ws)[i] == Share(ws[i], Sum(ws));
      }
    }
  }

  ghost predicate NonNegative(ws: seq<real>) {
    forall i :: 0 <= i < |ws| ==> ws[i] >= 0.0
  }

  lemma {:induction false} SumAtMost(rs: seq<int>, m: int)
    requires forall i :: 0 <= i < |rs| ==> rs[i] <= m
    ensures SumOf(rs) <= |rs| * m
  {
    if rs != [] {
      SumAtMost(rs[..|rs| - 1], m);
    }
  }

  /** The one way sixteen or fewer weights could overdraw the largest: eight lost to sixteen halves. */
  lemma OnlySixteenHalves(n: nat, m: int, e: int)
    requires n <= 16 && 2 * e <= n && 100 + e <= n * m && 0 <= m < e
    ensures n == 16 && e == 8
  {
    assert n * m <= 16 * m;
  }

  /** If every rounding error is a full half then every rounded weight is even. */
  lemma HalvesAreEven(ws: seq<real>)
    requires Sum(ws) > 0.0 && Correction(ws) as real == -(|ws| as real) / 2.0
    ensures forall i :: 0 <= i < |ws| ==> Rounded(ws, Sum(ws))[i] % 2 == 0
  {
    RoundedVersusShares(ws);
    ErrorsBounded(Rounded(ws, Sum(ws)), Shares(ws));
    forall i | 0 <= i < |ws| ensures Rounded(ws, Sum(ws))[i] % 2 == 0 {
      HalfIsEven(Shares(ws)[i], Rounded(ws, Sum(ws))[i]);
    }
  }

  lemma HalfIsEven(x: real, r: int)
    requires r == RoundHalfEven(x) && r as real - x == 0.5
    ensures r % 2 == 0
  {
    RoundClose(x);
    assert Nearest(x, r);
  }

  /** The largest rounded weight covers the error, up to sixteen weights. */
  lemma LargestCoversError(ws: seq<real>)
    requires Sum(ws) > 0.0 && NonNegative(ws) && 0 < |ws| <= 16
    ensures var rs := Rounded(ws, Sum(ws)); rs[FirstMax(rs)] + Correction(ws) >= 0
  {
    var rs := Rounded(ws, Sum(ws));
    var m, e, n := rs[FirstMax(rs)], -Correction(ws), |ws|;
    RoundedVersusShares(ws);
    HalfBound(n, e);
    SumAtMost(rs, m);
    RoundedNonNegative(ws);
    if m < e {
      OnlySixteenHalves(n, m, e);
      HalvesAreEven(ws);
      SumAtMost(rs, 6);
      assert false;
    }
  }

  lemma HalfBound(n: nat, e: int)
    requires -(n as real) / 2.0 <= -e as real
    ensures 2 * e <= n
  {
  }

  lemma RoundedNonNegative(ws: seq<real>)
    requires Sum(ws) > 0.0 && NonNegative(ws)
    ensures forall i :: 0 <= i < |ws| ==> Rounded(ws, Sum(ws))[i] >= 0
  {
    forall i | 0 <= i < |ws| ensures Rounded(ws, Sum(ws))[i] >= 0 {
      assert ws[i] / Sum(ws) >= 0.0;
      RoundClose(Share(ws[i], Sum(ws)));
    }
  }

  lemma SixteenSafe(ws: seq<real>)
    requires NonNegative(ws) && |ws| <= 16
    ensures NonNegative(Normalised(ws))
  {
    if NeedsWork(ws) {
      PositiveIsNonempty(ws);
      LargestCoversError(ws);
      RoundedNonNegative(ws);
    }
  }

  // ---------------------------------------------------------------- seventeen weights can go negative

  function Repeat<T>(x: T, n: nat): seq<T> {
    seq(n, _ => x)
  }

  lemma {:induction false} SumRepeat(x: real, n: nat)
    ensures Sum(Repeat(x, n)) == x * n as real
  {
    if n > 0 {
      assert Repeat(x, n)[..n - 1] == Repeat(x, n - 1);
      SumRepeat(x, n - 1);
    }
  }

  lemma {:induction false} SumOfRepeat(x: int, n: nat)
    ensures SumOf(Repeat(x, n)) == x * n
  {
    if n > 0 {
      assert Repeat(x, n)[..n - 1] == Repeat(x, n - 1);
      SumOfRepeat(x, n - 1);
    }
  }

  lemma {:induction false} SumConcat(a: seq<real>, b: seq<real>)
    ensures Sum(a + b) == Sum(a) + Sum(b)
  {
    if b == [] {
      assert a + b == a;
    } else {
      assert (a + b)[..|a + b| - 1] == a + b[..|b| - 1];
      SumConcat(a, b[..|b| - 1]);
    }
  }

  /** Six weights of 111, eleven of 94 and any number of zeros. */
  function Overdrawn(n: nat): seq<real>
    requires n >= 17
  {
    Repeat(111.0, 6) + Repeat(94.0, 11) + Repeat(0.0, n - 17)
  }

  lemma OverdrawnTotal(n: nat)
    requires n >= 17
    ensures Sum(Overdrawn(n)) == 1700.0
  {
    SumRepeat(111.0, 6);
    SumRepeat(94.0, 11);
    SumRepeat(0.0, n - 17);
    SumConcat(Repeat(111.0, 6), Repeat(94.0, 11));
    SumConcat(Repeat(111.0, 6) + Repeat(94.0, 11), Repeat(0.0, n - 17));
  }

  lemma OverdrawnRounds(n: nat)
    requires n >= 17
    ensures var rs := Rounded(Overdrawn(n), 1700.0);
      SumOf(rs) == 108 && rs[0] == 7 && forall i :: 0 <= i < n ==> rs[i] <= 7
  {
    var rs := Repeat(7, 6) + Repeat(6, 11) + Repeat(0, n - 17);
    assert RoundHalfEven(Share(111.0, 1700.0)) == 7;
    assert RoundHalfEven(Share(94.0, 1700.0)) == 6;
    assert RoundHalfEven(Share(0.0, 1700.0)) == 0;
    assert Rounded(Overdrawn(n), 1700.0) == rs;
    SumOfRepeat(7, 6);
    SumOfRepeat(6, 11);
    SumOfRepeat(0, n - 17);
    SumOfConcat(Repeat(7, 6), Repeat(6, 11));
    SumOfConcat(Repeat(7, 6) + Repeat(6, 11), Repeat(0, n - 17));
  }

  /** From seventeen weights on, the correction can push the largest weight below zero. */
  lemma SeventeenFails(n: nat)
    requires n >= 17
    ensures NonNegative(Overdrawn(n)) && Normalised(Overdrawn(n))[0] == -1.0
  {
    var ws := Overdrawn(n);
    OverdrawnTotal(n);
    OverdrawnRounds(n);
    var rs := Rounded(ws, 1700.0);
    var m := FirstMax(rs);
    assert rs[0] <= rs[m];
    assert m == 0;
  }

  /** Non-negative weights stay non-negative for every input of size n if and only if n is at most 16. */
  lemma SixteenIsTheLimit(n: nat)
    ensures n <= 16 <==> forall ws :: |ws| == n && NonNegative(ws) ==> NonNegative(Normalised(ws))
  {
    if n <= 16 {
      forall ws | |ws| == n && NonNegative(ws) ensures NonNegative(Normalised(ws)) {
        SixteenSafe(ws);
      }
    } else {
      SeventeenFails(n);
      assert |Overdrawn(n)| == n && Normalised(Overdrawn(n))[0] < 0.0;
    }
  }
}
