/**
 * Recovering the JSON object or array from a model reply: fence unwrapping, a bounded retry over
 * opening brackets, objects before arrays. `loads` stands for "json.loads does not raise ValueError".
 */
module JsonExtract {
  import opened PyText
  import opened JsonScan

  const FENCE := "```"
  const MAX_TRIES: nat := 20

  // ---------------------------------------------------------------- what the extraction must return

  /** How many opening brackets come before position `n`. */
  function Openers(t: string, c: char, n: nat): nat
    requires n <= |t|
  {
    if n == 0 then 0 else Openers(t, c, n - 1) + (if t[n - 1] == c then 1 else 0)
  }

  /** A run the pass may return: it starts at one of the first twenty openers, balances and parses. */
  ghost predicate Wins(t: string, p: Pair, loads: string -> bool, s: int, e: int) {
    ClosesAt(t, s, e, p) && Openers(t, p.open, s) < MAX_TRIES && loads(t[s..e])
  }

  ghost predicate PassFails(t: string, p: Pair, loads: string -> bool) {
    forall s, e :: !Wins(t, p, loads, s, e)
  }

  /** `r` is the winning run that starts first. */
  ghost predicate PassYields(t: string, p: Pair, loads: string -> bool, r: string) {
    exists s, e :: Wins(t, p, loads, s, e) && r == t[s..e] && forall s', e' :: Wins(t, p, loads, s', e') ==> s <= s'
  }

  /** The whole search over a text that is already unwrapped. */
  ghost predicate Extracts(t: string, loads: string -> bool, r: string) {
    || PassYields(t, BRACES, loads, r)
    || (PassFails(t, BRACES, loads) && PassYields(t, BRACKETS, loads, r))
    || (PassFails(t, BRACES, loads) && PassFails(t, BRACKETS, loads) && r == if t == "" then "{}" else t)
  }

  /** The reply without surrounding white space and without a fence around all of it. */
  function Body(text: Option<string>): string {
    var t := Strip(text.GetOr(""));
    if !(FENCE <= t) then t
    else
      var nl, last := Find(t, '\n', 0), RFind(t, FENCE);
      if nl != -1 && last > nl then Strip(t[nl + 1..last]) else t
  }

  // ---------------------------------------------------------------- the scanner

  /** The character loop: the end of the balanced run that starts at `start`, or -1. */
  method BalancedEnd(t: string, start: nat, p: Pair) returns (e: int)
    requires start < |t| && t[start] == p.open && IsPass(p)
    ensures e != -1 ==> ClosesAt(t, start, e, p)
    ensures e == -1 ==> forall e' :: !ClosesAt(t, start, e', p)
  {
    var depth, inStr, esc := 0, false, false;
    for k := start to |t|
      invariant ScanState(depth, inStr, esc) == Run(INIT, t[start..k], p)
      invariant forall j :: start < j <= k ==> DepthAt(t, start, j, p) != 0
      invariant k == start ==> !inStr && depth == 0
      invariant k > start ==> depth != 0
    {
      var ch := t[k];
      RunExtends(t, start, k, p);
      if inStr {
        if esc {
          esc := false;
        } else if ch == '\\' {
          esc := true;
        } else if ch == '"' {
          inStr := false;
        }
        continue;
      }
      if ch == '"' {
        inStr := true;
      } else if ch == p.open {
        depth := depth + 1;
        OpenKeepsPositive(t, start, k, p);
      } else if ch == p.close {
        depth := depth - 1;
        if depth == 0 {
          return k + 1;
        }
      }
    }
    return -1;
  }

  /** The scan takes one more character. */
  lemma RunExtends(t: string, s: nat, k: nat, p: Pair)
    requires s <= k < |t|
    ensures Run(INIT, t[s..k + 1], p) == Step(Run(INIT, t[s..k], p), t[k], p)
  {
    var longer := t[s..k + 1];
    assert longer == t[s..k] + [t[k]];
    assert longer[..|longer| - 1] == t[s..k];
  }

  /** Until the run closes its depth is positive: depth moves by one and starts by rising. */
  lemma {:induction false} OpenKeepsPositive(t: string, s: nat, k: nat, p: Pair)
    requires s <= k < |t| && t[s] == p.open && IsPass(p)
    requires forall j :: s < j <= k ==> DepthAt(t, s, j, p) != 0
    ensures k == s || DepthAt(t, s, k, p) > 0
  {
    if k > s {
      OpenKeepsPositive(t, s, k - 1, p);
      assert DepthAt(t, s, k, p) != 0;
      RunExtends(t, s, k - 1, p);
      if k - 1 == s {
        assert t[s..s] == "";
        assert DepthAt(t, s, k, p) == 1;
      }
    }
  }

  lemma ClosesOnce(t: string, s: int, e: int, e': int, p: Pair)
    requires ClosesAt(t, s, e, p) && ClosesAt(t, s, e', p)
    ensures e == e'
  {
  }

  lemma {:induction false} OpenersGrow(t: string, c: char, m: nat, n: nat)
    requires m <= n <= |t|
    ensures Openers(t, c, m) <= Openers(t, c, n)
    ensures (forall k :: m <= k < n ==> t[k] != c) ==> Openers(t, c, m) == Openers(t, c, n)
    decreases n
  {
    if m < n {
      OpenersGrow(t, c, m, n - 1);
    }
  }

  /** The retry loop of one pass; `scans` counts the character loops it starts. */
  method TryPass(t: string, p: Pair, loads: string -> bool) returns (r: Option<string>, ghost scans: nat)
    requires IsPass(p)
    ensures r.Some? ==> PassYields(t, p, loads, r.value)
    ensures r.None? ==> PassFails(t, p, loads)
    ensures scans <= MAX_TRIES
  {
    scans := 0;
    var start := Find(t, p.open, 0);
    var tried := 0;
    if start != -1 {
      OpenersGrow(t, p.open, 0, start);
    }
    while start != -1 && tried < MAX_TRIES
      invariant start == -1 || (0 <= start < |t| && t[start] == p.open && Openers(t, p.open, start) == tried)
      invariant forall s, e :: Wins(t, p, loads, s, e) ==> start != -1 && start <= s
      invariant scans == tried <= MAX_TRIES
      decreases MAX_TRIES - tried
    {
      ghost var was := start;
      tried := tried + 1;
      scans := scans + 1;
      var e := BalancedEnd(t, start, p);
      if e != -1 {
        var candidate := t[start..e];
        if loads(candidate) {
          assert Wins(t, p, loads, start, e);
          return Some(candidate), scans;
        }
      }
      forall s, e' | Wins(t, p, loads, s, e') ensures s != start {
        if s == start {
          ClosesOnce(t, start, e, e', p);
        }
      }
      start := Find(t, p.open, start + 1);
      if start != -1 {
        OpenersGrow(t, p.open, was + 1, start);
      }
    }
    r := None;
    forall s, e ensures !Wins(t, p, loads, s, e) {
      if Wins(t, p, loads, s, e) {
        OpenersGrow(t, p.open, start, s);
        assert false;
      }
    }
  }

  method ExtractJson(text: Option<string>, loads: string -> bool) returns (r: string, ghost scans: nat)
    ensures Extracts(Body(text), loads, r)
    ensures scans <= 40
  {
    var t := Strip(text.GetOr(""));
    if FENCE <= t {
      var nl := Find(t, '\n', 0);
      var last := RFind(t, FENCE);
      if nl != -1 && last > nl {
        t := Strip(t[nl + 1..last]);
      }
    }
    scans := 0;
    var passes := [BRACES, BRACKETS];
    for i := 0 to 2
      invariant t == Body(text)
      invariant forall j :: 0 <= j < i ==> PassFails(t, passes[j], loads)
      invariant scans <= i * MAX_TRIES
    {
      var found, n := TryPass(t, passes[i], loads);
      scans := scans + n;
      if found.Some? {
        assert i == 1 ==> PassFails(t, passes[0], loads);
        return found.value, scans;
      }
    }
    assert PassFails(t, passes[0], loads) && PassFails(t, passes[1], loads);
    r := if t == "" then "{}" else t;
  }
}
