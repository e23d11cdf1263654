/** The Python string operations the modelled code relies on: `strip`, `find`, `rfind`. */
module PyText {

  datatype Option<+T> = None | Some(value: T) {
    function GetOr(default: T): T {
      match this
      case None => default
      case Some(v) => v
    }
  }

  /** The code points of Unicode white space, as inclusive ranges. */
  const SPACES: seq<(int, int)> := [
    (9, 13), (28, 32), (0x85, 0x85), (0xA0, 0xA0), (0x1680, 0x1680), (0x2000, 0x200A),
    (0x2028, 0x2029), (0x202F, 0x202F), (0x205F, 0x205F), (0x3000, 0x3000)
  ]

  /** `str.isspace` for one character, which is also `\s` in a `re` pattern over text. */
  predicate IsSpace(c: char) {
    exists i :: 0 <= i < |SPACES| && SPACES[i].0 <= c as int <= SPACES[i].1
  }

  /** Printable ASCII other than the blank is visible. */
  lemma Visible(c: char)
    requires 33 <= c as int < 0x85
    ensures !IsSpace(c)
  {
  }

  lemma BlankIsSpace()
    ensures IsSpace(' ')
  {
    assert SPACES[1].0 <= ' ' as int <= SPACES[1].1;
  }

  /** Below 128 the spaces are tab to carriage return, the four separators, and the blank. */
  lemma AsciiSpaces(c: char)
    requires c as int < 128
    ensures IsSpace(c) <==> 9 <= c as int <= 13 || 28 <= c as int <= 32
  {
    if 9 <= c as int <= 13 {
      assert SPACES[0].0 <= c as int <= SPACES[0].1;
    }
    if 28 <= c as int <= 32 {
      assert SPACES[1].0 <= c as int <= SPACES[1].1;
    }
  }

  predicate Blank(s: string) {
    forall i :: 0 <= i < |s| ==> IsSpace(s[i])
  }

  function LStrip(s: string): string {
    if s == "" || !IsSpace(s[0]) then s else LStrip(s[1..])
  }

  function RStrip(s: string): string {
    if s == "" || !IsSpace(s[|s| - 1]) then s else RStrip(s[..|s| - 1])
  }

  lemma BlankCons(c: char, s: string)
    requires IsSpace(c) && Blank(s)
    ensures Blank([c] + s)
  {
  }

  /** `lstrip` drops a blank prefix and what is left starts visibly. */
  lemma {:induction false} LStripSpec(s: string)
    ensures var l := LStrip(s); |l| <= |s| && l == s[|s| - |l|..] && Blank(s[..|s| - |l|])
    ensures LStrip(s) == "" || !IsSpace(LStrip(s)[0])
  {
    if s != "" && IsSpace(s[0]) {
      var rest := s[1..];
      LStripSpec(rest);
      var n := |rest| - |LStrip(rest)|;
      BlankCons(s[0], rest[..n]);
      assert s[..n + 1] == [s[0]] + rest[..n] && s[n + 1..] == rest[n..];
    }
  }

  /** `rstrip` drops a blank suffix and what is left ends visibly. */
  lemma {:induction false} RStripSpec(s: string)
    ensures var r := RStrip(s); |r| <= |s| && r == s[..|r|] && Blank(s[|r|..])
    ensures RStrip(s) == "" || !IsSpace(RStrip(s)[|RStrip(s)| - 1])
  {
    if s != "" && IsSpace(s[|s| - 1]) {
      var s' := s[..|s| - 1];
      RStripSpec(s');
      var n := |RStrip(s)|;
      assert s[n..] == s'[n..] + [s[|s| - 1]];
    }
  }

  function Strip(s: string): string {
    RStrip(LStrip(s))
  }

  lemma {:induction false} LStripAppend(a: string, x: string)
    requires x != "" && !IsSpace(x[0])
    ensures LStrip(a + x) == LStrip(a) + x
  {
    if a == "" {
      assert a + x == x;
    } else {
      assert (a + x)[0] == a[0] && (a + x)[1..] == a[1..] + x;
      if IsSpace(a[0]) {
        LStripAppend(a[1..], x);
      }
    }
  }

  lemma {:induction false} RStripPrepend(x: string, b: string)
    requires x != "" && !IsSpace(x[|x| - 1])
    ensures RStrip(x + b) == x + RStrip(b)
  {
    if b == "" {
      assert x + b == x;
    } else {
      assert (x + b)[|x + b| - 1] == b[|b| - 1] && (x + b)[..|x + b| - 1] == x + b[..|b| - 1];
      if IsSpace(b[|b| - 1]) {
        RStripPrepend(x, b[..|b| - 1]);
      }
    }
  }

  lemma {:induction false} BlankStrips(s: string)
    requires Blank(s)
    ensures LStrip(s) == "" && RStrip(s) == ""
  {
    if s != "" {
      BlankStrips(s[1..]);
      BlankStrips(s[..|s| - 1]);
    }
  }

  /** Stripping reaches neither end of a core that starts and ends with a visible character. */
  lemma StripAround(a: string, m: string, b: string)
    requires m != "" && !IsSpace(m[0]) && !IsSpace(m[|m| - 1])
    ensures Strip(a + m + b) == LStrip(a) + m + RStrip(b)
  {
    assert a + m + b == a + (m + b);
    LStripAppend(a, m + b);
    assert LStrip(a) + (m + b) == (LStrip(a) + m) + b;
    RStripPrepend(LStrip(a) + m, b);
  }

  /** A string is unchanged by `strip` exactly when neither end is a space. */
  lemma StripFixed(s: string)
    ensures Strip(s) == s <==> (s == "" || (!IsSpace(s[0]) && !IsSpace(s[|s| - 1])))
  {
    LStripSpec(s);
    RStripSpec(LStrip(s));
  }

  lemma StripIdempotent(s: string)
    ensures Strip(Strip(s)) == Strip(s)
  {
    var l := LStrip(s);
    var r := RStrip(l);
    LStripSpec(s);
    RStripSpec(l);
    if r != "" {
      assert r[0] == l[0];
    }
    StripFixed(r);
  }

  /** `s.find(c, from)` for a one-character needle. */
  function Find(s: string, c: char, from: nat): (r: int)
    ensures r == -1 <==> forall k :: from <= k < |s| ==> s[k] != c
    ensures r != -1 ==> from <= r < |s| && s[r] == c && forall k :: from <= k < r ==> s[k] != c
    decreases |s| - from
  {
    if from >= |s| then -1
    else if s[from] == c then from
    else Find(s, c, from + 1)
  }

  predicate OccursAt(s: string, needle: string, i: int) {
    0 <= i && i + |needle| <= |s| && s[i..i + |needle|] == needle
  }

  predicate Contains(s: string, needle: string) {
    exists i :: 0 <= i <= |s| && OccursAt(s, needle, i)
  }

  /** `s.rfind(needle)`: the last occurrence that starts no later than `from`. */
  function RFindFrom(s: string, needle: string, from: int): (r: int)
    requires from <= |s|
    ensures r == -1 <==> forall i :: 0 <= i <= from ==> !OccursAt(s, needle, i)
    ensures r != -1 ==> 0 <= r <= from && OccursAt(s, needle, r)
    ensures r != -1 ==> forall i :: r < i <= from ==> !OccursAt(s, needle, i)
    decreases from + 1
  {
    if from < 0 then -1
    else if OccursAt(s, needle, from) then from
    else RFindFrom(s, needle, from - 1)
  }

  function RFind(s: string, needle: string): (r: int)
    ensures r == -1 <==> !Contains(s, needle)
    ensures r != -1 ==> OccursAt(s, needle, r) && forall i :: OccursAt(s, needle, i) ==> i <= r
  {
    RFindFrom(s, needle, |s|)
  }

  /** Where a greedy starred class that begins at `from` stops. */
  function SpanEnd(p: char -> bool, s: string, from: nat): (n: nat)
    requires from <= |s|
    ensures from <= n <= |s| && (forall i :: from <= i < n ==> p(s[i])) && (n < |s| ==> !p(s[n]))
    decreases |s| - from
  {
    if from == |s| || !p(s[from]) then from else SpanEnd(p, s, from + 1)
  }

  predicate NotSpace(c: char) {
    !IsSpace(c)
  }

  /** `s.split()`: the maximal runs of visible characters. */
  function Split(s: string): seq<string>
    decreases |s|
  {
    LStripSpec(s);
    var t := LStrip(s);
    if t == "" then []
    else
      var n := SpanEnd(NotSpace, t, 0);
      assert n > 0;
      [t[..n]] + Split(t[n..])
  }

  function Join(sep: string, parts: seq<string>): string {
    if parts == [] then "" else if |parts| == 1 then parts[0] else parts[0] + sep + Join(sep, parts[1..])
  }

  /** `s.lstrip(chars)` and `s.rstrip(chars)` */
  function LStripChars(s: string, chars: string): string {
    if s == "" || s[0] !in chars then s else LStripChars(s[1..], chars)
  }

  function RStripChars(s: string, chars: string): string {
    if s == "" || s[|s| - 1] !in chars then s else RStripChars(s[..|s| - 1], chars)
  }

  /** `s[:count]`, where a negative count drops from the end. */
  function SliceTo<T>(s: seq<T>, count: int): seq<T> {
    if count >= |s| then s
    else if count >= 0 then s[..count]
    else if -count >= |s| then []
    else s[..|s| + count]
  }
}
