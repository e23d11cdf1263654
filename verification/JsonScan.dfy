/**
 * The string-aware bracket scan as a fold over the text, and the fact that it agrees with the
 * JSON grammar: the text of a value never disturbs the scan of what surrounds it.
 */
module JsonScan {
  import opened JsonGrammar

  datatype Pair = Pair(open: char, close: char)

  const BRACES := Pair('{', '}')
  const BRACKETS := Pair('[', ']')

  predicate IsPass(p: Pair) {
    p == BRACES || p == BRACKETS
  }

  datatype ScanState = ScanState(depth: int, inStr: bool, esc: bool)

  const INIT := ScanState(0, false, false)

  /** One character of the scan. */
  function Step(st: ScanState, ch: char, p: Pair): ScanState {
    if st.inStr then
      if st.esc then st.(esc := false)
      else if ch == '\\' then st.(esc := true)
      else if ch == '"' then st.(inStr := false)
      else st
    else if ch == '"' then st.(inStr := true)
    else if ch == p.open then st.(depth := st.depth + 1)
    else if ch == p.close then st.(depth := st.depth - 1)
    else st
  }

  function Run(st: ScanState, text: string, p: Pair): ScanState {
    if text == "" then st
    else Step(Run(st, text[..|text| - 1], p), text[|text| - 1], p)
  }

  lemma {:induction false} RunConcat(st: ScanState, a: string, b: string, p: Pair)
    ensures Run(st, a + b, p) == Run(Run(st, a, p), b, p)
  {
    if b == "" {
      assert a + b == a;
    } else {
      var b' := b[..|b| - 1];
      assert (a + b)[..|a + b| - 1] == a + b';
      RunConcat(st, a, b', p);
    }
  }

  lemma RunOne(st: ScanState, c: char, p: Pair)
    ensures Run(st, [c], p) == Step(st, c, p)
  {
    assert [c][..0] == "";
  }

  lemma RunTwo(st: ScanState, c: char, e: char, p: Pair)
    ensures Run(st, [c, e], p) == Step(Step(st, c, p), e, p)
  {
    RunOne(st, c, p);
    assert [c, e][..1] == [c];
  }

  /** The depth after the first `j` characters of `text`, started at depth `d` outside any string. */
  function PrefixDepth(text: string, p: Pair, d: int, j: int): int
    requires 0 <= j <= |text|
  {
    Run(ScanState(d, false, false), text[..j], p).depth
  }

  /** The depth just before position `j` of the scan that started at `s`. */
  function DepthAt(t: string, s: int, j: int, p: Pair): int
    requires 0 <= s <= j <= |t|
  {
    Run(INIT, t[s..j], p).depth
  }

  /** From depth `d` outside strings, the scan of `text` ends where it began and never dips below `d`. */
  ghost predicate Neutral(text: string, p: Pair, d: int) {
    var st := ScanState(d, false, false);
    && Run(st, text, p) == st
    && forall j :: 0 <= j <= |text| ==> PrefixDepth(text, p, d, j) >= d
  }

  lemma NeutralConcat(a: string, b: string, p: Pair, d: int)
    requires Neutral(a, p, d) && Neutral(b, p, d)
    ensures Neutral(a + b, p, d)
  {
    var st := ScanState(d, false, false);
    RunConcat(st, a, b, p);
    forall j | 0 <= j <= |a + b|
      ensures PrefixDepth(a + b, p, d, j) >= d
    {
      if j <= |a| {
        assert (a + b)[..j] == a[..j];
        assert PrefixDepth(a, p, d, j) >= d;
      } else {
        assert (a + b)[..j] == a + b[..j - |a|];
        RunConcat(st, a, b[..j - |a|], p);
        assert PrefixDepth(b, p, d, j - |a|) >= d;
      }
    }
  }

  predicate Inert(text: string) {
    forall i :: 0 <= i < |text| ==> text[i] !in "\"{}[]"
  }

  lemma {:induction false} InertNeutral(text: string, p: Pair, d: int)
    requires Inert(text) && IsPass(p)
    ensures Neutral(text, p, d)
  {
    if text != "" {
      var init := text[..|text| - 1];
      InertNeutral(init, p, d);
      forall j | 0 <= j <= |text|
        ensures PrefixDepth(text, p, d, j) >= d
      {
        if j < |text| {
          assert text[..j] == init[..j];
          assert PrefixDepth(init, p, d, j) >= d;
        } else {
          assert text[..j] == text;
        }
      }
    }
  }

  /** Inside a string literal the scan stays inside it, at the same depth, until the closing quote. */
  lemma {:induction false} CharsStayInside(s: seq<Ch>, p: Pair, d: int)
    requires CharsOk(s)
    ensures Run(ScanState(d, true, false), CharsText(s), p) == ScanState(d, true, false)
  {
    if s != [] {
      var st := ScanState(d, true, false);
      var first := ChText(s[0]);
      match s[0] {
        case Plain(c) =>
          RunOne(st, c, p);
        case Escape(c) =>
          RunTwo(st, '\\', c, p);
        case Unicode(h) =>
          HexStaysInside(h, p, d);
          RunConcat(st, "\\u", h, p);
          RunTwo(st, '\\', 'u', p);
      }
      assert Run(st, first, p) == st;
      RunConcat(st, first, CharsText(s[1..]), p);
      CharsStayInside(s[1..], p, d);
    }
  }

  lemma {:induction false} HexStaysInside(h: string, p: Pair, d: int)
    requires forall i :: 0 <= i < |h| ==> IsHex(h[i])
    ensures Run(ScanState(d, true, false), h, p) == ScanState(d, true, false)
  {
    if h != "" {
      HexStaysInside(h[..|h| - 1], p, d);
    }
  }

  lemma {:induction false} InsideKeepsDepth(st: ScanState, text: string, p: Pair, j: nat)
    requires j <= |text| && st.inStr
    requires forall k :: 0 <= k < j ==> Run(st, text[..k], p).inStr
    ensures Run(st, text[..j], p).depth == st.depth
  {
    if j > 0 {
      InsideKeepsDepth(st, text, p, j - 1);
      assert text[..j][..j - 1] == text[..j - 1];
    }
  }

  /** No proper prefix of a string literal closes it. */
  lemma {:induction false} CharsPrefixInside(s: seq<Ch>, p: Pair, d: int, j: nat)
    requires CharsOk(s) && j <= |CharsText(s)|
    ensures Run(ScanState(d, true, false), CharsText(s)[..j], p).inStr
  {
    if s != [] {
      var st := ScanState(d, true, false);
      var first, rest := ChText(s[0]), CharsText(s[1..]);
      if j <= |first| {
        assert (first + rest)[..j] == first[..j];
        FirstPrefixInside(s[0], p, d, j);
      } else {
        assert (first + rest)[..j] == first + rest[..j - |first|];
        RunConcat(st, first, rest[..j - |first|], p);
        CharsStayInside([s[0]], p, d);
        assert CharsText([s[0]]) == first + CharsText([]) == first;
        CharsPrefixInside(s[1..], p, d, j - |first|);
      }
    }
  }

  lemma FirstPrefixInside(ch: Ch, p: Pair, d: int, j: nat)
    requires CharOk(ch) && j <= |ChText(ch)|
    ensures Run(ScanState(d, true, false), ChText(ch)[..j], p).inStr
  {
    var st := ScanState(d, true, false);
    var t := ChText(ch);
    if j == 1 {
      RunOne(st, t[0], p);
      assert t[..1] == [t[0]];
    } else if j >= 2 {
      RunTwo(st, t[0], t[1], p);
      if ch.Unicode? {
        assert t[..j] == [t[0], t[1]] + ch.hex[..j - 2];
        RunConcat(st, [t[0], t[1]], ch.hex[..j - 2], p);
        HexStaysInside(ch.hex[..j - 2], p, d);
      } else {
        assert t[..j] == [t[0], t[1]];
      }
    }
  }

  lemma StringNeutral(s: seq<Ch>, p: Pair, d: int)
    requires CharsOk(s) && IsPass(p)
    ensures Neutral(StringText(s), p, d)
  {
    var st, inside := ScanState(d, false, false), ScanState(d, true, false);
    var body, text := CharsText(s), StringText(s);
    assert "\""[..0] == "";
    assert Run(st, "\"", p) == inside;
    forall j | 0 <= j <= |text|
      ensures PrefixDepth(text, p, d, j) >= d
    {
      if j == 0 {
      } else if j <= |body| + 1 {
        assert text[..j] == "\"" + body[..j - 1];
        RunConcat(st, "\"", body[..j - 1], p);
        forall k | 0 <= k < j - 1 ensures Run(inside, body[..k], p).inStr {
          CharsPrefixInside(s, p, d, k);
        }
        InsideKeepsDepth(inside, body, p, j - 1);
      } else {
        StringCloses(s, p, d);
        assert text[..j] == text;
      }
    }
    StringCloses(s, p, d);
  }

  lemma StringCloses(s: seq<Ch>, p: Pair, d: int)
    requires CharsOk(s) && IsPass(p)
    ensures Run(ScanState(d, false, false), StringText(s), p) == ScanState(d, false, false)
  {
    var st := ScanState(d, false, false);
    var body := CharsText(s);
    assert "\""[..0] == "";
    RunConcat(st, "\"", body, p);
    CharsStayInside(s, p, d);
    assert StringText(s)[..|StringText(s)| - 1] == "\"" + body;
  }

  /** Wrapping neutral text in brackets: proper prefixes of the run sit strictly above `d`. */
  lemma WrapScans(inner: string, p: Pair, d: int)
    requires IsPass(p) && Neutral(inner, p, d + 1)
    ensures Neutral([p.open] + inner + [p.close], p, d)
    ensures forall j :: 1 <= j <= |inner| + 1 ==>
      PrefixDepth([p.open] + inner + [p.close], p, d, j) >= d + 1
  {
    var st := ScanState(d, false, false);
    var whole := [p.open] + inner + [p.close];
    assert [p.open][..0] == "";
    forall j | 1 <= j <= |inner| + 1
      ensures PrefixDepth(whole, p, d, j) >= d + 1
    {
      assert whole[..j] == [p.open] + inner[..j - 1];
      RunConcat(st, [p.open], inner[..j - 1], p);
      assert PrefixDepth(inner, p, d + 1, j - 1) >= d + 1;
    }
    RunConcat(st, [p.open], inner, p);
    assert whole[..|whole| - 1] == [p.open] + inner;
    forall j | 0 <= j <= |whole|
      ensures PrefixDepth(whole, p, d, j) >= d
    {
      if j == |whole| { assert whole[..j] == whole; }
    }
  }

  lemma SingleNeutral(c: char, p: Pair, d: int)
    requires IsPass(p) && c != '"' && c != p.open && c != p.close
    ensures Neutral([c], p, d)
  {
    assert [c][..0] == "" && [c][..1] == [c];
  }

  lemma WrapNeutral(open: char, inner: string, close: char, p: Pair, d: int)
    requires IsPass(p) && IsPass(Pair(open, close))
    requires Neutral(inner, p, d) && Neutral(inner, p, d + 1)
    ensures Neutral([open] + inner + [close], p, d)
  {
    if p == Pair(open, close) {
      WrapScans(inner, p, d);
    } else {
      SingleNeutral(open, p, d);
      SingleNeutral(close, p, d);
      NeutralConcat([open], inner, p, d);
      NeutralConcat([open] + inner, [close], p, d);
    }
  }

  lemma NumberInert(v: Json)
    requires v.Num? && WellFormed(v)
    ensures Inert(Text(v))
  {
    var sign := if v.negative then "-" else "";
    DigitsInert(v.whole);
    FractionInert(v.fraction);
    ExponentInert(v.exponent);
    InertConcat(sign, v.whole);
    InertConcat(sign + v.whole, v.fraction);
    InertConcat(sign + v.whole + v.fraction, v.exponent);
  }

  lemma DigitsInert(s: string)
    requires IsDigits(s)
    ensures Inert(s)
  {
  }

  lemma FractionInert(s: string)
    requires IsFraction(s)
    ensures Inert(s)
  {
    if s != "" {
      DigitsInert(s[1..]);
      InertCons(s[0], s[1..]);
      assert s == [s[0]] + s[1..];
    }
  }

  lemma ExponentInert(s: string)
    requires IsExponent(s)
    ensures Inert(s)
  {
    if s != "" {
      if IsDigits(s[1..]) {
        DigitsInert(s[1..]);
      } else {
        DigitsInert(s[2..]);
        InertCons(s[1], s[2..]);
        assert s[1..] == [s[1]] + s[2..];
      }
      InertCons(s[0], s[1..]);
      assert s == [s[0]] + s[1..];
    }
  }

  lemma InertCons(c: char, s: string)
    requires c !in "\"{}[]" && Inert(s)
    ensures Inert([c] + s)
  {
  }

  lemma InertConcat(a: string, b: string)
    requires Inert(a) && Inert(b)
    ensures Inert(a + b)
  {
  }

  lemma ArrayNeutral(pad: string, elems: Elems, p: Pair, d: int)
    requires IsPass(p)
    requires Neutral(pad + ElemsText(elems), p, d) && Neutral(pad + ElemsText(elems), p, d + 1)
    ensures Neutral(Text(Arr(pad, elems)), p, d)
  {
    WrapNeutral('[', pad + ElemsText(elems), ']', p, d);
  }

  lemma ObjectNeutral(pad: string, members: Members, p: Pair, d: int)
    requires IsPass(p)
    requires Neutral(pad + MembersText(members), p, d) && Neutral(pad + MembersText(members), p, d + 1)
    ensures Neutral(Text(Obj(pad, members)), p, d)
  {
    WrapNeutral('{', pad + MembersText(members), '}', p, d);
  }

  /** Every JSON text is neutral for both passes, at every depth. */
  lemma {:induction false} JsonNeutral(v: Json, p: Pair, d: int)
    requires WellFormed(v) && IsPass(p)
    ensures Neutral(Text(v), p, d)
    decreases v, 3
  {
    match v {
      case Word(w) =>
        InertNeutral(w, p, d);
      case Num(_, _, _, _) =>
        NumberInert(v);
        InertNeutral(Text(v), p, d);
      case Str(chars) =>
        StringNeutral(chars, p, d);
      case Arr(pad, elems) =>
        ElemsInnerNeutral(pad, elems, p, d);
        ElemsInnerNeutral(pad, elems, p, d + 1);
        ArrayNeutral(pad, elems, p, d);
      case Obj(pad, members) =>
        MembersInnerNeutral(pad, members, p, d);
        MembersInnerNeutral(pad, members, p, d + 1);
        ObjectNeutral(pad, members, p, d);
    }
  }

  lemma {:induction false} ElemsInnerNeutral(pad: string, es: Elems, p: Pair, d: int)
    requires IsWs(pad) && ElemsOk(es) && IsPass(p)
    ensures Neutral(pad + ElemsText(es), p, d)
    decreases es, 1
  {
    InertNeutral(pad, p, d);
    ElemsNeutral(es, p, d);
    NeutralConcat(pad, ElemsText(es), p, d);
  }

  lemma {:induction false} MembersInnerNeutral(pad: string, ms: Members, p: Pair, d: int)
    requires IsWs(pad) && MembersOk(ms) && IsPass(p)
    ensures Neutral(pad + MembersText(ms), p, d)
    decreases ms, 2
  {
    InertNeutral(pad, p, d);
    MembersNeutral(ms, p, d);
    NeutralConcat(pad, MembersText(ms), p, d);
  }

  lemma {:induction false} ElemsNeutral(es: Elems, p: Pair, d: int)
    requires ElemsOk(es) && IsPass(p)
    ensures Neutral(ElemsText(es), p, d)
    decreases es, 0
  {
    match es {
      case NoElem =>
        InertNeutral("", p, d);
      case Elem(before, v, after, rest) =>
        WsNeutral(before, p, d);
        JsonNeutral(v, p, d);
        WsNeutral(after, p, d);
        NeutralConcat(before, Text(v), p, d);
        NeutralConcat(before + Text(v), after, p, d);
        if !rest.NoElem? {
          SingleNeutral(',', p, d);
          ElemsNeutral(rest, p, d);
          NeutralConcat(",", ElemsText(rest), p, d);
          NeutralConcat(before + Text(v) + after, "," + ElemsText(rest), p, d);
        } else {
          assert ElemsText(es) == before + Text(v) + after;
        }
    }
  }

  lemma {:induction false} MembersNeutral(ms: Members, p: Pair, d: int)
    requires MembersOk(ms) && IsPass(p)
    ensures Neutral(MembersText(ms), p, d)
    decreases ms, 1
  {
    match ms {
      case NoMember =>
        InertNeutral("", p, d);
      case Member(before, key, mid, gap, v, after, others) =>
        var head := before + StringText(key) + (mid + ":" + gap) + Text(v) + after;
        MemberHeadNeutral(ms, p, d);
        if !others.NoMember? {
          SingleNeutral(',', p, d);
          MembersNeutral(others, p, d);
          NeutralConcat(",", MembersText(others), p, d);
          NeutralConcat(head, "," + MembersText(others), p, d);
        } else {
          assert MembersText(ms) == head;
        }
    }
  }

  lemma {:induction false} MemberHeadNeutral(ms: Members, p: Pair, d: int)
    requires ms.Member? && MembersOk(ms) && IsPass(p)
    ensures Neutral(ms.before + StringText(ms.key) + (ms.mid + ":" + ms.gap) + Text(ms.value) + ms.after, p, d)
    decreases ms, 0
  {
    WsNeutral(ms.before, p, d);
    StringNeutral(ms.key, p, d);
    ColonNeutral(ms.mid, ms.gap, p, d);
    JsonNeutral(ms.value, p, d);
    WsNeutral(ms.after, p, d);
    NeutralConcat5(ms.before, StringText(ms.key), ms.mid + ":" + ms.gap, Text(ms.value), ms.after, p, d);
  }

  lemma WsInert(s: string)
    requires IsWs(s)
    ensures Inert(s)
  {
  }

  lemma WsNeutral(s: string, p: Pair, d: int)
    requires IsWs(s) && IsPass(p)
    ensures Neutral(s, p, d)
  {
    WsInert(s);
    InertNeutral(s, p, d);
  }

  lemma ColonNeutral(mid: string, gap: string, p: Pair, d: int)
    requires IsWs(mid) && IsWs(gap) && IsPass(p)
    ensures Neutral(mid + ":" + gap, p, d)
  {
    WsInert(mid);
    WsInert(gap);
    InertConcat(mid, ":");
    InertConcat(mid + ":", gap);
    InertNeutral(mid + ":" + gap, p, d);
  }

  lemma NeutralConcat5(a: string, b: string, c: string, e: string, f: string, p: Pair, d: int)
    requires Neutral(a, p, d) && Neutral(b, p, d) && Neutral(c, p, d) && Neutral(e, p, d) && Neutral(f, p, d)
    ensures Neutral(a + b + c + e + f, p, d)
  {
    NeutralConcat(a, b, p, d);
    NeutralConcat(a + b, c, p, d);
    NeutralConcat(a + b + c, e, p, d);
    NeutralConcat(a + b + c + e, f, p, d);
  }

  // ---------------------------------------------------------------- balanced runs

  /** The scan started at `s` first returns to depth zero just before `e`. */
  ghost predicate ClosesAt(t: string, s: int, e: int, p: Pair) {
    && 0 <= s < e <= |t| && t[s] == p.open
    && DepthAt(t, s, e, p) == 0
    && forall j :: s < j < e ==> DepthAt(t, s, j, p) != 0
  }

  /** The run that opens an object or array closes exactly at that value's last character. */
  lemma ValueCloses(a: string, v: Json, b: string, p: Pair)
    requires WellFormed(v)
    requires (v.Obj? && p == BRACES) || (v.Arr? && p == BRACKETS)
    ensures ClosesAt(a + Text(v) + b, |a|, |a| + |Text(v)|, p)
  {
    var m := Text(v);
    var t := a + m + b;
    var inner := if v.Obj? then v.pad + MembersText(v.members) else v.pad + ElemsText(v.elems);
    if v.Obj? {
      MembersInnerNeutral(v.pad, v.members, p, 1);
    } else {
      ElemsInnerNeutral(v.pad, v.elems, p, 1);
    }
    assert m == [p.open] + inner + [p.close];
    WrapScans(inner, p, 0);
    assert t[|a|..|a| + |m|] == m;
    forall j | |a| < j < |a| + |m|
      ensures DepthAt(t, |a|, j, p) != 0
    {
      assert t[|a|..j] == m[..j - |a|];
      assert PrefixDepth(m, p, 0, j - |a|) >= 1;
    }
  }
}
