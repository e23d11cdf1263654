/** What the extraction recovers from replies that carry a JSON text. */
module JsonExtractLaws {
  import opened PyText
  import opened JsonGrammar
  import opened JsonScan
  import opened JsonExtract

  /** The parser accepts every text of the JSON grammar. */
  ghost predicate LoadsJson(loads: string -> bool) {
    forall v :: WellFormed(v) ==> loads(Text(v))
  }

  predicate Lacks(s: string, c: char) {
    forall i :: 0 <= i < |s| ==> s[i] != c
  }

  /** The search has exactly one answer. */
  lemma ExtractsUnique(t: string, loads: string -> bool, r1: string, r2: string)
    requires Extracts(t, loads, r1) && Extracts(t, loads, r2)
    ensures r1 == r2
  {
    if p :| p in [BRACES, BRACKETS] && PassYields(t, p, loads, r1) && PassYields(t, p, loads, r2) {
      YieldUnique(t, p, loads, r1, r2);
    }
  }

  lemma YieldUnique(t: string, p: Pair, loads: string -> bool, r1: string, r2: string)
    requires PassYields(t, p, loads, r1) && PassYields(t, p, loads, r2)
    ensures r1 == r2
  {
    var s1, e1 :| Wins(t, p, loads, s1, e1) && r1 == t[s1..e1] &&
      forall s', e' :: Wins(t, p, loads, s', e') ==> s1 <= s';
    var s2, e2 :| Wins(t, p, loads, s2, e2) && r2 == t[s2..e2] &&
      forall s', e' :: Wins(t, p, loads, s', e') ==> s2 <= s';
    ClosesOnce(t, s1, e1, e2, p);
  }

  /**
   * A well-formed value of which no earlier run parses is what its pass yields if fewer than twenty openers precede
   * it; otherwise the pass fails. Behind text without its opening bracket it always wins.
   */
  lemma FirstValueWins(a: string, v: Json, b: string, p: Pair, loads: string -> bool)
    requires WellFormed(v) && LoadsJson(loads)
    requires (v.Obj? && p == BRACES) || (v.Arr? && p == BRACKETS)
    ensures NoneBefore(a + Text(v) + b, p, loads, |a|) ==>
      if Openers(a, p.open, |a|) < 20 then PassYields(a + Text(v) + b, p, loads, Text(v))
      else PassFails(a + Text(v) + b, p, loads)
    ensures Lacks(a, p.open) ==> PassYields(a + Text(v) + b, p, loads, Text(v))
  {
    ValueParses(a, v, b, p, loads);
    OpenersBefore(a, Text(v), b, p.open);
    if Lacks(a, p.open) {
      NoneBeforeOpener(a, Text(v), b, p, loads);
      OpenersGrow(a, p.open, 0, |a|);
    }
    if NoneBefore(a + Text(v) + b, p, loads, |a|) {
      FirstRunExactly(a + Text(v) + b, p, loads, |a|, |a| + |Text(v)|);
    }
  }

  lemma NoneBeforeOpener(a: string, m: string, b: string, p: Pair, loads: string -> bool)
    requires Lacks(a, p.open)
    ensures NoneBefore(a + m + b, p, loads, |a|)
  {
    assert forall i :: 0 <= i < |a| ==> (a + m + b)[i] == a[i];
  }

  /** The value's own run, at its place between two texts. */
  lemma ValueParses(a: string, v: Json, b: string, p: Pair, loads: string -> bool)
    requires WellFormed(v) && LoadsJson(loads)
    requires (v.Obj? && p == BRACES) || (v.Arr? && p == BRACKETS)
    ensures (a + Text(v) + b)[|a|..|a| + |Text(v)|] == Text(v)
    ensures Parses(a + Text(v) + b, p, loads, |a|, |a| + |Text(v)|)
  {
    ValueCloses(a, v, b, p);
    assert (a + Text(v) + b)[|a|..|a| + |Text(v)|] == Text(v);
  }

  /** Objects and arrays start and end with their own brackets. */
  lemma TextEnds(v: Json)
    requires v.Obj? || v.Arr?
    ensures |Text(v)| >= 2
    ensures v.Obj? ==> Text(v)[0] == '{' && Text(v)[|Text(v)| - 1] == '}'
    ensures v.Arr? ==> Text(v)[0] == '[' && Text(v)[|Text(v)| - 1] == ']'
    ensures !IsSpace(Text(v)[0]) && !IsSpace(Text(v)[|Text(v)| - 1])
  {
    var inner := if v.Obj? then v.pad + MembersText(v.members) else v.pad + ElemsText(v.elems);
    var p := if v.Obj? then BRACES else BRACKETS;
    assert Text(v) == [p.open] + inner + [p.close];
    Visible(p.open);
    Visible(p.close);
  }

  lemma ObjectFound(a: string, v: Json, b: string, loads: string -> bool, r: string)
    requires WellFormed(v) && v.Obj? && LoadsJson(loads) && Lacks(a, '{')
    requires Extracts(a + Text(v) + b, loads, r)
    ensures r == Text(v)
  {
    FirstValueWins(a, v, b, BRACES, loads);
    ExtractsUnique(a + Text(v) + b, loads, r, Text(v));
  }

  lemma LacksLStrip(s: string, c: char)
    requires Lacks(s, c)
    ensures Lacks(LStrip(s), c)
  {
    LStripSpec(s);
  }

  /** The body of an unfenced reply around a core that starts and ends visibly. */
  lemma UnfencedBody(pre: string, m: string, post: string)
    requires m != "" && !IsSpace(m[0]) && !IsSpace(m[|m| - 1]) && m[0] != '`'
    requires !(FENCE <= LStrip(pre))
    ensures Body(Some(pre + m + post)) == LStrip(pre) + m + RStrip(post)
  {
    StripAround(pre, m, post);
    NotFenced(LStrip(pre), m, RStrip(post));
  }

  lemma NotFenced(l: string, m: string, q: string)
    requires !(FENCE <= l) && m != "" && m[0] != '`'
    ensures !(FENCE <= l + m + q)
  {
    var t := l + m + q;
    assert t[|l|] == m[0];
    if |l| >= 3 {
      assert t[..3] == l[..3];
    }
  }

  // ---------------------------------------------------------------- prose with stray braces

  /** A balanced run that parses, wherever it starts. */
  ghost predicate Parses(t: string, p: Pair, loads: string -> bool, s: int, e: int) {
    ClosesAt(t, s, e, p) && loads(t[s..e])
  }

  /** No run that starts before position `n` parses. */
  ghost predicate NoneBefore(t: string, p: Pair, loads: string -> bool, n: int) {
    forall s, e :: Parses(t, p, loads, s, e) ==> n <= s
  }

  /** The pass yields the first balanced run that parses if fewer than twenty openers precede it; else it fails. */
  lemma FirstRunExactly(t: string, p: Pair, loads: string -> bool, s: int, e: int)
    requires Parses(t, p, loads, s, e) && NoneBefore(t, p, loads, s)
    ensures Openers(t, p.open, s) < 20 ==> PassYields(t, p, loads, t[s..e])
    ensures Openers(t, p.open, s) >= 20 ==> PassFails(t, p, loads)
  {
    if Openers(t, p.open, s) < 20 {
      assert Wins(t, p, loads, s, e);
    }
    forall s', e' | Wins(t, p, loads, s', e') ensures s <= s' && Openers(t, p.open, s) < 20 {
      assert Parses(t, p, loads, s', e');
      OpenersGrow(t, p.open, s, s');
    }
  }

  lemma {:induction false} OpenersPrefix(a: string, b: string, c: char, n: nat)
    requires n <= |a|
    ensures Openers(a + b, c, n) == Openers(a, c, n)
  {
    if n > 0 {
      OpenersPrefix(a, b, c, n - 1);
    }
  }

  lemma {:induction false} OpenersLStrip(s: string, c: char)
    requires !IsSpace(c)
    ensures Openers(LStrip(s), c, |LStrip(s)|) == Openers(s, c, |s|)
  {
    if s != "" && IsSpace(s[0]) {
      OpenersLStrip(s[1..], c);
      OpenersTail(s, c, |s|);
    }
  }

  lemma {:induction false} OpenersTail(s: string, c: char, n: nat)
    requires 0 < n <= |s| && s[0] != c
    ensures Openers(s, c, n) == Openers(s[1..], c, n - 1)
  {
    if n > 1 {
      OpenersTail(s, c, n - 1);
    }
  }

  lemma OpenersBefore(a: string, m: string, b: string, c: char)
    ensures Openers(a + m + b, c, |a|) == Openers(a, c, |a|)
  {
    assert a + m + b == a + (m + b);
    OpenersPrefix(a, m + b, c, |a|);
  }

  /** What comes back when the object pass fails is no object of a longer text. */
  lemma FallbackDiffers(t: string, loads: string -> bool, r: string, m: string)
    requires PassFails(t, BRACES, loads) && Extracts(t, loads, r)
    requires m != "" && m[0] == '{' && |t| > |m|
    ensures r != m
  {
    if PassYields(t, BRACKETS, loads, r) {
      var s, e :| Wins(t, BRACKETS, loads, s, e) && r == t[s..e];
      assert r[0] == '[';
    }
  }

  lemma ObjectAmongBraces(a: string, v: Json, b: string, loads: string -> bool, r: string)
    requires WellFormed(v) && v.Obj? && LoadsJson(loads) && Extracts(a + Text(v) + b, loads, r)
    requires NoneBefore(a + Text(v) + b, BRACES, loads, |a|)
    ensures r == Text(v) <==> Openers(a, '{', |a|) < 20
  {
    ValueParses(a, v, b, BRACES, loads);
    OpenersBefore(a, Text(v), b, '{');
    TextEnds(v);
    ByReach(a + Text(v) + b, |a|, |a| + |Text(v)|, loads, r);
  }

  lemma ByReach(t: string, s: int, e: int, loads: string -> bool, r: string)
    requires Parses(t, BRACES, loads, s, e) && NoneBefore(t, BRACES, loads, s) && Extracts(t, loads, r)
    ensures r == t[s..e] <==> Openers(t, '{', s) < 20
  {
    FirstRunExactly(t, BRACES, loads, s, e);
    if Openers(t, '{', s) < 20 {
      ExtractsUnique(t, loads, r, t[s..e]);
    } else {
      assert s > 0;
      FallbackDiffers(t, loads, r, t[s..e]);
    }
  }

  /**
   * An object behind any prose, stray braces included, of which no earlier run parses: its text comes back, character
   * for character and whatever its strings contain, if and only if fewer than twenty opening braces precede it.
   * Behind prose without any opening brace it always comes back.
   */
  lemma ObjectExact(pre: string, v: Json, post: string, loads: string -> bool, r: string)
    requires WellFormed(v) && v.Obj? && LoadsJson(loads) && !(FENCE <= LStrip(pre))
    requires Extracts(Body(Some(pre + Text(v) + post)), loads, r)
    ensures NoneBefore(Body(Some(pre + Text(v) + post)), BRACES, loads, |LStrip(pre)|) ==>
      (r == Text(v) <==> Openers(pre, '{', |pre|) < 20)
    ensures Lacks(pre, '{') ==> r == Text(v)
  {
    TextEnds(v);
    Visible('{');
    UnfencedBody(pre, Text(v), post);
    OpenersLStrip(pre, '{');
    if NoneBefore(Body(Some(pre + Text(v) + post)), BRACES, loads, |LStrip(pre)|) {
      ObjectAmongBraces(LStrip(pre), v, RStrip(post), loads, r);
    }
    if Lacks(pre, '{') {
      LacksLStrip(pre, '{');
      ObjectFound(LStrip(pre), v, RStrip(post), loads, r);
    }
  }

  function Stray(n: nat): string {
    seq(n, _ => '{')
  }

  lemma {:induction false} StrayRuns(n: nat, d: int)
    ensures Openers(Stray(n), '{', n) == n
    ensures Run(ScanState(d, false, false), Stray(n), BRACES) == ScanState(d + n, false, false)
  {
    if n > 0 {
      StrayRuns(n - 1, d);
      assert Stray(n)[..n - 1] == Stray(n - 1) && Stray(n) == Stray(n - 1) + "{";
      OpenersPrefix(Stray(n - 1), "{", '{', n - 1);
    }
  }

  /** A brace that nothing closes opens no run. */
  lemma StrayNeverCloses(n: nat, v: Json, s: nat, e: nat)
    requires WellFormed(v) && s < n
    ensures !ClosesAt(Stray(n) + Text(v), s, e, BRACES)
  {
    if s < e <= n + |Text(v)| {
      StrayDepth(n, v, s, e);
    }
  }

  lemma StrayDepth(n: nat, v: Json, s: nat, e: nat)
    requires WellFormed(v) && s < n && s < e <= n + |Text(v)|
    ensures DepthAt(Stray(n) + Text(v), s, e, BRACES) > 0
  {
    if e <= n {
      StrayPart(n, Text(v), s, e);
      StrayRuns(e - s, 0);
    } else {
      StrayRest(n, Text(v), s, e);
      StrayThenPart(n - s, v, e - n);
    }
  }

  lemma StrayPart(n: nat, tail: string, s: nat, e: nat)
    requires s <= e <= n
    ensures (Stray(n) + tail)[s..e] == Stray(e - s)
  {
    var t, part := Stray(n) + tail, Stray(e - s);
    forall i | 0 <= i < e - s ensures t[s..e][i] == part[i] {
      assert t[s..e][i] == t[s + i] == Stray(n)[s + i];
    }
  }

  lemma StrayRest(n: nat, tail: string, s: nat, e: nat)
    requires s <= n <= e <= n + |tail|
    ensures (Stray(n) + tail)[s..e] == Stray(n - s) + tail[..e - n]
  {
    var t := Stray(n) + tail;
    StrayPart(n, tail, s, n);
    assert t[s..e] == t[s..n] + t[n..e];
    assert t[n..e] == tail[..e - n];
  }

  lemma StrayThenPart(n: nat, v: Json, k: nat)
    requires WellFormed(v) && n > 0 && k <= |Text(v)|
    ensures Run(INIT, Stray(n) + Text(v)[..k], BRACES).depth > 0
  {
    StrayRuns(n, 0);
    RunConcat(INIT, Stray(n), Text(v)[..k], BRACES);
    JsonNeutral(v, BRACES, n);
    assert PrefixDepth(Text(v), BRACES, n, k) >= n;
  }

  /** Twenty stray braces in front of any object lose it, though it is the first balanced run that parses. */
  lemma TwentyStrayBraces(v: Json, loads: string -> bool, r: string)
    requires WellFormed(v) && v.Obj? && LoadsJson(loads)
    requires Extracts(Body(Some(Stray(20) + Text(v))), loads, r)
    ensures r != Text(v)
  {
    StrayLoses(20, v, loads, r);
  }

  lemma StrayLoses(n: nat, v: Json, loads: string -> bool, r: string)
    requires n == 20 && WellFormed(v) && v.Obj? && LoadsJson(loads)
    requires Extracts(Body(Some(Stray(n) + Text(v))), loads, r)
    ensures r != Text(v)
  {
    var pre := Stray(n);
    StrayRuns(n, 0);
    Visible('{');
    assert LStrip(pre) == pre && RStrip("") == "";
    assert pre[0] != '`';
    TextEnds(v);
    UnfencedBody(pre, Text(v), "");
    assert pre + Text(v) + "" == pre + Text(v);
    forall s, e | Parses(pre + Text(v), BRACES, loads, s, e) ensures n <= s {
      if s < n { StrayNeverCloses(n, v, s, e); }
    }
    ObjectExact(pre, v, "", loads, r);
  }

  // ---------------------------------------------------------------- arrays

  lemma ArrayFound(a: string, v: Json, b: string, loads: string -> bool, r: string)
    requires WellFormed(v) && v.Arr? && LoadsJson(loads) && Lacks(a, '[')
    requires Extracts(a + Text(v) + b, loads, r)
    ensures r == Text(v) <==> PassFails(a + Text(v) + b, BRACES, loads)
  {
    var t := a + Text(v) + b;
    FirstValueWins(a, v, b, BRACKETS, loads);
    TextEnds(v);
    if PassFails(t, BRACES, loads) {
      ExtractsUnique(t, loads, r, Text(v));
    } else {
      assert PassYields(t, BRACES, loads, r);
    }
  }

  /** An array is returned exactly when no object run of the text parses. */
  lemma ArrayExact(pre: string, v: Json, post: string, loads: string -> bool, r: string)
    requires WellFormed(v) && v.Arr? && LoadsJson(loads)
    requires Lacks(pre, '[') && !(FENCE <= LStrip(pre))
    requires Extracts(Body(Some(pre + Text(v) + post)), loads, r)
    ensures r == Text(v) <==> PassFails(Body(Some(pre + Text(v) + post)), BRACES, loads)
  {
    TextEnds(v);
    UnfencedBody(pre, Text(v), post);
    LacksLStrip(pre, '[');
    ArrayFound(LStrip(pre), v, RStrip(post), loads, r);
  }

  lemma LacksParts(a: string, m: string, b: string, c: char)
    ensures Lacks(a + m + b, c) <==> Lacks(a, c) && Lacks(m, c) && Lacks(b, c)
  {
    var t := a + m + b;
    assert forall i :: 0 <= i < |a| ==> t[i] == a[i];
    assert forall i :: 0 <= i < |m| ==> t[|a| + i] == m[i];
    assert forall i :: 0 <= i < |b| ==> t[|a| + |m| + i] == b[i];
  }

  lemma NoRunWithoutOpener(t: string, p: Pair, loads: string -> bool)
    requires Lacks(t, p.open)
    ensures PassFails(t, p, loads)
  {
  }

  /** A reply without any opening brace gives its array back. */
  lemma BraceFreeArrayKept(pre: string, v: Json, post: string, loads: string -> bool, r: string)
    requires WellFormed(v) && v.Arr? && LoadsJson(loads)
    requires Lacks(pre, '[') && !(FENCE <= LStrip(pre)) && Lacks(pre + Text(v) + post, '{')
    requires Extracts(Body(Some(pre + Text(v) + post)), loads, r)
    ensures r == Text(v)
  {
    ArrayExact(pre, v, post, loads, r);
    TextEnds(v);
    UnfencedBody(pre, Text(v), post);
    LacksParts(pre, Text(v), post, '{');
    LacksLStrip(pre, '{');
    LacksRStrip(post, '{');
    LacksParts(LStrip(pre), Text(v), RStrip(post), '{');
    NoRunWithoutOpener(LStrip(pre) + Text(v) + RStrip(post), BRACES, loads);
  }

  lemma LacksRStrip(s: string, c: char)
    requires Lacks(s, c)
    ensures Lacks(RStrip(s), c)
  {
    RStripSpec(s);
  }

  predicate HoldsObject(v: Json) {
    v.Obj? || (v.Arr? && ElemsHoldObject(v.elems))
  }

  predicate ElemsHoldObject(es: Elems) {
    es.Elem? && (HoldsObject(es.value) || ElemsHoldObject(es.rest))
  }

  ghost predicate ObjectIn(text: string, before: string, w: Json, after: string) {
    WellFormed(w) && w.Obj? && text == before + Text(w) + after
  }

  lemma InContext(a: string, m: string, b: string, x: string, w: Json, y: string)
    requires ObjectIn(m, x, w, y)
    ensures ObjectIn(a + m + b, a + x, w, y + b)
  {
    Regroup(a, x, Text(w), y, b);
  }

  lemma {:induction false} ObjectInside(v: Json)
    requires WellFormed(v) && HoldsObject(v)
    ensures exists x, w, y :: ObjectIn(Text(v), x, w, y)
  {
    if v.Obj? {
      assert ObjectIn(Text(v), "", v, "");
    } else {
      ObjectInElems(v.elems);
      var x, w, y :| ObjectIn(ElemsText(v.elems), x, w, y);
      assert Text(v) == ("[" + v.pad) + ElemsText(v.elems) + "]";
      InContext("[" + v.pad, ElemsText(v.elems), "]", x, w, y);
    }
  }

  lemma ElemsParts(es: Elems)
    requires es.Elem?
    ensures es.rest.Elem? ==>
      ElemsText(es) == es.before + Text(es.value) + (es.after + "," + ElemsText(es.rest)) &&
      ElemsText(es) == (es.before + Text(es.value) + es.after + ",") + ElemsText(es.rest) + ""
    ensures es.rest.NoElem? ==> ElemsText(es) == es.before + Text(es.value) + es.after
  {
    if es.rest.Elem? {
      FourParts(es.before, Text(es.value), es.after, ElemsText(es.rest));
    } else {
      assert es.before + Text(es.value) + es.after + "" == es.before + Text(es.value) + es.after;
    }
  }

  lemma FourParts(a: string, b: string, c: string, d: string)
    ensures a + b + c + ("," + d) == a + b + (c + "," + d)
    ensures a + b + c + ("," + d) == (a + b + c + ",") + d + ""
  {
  }

  lemma {:induction false} ObjectInElems(es: Elems)
    requires ElemsOk(es) && ElemsHoldObject(es)
    ensures exists x, w, y :: ObjectIn(ElemsText(es), x, w, y)
  {
    ElemsParts(es);
    if HoldsObject(es.value) {
      ObjectInside(es.value);
      var x, w, y :| ObjectIn(Text(es.value), x, w, y);
      var tail := if es.rest.Elem? then es.after + "," + ElemsText(es.rest) else es.after;
      InContext(es.before, Text(es.value), tail, x, w, y);
    } else {
      ObjectInElems(es.rest);
      var x, w, y :| ObjectIn(ElemsText(es.rest), x, w, y);
      InContext(es.before + Text(es.value) + es.after + ",", ElemsText(es.rest), "", x, w, y);
    }
  }

  /** An array that holds an object at any depth is lost, if the reply has at most twenty opening braces. */
  lemma ArrayWithObjectLost(pre: string, v: Json, post: string, loads: string -> bool, r: string)
    requires WellFormed(v) && v.Arr? && HoldsObject(v) && LoadsJson(loads)
    requires Lacks(pre, '[') && !(FENCE <= LStrip(pre))
    requires var t := Body(Some(pre + Text(v) + post)); Openers(t, '{', |t|) <= 20 && Extracts(t, loads, r)
    ensures r != Text(v)
  {
    ArrayExact(pre, v, post, loads, r);
    TextEnds(v);
    UnfencedBody(pre, Text(v), post);
    ObjectInside(v);
    var x, w, y :| ObjectIn(Text(v), x, w, y);
    InnerObjectWins(LStrip(pre), RStrip(post), Text(v), x, w, y, loads);
  }

  lemma InnerObjectWins(a: string, b: string, m: string, x: string, w: Json, y: string, loads: string -> bool)
    requires ObjectIn(m, x, w, y) && LoadsJson(loads) && Openers(a + m + b, '{', |a + m + b|) <= 20
    ensures !PassFails(a + m + b, BRACES, loads)
  {
    InContext(a, m, b, x, w, y);
    ValueParses(a + x, w, y + b, BRACES, loads);
    TextEnds(w);
    WinsInReach(a + m + b, |a + x|, |a + x| + |Text(w)|, loads);
  }

  lemma WinsInReach(t: string, s: int, e: int, loads: string -> bool)
    requires Parses(t, BRACES, loads, s, e) && Openers(t, '{', |t|) <= 20
    ensures Wins(t, BRACES, loads, s, e)
  {
    OpenerInReach(t, '{', s);
  }

  /** Where the first element sits in the text of an array. */
  lemma ArrayHead(v: Json) returns (tail: string)
    requires v.Arr? && v.elems.Elem?
    ensures Text(v) == ("[" + (v.pad + v.elems.before)) + Text(v.elems.value) + tail
  {
    var el := v.elems;
    var rest := if el.rest.NoElem? then "" else "," + ElemsText(el.rest);
    tail := el.after + rest + "]";
    var first := Text(el.value);
    assert ElemsText(el) == el.before + first + el.after + rest;
    calc {
      "[" + (v.pad + (el.before + first + el.after + rest)) + "]";
      ("[" + (v.pad + el.before)) + first + tail;
    }
  }

  lemma FirstObjectFound(a: string, v: Json, q: string, loads: string -> bool, r: string)
    requires WellFormed(v) && v.Arr? && v.elems.Elem? && v.elems.value.Obj? && LoadsJson(loads) && Lacks(a, '{')
    requires Extracts(a + Text(v) + q, loads, r)
    ensures r == Text(v.elems.value)
  {
    var tail := ArrayHead(v);
    var open := "[" + (v.pad + v.elems.before);
    Regroup(a, open, Text(v.elems.value), tail, q);
    ObjectFound(a + open, v.elems.value, tail + q, loads, r);
  }

  /** A reply whose array starts with an object yields that object instead of the array. */
  lemma ArrayOfObjectsYieldsFirst(pre: string, v: Json, post: string, loads: string -> bool, r: string)
    requires WellFormed(v) && v.Arr? && v.elems.Elem? && v.elems.value.Obj? && LoadsJson(loads)
    requires Lacks(pre, '{') && !(FENCE <= LStrip(pre))
    requires Extracts(Body(Some(pre + Text(v) + post)), loads, r)
    ensures r == Text(v.elems.value) && r != Text(v)
  {
    TextEnds(v);
    UnfencedBody(pre, Text(v), post);
    LacksLStrip(pre, '{');
    FirstObjectFound(LStrip(pre), v, RStrip(post), loads, r);
    TextEnds(v.elems.value);
  }

  lemma Regroup(a: string, b: string, c: string, d: string, e: string)
    ensures a + (b + c + d) + e == (a + b) + c + (d + e)
  {
  }

  // ---------------------------------------------------------------- idempotence

  /** A result of the object pass is a fixed point of the extraction, for any parser at all. */
  lemma ObjectPassIdempotent(t: string, loads: string -> bool, r: string, again: string)
    requires PassYields(t, BRACES, loads, r)
    requires Extracts(Body(Some(r)), loads, again)
    ensures again == r
  {
    var s, e :| Wins(t, BRACES, loads, s, e) && r == t[s..e];
    RunStandsAlone(t, s, e, BRACES, loads);
    assert Body(Some(r)) == r;
    ExtractsUnique(r, loads, r, again);
  }

  /** A winning run, taken out of its text, balances and wins by itself. */
  lemma RunStandsAlone(t: string, s: int, e: int, p: Pair, loads: string -> bool)
    requires IsPass(p) && Wins(t, p, loads, s, e)
    ensures Body(Some(t[s..e])) == t[s..e]
    ensures PassYields(t[s..e], p, loads, t[s..e])
  {
    var r := t[s..e];
    RunEndsWithClose(t, s, e, p);
    StripFixed(r);
    assert r[0] == p.open != '`';
    RunWinsAlone(t, s, e, p, loads);
  }

  lemma RunWinsAlone(t: string, s: int, e: int, p: Pair, loads: string -> bool)
    requires Wins(t, p, loads, s, e)
    ensures PassYields(t[s..e], p, loads, t[s..e])
  {
    var r := t[s..e];
    forall j | 0 < j <= |r| ensures DepthAt(r, 0, j, p) == DepthAt(t, s, s + j, p) {
      assert r[0..j] == t[s..s + j];
    }
    assert r[0..|r|] == r;
    assert Wins(r, p, loads, 0, |r|);
  }

  lemma RunEndsWithClose(t: string, s: int, e: int, p: Pair)
    requires IsPass(p) && ClosesAt(t, s, e, p)
    ensures t[e - 1] == p.close
  {
    RunExtends(t, s, e - 1, p);
    OpenKeepsPositive(t, s, e - 1, p);
    assert t[s..s] == "";
  }

  /** An array result is a fixed point too, provided the text held at most twenty opening braces. */
  lemma ArrayPassIdempotent(t: string, loads: string -> bool, r: string, again: string)
    requires PassFails(t, BRACES, loads) && PassYields(t, BRACKETS, loads, r)
    requires Openers(t, '{', |t|) <= 20
    requires Extracts(Body(Some(r)), loads, again)
    ensures again == r
  {
    var s, e :| Wins(t, BRACKETS, loads, s, e) && r == t[s..e];
    RunStandsAlone(t, s, e, BRACKETS, loads);
    SlicePiece(t, s, e);
    forall s', e' ensures !Wins(r, BRACES, loads, s', e') {
      if Wins(r, BRACES, loads, s', e') {
        InnerWin(r, t, s, s', e', BRACES, loads);
      }
    }
    ExtractsUnique(r, loads, r, again);
  }

  /** The bound is needed: behind twenty stray braces an array of objects comes back, and then its first object. */
  lemma ArrayIdempotenceFails(v: Json, loads: string -> bool, again: string)
    requires WellFormed(v) && v.Arr? && v.elems.Elem? && v.elems.value.Obj? && LoadsJson(loads)
    requires Extracts(Body(Some(Text(v))), loads, again)
    ensures var t := Stray(20) + Text(v);
      PassFails(t, BRACES, loads) && PassYields(t, BRACKETS, loads, Text(v)) && again != Text(v)
  {
    StrayThenArray(20, v, loads);
    assert "" + Text(v) + "" == Text(v);
    ArrayOfObjectsYieldsFirst("", v, "", loads, again);
  }

  lemma StrayThenArray(n: nat, v: Json, loads: string -> bool)
    requires n == 20 && WellFormed(v) && v.Arr? && LoadsJson(loads)
    ensures PassFails(Stray(n) + Text(v), BRACES, loads)
    ensures PassYields(Stray(n) + Text(v), BRACKETS, loads, Text(v))
  {
    var pre := Stray(n);
    var t := pre + Text(v);
    StrayRuns(n, 0);
    assert t == pre + Text(v) + "";
    FirstValueWins(pre, v, "", BRACKETS, loads);
    OpenersPrefix(pre, Text(v), '{', n);
    forall s, e ensures !Wins(t, BRACES, loads, s, e) {
      if Wins(t, BRACES, loads, s, e) {
        if s < n {
          StrayNeverCloses(n, v, s, e);
        } else {
          OpenersGrow(t, '{', n, s);
        }
      }
    }
  }

  /** `r` is a piece of `t` that starts at `s`: every slice of it is a slice of `t`. */
  ghost predicate PieceOf(r: string, t: string, s: int) {
    && 0 <= s && s + |r| <= |t|
    && (forall i :: 0 <= i < |r| ==> r[i] == t[s + i])
    && (forall a, b :: 0 <= a <= b <= |r| ==> r[a..b] == t[s + a..s + b])
  }

  lemma SlicePiece(t: string, s: int, e: int)
    requires 0 <= s <= e <= |t|
    ensures PieceOf(t[s..e], t, s)
  {
    var r := t[s..e];
    forall a, b | 0 <= a <= b <= |r| ensures r[a..b] == t[s + a..s + b] {
      assert forall i :: 0 <= i < b - a ==> r[a..b][i] == r[a + i] == t[s + a + i] == t[s + a..s + b][i];
    }
  }

  lemma InnerCloses(r: string, t: string, s: int, s': int, e': int, p: Pair)
    requires PieceOf(r, t, s) && ClosesAt(r, s', e', p)
    ensures ClosesAt(t, s + s', s + e', p) && t[s + s'..s + e'] == r[s'..e']
  {
    var lo, hi := s + s', s + e';
    assert r[s'..e'] == t[lo..hi];
    forall k | lo < k < hi ensures DepthAt(t, lo, k, p) != 0 {
      assert DepthAt(r, s', k - s, p) != 0;
      assert r[s'..k - s] == t[lo..k];
    }
  }

  /** Every opener of a text with at most twenty of them is within reach of the retry loop. */
  lemma OpenerInReach(t: string, c: char, k: int)
    requires 0 <= k < |t| && t[k] == c && Openers(t, c, |t|) <= 20
    ensures Openers(t, c, k) < 20
  {
    OpenersGrow(t, c, k + 1, |t|);
  }

  /** A winning run inside a piece of the text is a winning run of the text. */
  lemma InnerWin(r: string, t: string, s: int, s': int, e': int, p: Pair, loads: string -> bool)
    requires PieceOf(r, t, s) && Wins(r, p, loads, s', e')
    requires Openers(t, p.open, |t|) <= 20
    ensures Wins(t, p, loads, s + s', s + e')
  {
    InnerCloses(r, t, s, s', e', p);
    OpenerInReach(t, p.open, s + s');
  }

  // ---------------------------------------------------------------- fences

  /** A fence cannot overlap a character that is not a backtick. */
  lemma FenceAvoids(t: string, i: int, k: int)
    requires OccursAt(t, FENCE, i) && 0 <= k < |t| && t[k] != '`'
    ensures k < i || i + 3 <= k
  {
    forall j | i <= j < i + 3 ensures t[j] == '`' {
      assert t[i..i + 3][j - i] == t[j];
    }
  }

  lemma OccursInside(a: string, m: string, b: string, i: int)
    requires 0 <= i && i + 3 <= |m|
    ensures OccursAt(a + m + b, FENCE, |a| + i) <==> OccursAt(m, FENCE, i)
  {
    assert (a + m + b)[|a| + i..|a| + i + 3] == m[i..i + 3];
  }

  lemma RStripKeepsFence(post: string)
    ensures Contains(RStrip(post), FENCE) <==> Contains(post, FENCE)
  {
    var q := RStrip(post);
    RStripSpec(post);
    if i :| OccursAt(q, FENCE, i) {
      assert post[i..i + 3] == q[i..i + 3];
      assert OccursAt(post, FENCE, i);
    }
    if i :| OccursAt(post, FENCE, i) {
      assert post[i..i + 3][2] == post[i + 2] == '`';
      if i + 3 > |q| {
        Visible('`');
        assert false;
      }
      assert q[i..i + 3] == post[i..i + 3];
      assert OccursAt(q, FENCE, i);
    }
  }

  /** The opening of a fenced reply: leading space, the fence, a language tag and the rest of the prose. */
  ghost predicate FenceHead(tag: string, pre: string) {
    Lacks(tag, '\n') && Lacks(tag, '{') && Lacks(pre, '{') && !Contains(pre, FENCE)
  }

  function Head(tag: string, pre: string): string {
    FENCE + tag + "\n" + pre
  }

  lemma FencedStrip(w: string, h: string, m: string, post: string)
    requires Blank(w) && m != "" && !IsSpace(m[0]) && !IsSpace(m[|m| - 1])
    requires h != "" && !IsSpace(h[0])
    ensures Strip(w + h + m + post) == h + m + RStrip(post)
  {
    StripAround(w + h, m, post);
    LStripAppend(w, h);
    BlankStrips(w);
    assert "" + h == h;
  }

  /** No fence starts inside the head after its line break. */
  lemma HeadFences(tag: string, pre: string, m: string, q: string, i: int)
    requires FenceHead(tag, pre) && m != "" && m[0] == '{'
    requires OccursAt(Head(tag, pre) + m + q, FENCE, i)
    ensures i < 3 + |tag| || i > |Head(tag, pre)|
  {
    var h := Head(tag, pre);
    var t := h + m + q;
    var nl := 3 + |tag|;
    assert t[nl] == '\n' && t[|h|] == '{';
    FenceAvoids(t, i, nl);
    FenceAvoids(t, i, |h|);
    if nl < i && i + 3 <= |h| {
      assert t == (FENCE + tag + "\n") + pre + (m + q);
      OccursInside(FENCE + tag + "\n", pre, m + q, i - nl - 1);
    }
  }

  /** In a fenced reply the first line break is the one after the tag. */
  lemma HeadNewline(tag: string, pre: string, rest: string)
    requires Lacks(tag, '\n')
    ensures Find(Head(tag, pre) + rest, '\n', 0) == 3 + |tag|
  {
    var t := Head(tag, pre) + rest;
    assert t[3 + |tag|] == '\n';
    forall k | 0 <= k < 3 + |tag| ensures t[k] != '\n' {
      if k >= 3 { assert t[k] == tag[k - 3]; } else { assert t[k] == FENCE[k]; }
    }
  }

  /** With a fence after the object, unwrapping keeps the object whole. */
  lemma ClosedFence(tag: string, pre: string, m: string, q: string)
    requires Contains(q, FENCE)
    ensures var t := Head(tag, pre) + m + q;
      exists b :: (RFind(t, FENCE) > 3 + |tag| && t[4 + |tag|..RFind(t, FENCE)] == pre + m + b)
  {
    var h := Head(tag, pre);
    var t := h + m + q;
    var i :| 0 <= i <= |q| && OccursAt(q, FENCE, i) && |FENCE| == 3;
    assert t == (h + m) + q + "";
    OccursInside(h + m, q, "", i);
    var last := RFind(t, FENCE);
    assert last >= |h| + |m| + i;
    assert t[4 + |tag|..last] == pre + m + q[..last - |h| - |m|];
  }

  lemma HeadSlice(tag: string, pre: string, m: string, q: string, n: nat)
    requires n <= |m|
    ensures var t, h := Head(tag, pre) + m + q, Head(tag, pre); t[4 + |tag|..|h| + n] == pre + m[..n]
  {
    var t, h := Head(tag, pre) + m + q, Head(tag, pre);
    assert |h| == 4 + |tag| + |pre|;
    assert forall i :: 0 <= i < |pre| ==> t[4 + |tag| + i] == pre[i];
    assert forall i :: 0 <= i < n ==> t[|h| + i] == m[i];
  }

  /** Without one, a fence inside the object cuts the object short. */
  lemma CutFence(tag: string, pre: string, m: string, q: string)
    requires |m| >= 2 && m[0] == '{' && m[|m| - 1] == '}'
    requires !Contains(q, FENCE) && Contains(m, FENCE)
    ensures var t := Head(tag, pre) + m + q;
      exists n :: 0 < n < |m| && RFind(t, FENCE) > 3 + |tag| && t[4 + |tag|..RFind(t, FENCE)] == pre + m[..n]
  {
    var h := Head(tag, pre);
    var t := h + m + q;
    var i :| 0 <= i <= |m| && OccursAt(m, FENCE, i) && |FENCE| == 3;
    OccursInside(h, m, q, i);
    var last := RFind(t, FENCE);
    assert last >= |h| + i;
    assert i > 0 by { FenceAvoids(m, i, 0); }
    NotAfterObject(tag, pre, m, q, last);
    var n := last - |h|;
    HeadSlice(tag, pre, m, q, n);
  }

  /** A second fence in the prose, and none later, cuts the reply off before the object. */
  lemma SecondFence(tag: string, pre: string, m: string, q: string)
    requires |m| >= 2 && m[0] == '{' && m[|m| - 1] == '}'
    requires !Contains(q, FENCE) && !Contains(m, FENCE) && Contains(pre, FENCE)
    ensures var t := Head(tag, pre) + m + q;
      exists k :: 0 <= k <= |pre| && RFind(t, FENCE) > 3 + |tag| && t[4 + |tag|..RFind(t, FENCE)] == pre[..k]
  {
    var line, h := FENCE + tag + "\n", Head(tag, pre);
    var t := h + m + q;
    assert t == line + pre + (m + q) && |line| == 4 + |tag|;
    var i :| 0 <= i <= |pre| && OccursAt(pre, FENCE, i) && |FENCE| == 3;
    OccursInside(line, pre, m + q, i);
    var last := RFind(t, FENCE);
    assert last >= |line| + i;
    NotAfterObject(tag, pre, m, q, last);
    assert t[|h|] == '{' && t[|h| + |m| - 1] == '}';
    FenceAvoids(t, last, |h|);
    FenceAvoids(t, last, |h| + |m| - 1);
    if last > |h| {
      OccursInside(h, m, q, last - |h|);
      assert false;
    }
    var k := last - |line|;
    assert t[|line|..last] == pre[..k];
  }

  /** A body without any opening brace yields no object, but for the two characters of the empty reply. */
  lemma LackingLoses(body: string, loads: string -> bool, r: string, m: string)
    requires Lacks(body, '{') && Extracts(body, loads, r) && m != "" && m[0] == '{'
    ensures r == m ==> m == "{}"
  {
    if PassYields(body, BRACKETS, loads, r) {
      var s, e :| Wins(body, BRACKETS, loads, s, e) && r == body[s..e];
      assert r[0] == '[';
    }
  }

  lemma LacksStrip(s: string, c: char)
    requires Lacks(s, c)
    ensures Lacks(Strip(s), c)
  {
    LacksLStrip(s, c);
    LacksRStrip(LStrip(s), c);
  }

  lemma NotAfterObject(tag: string, pre: string, m: string, q: string, i: int)
    requires |m| >= 2 && m[|m| - 1] == '}' && !Contains(q, FENCE)
    requires OccursAt(Head(tag, pre) + m + q, FENCE, i)
    ensures i < |Head(tag, pre)| + |m| - 1
  {
    var h := Head(tag, pre);
    var t := h + m + q;
    var k := |h| + |m| - 1;
    assert t[k] == '}';
    FenceAvoids(t, i, k);
    if k < i {
      assert t == (h + m) + q + "";
      OccursInside(h + m, q, "", i - |h| - |m|);
    }
  }

  /** With no fence in or after the object, the only fence is the opening one and nothing is unwrapped. */
  lemma OpenFence(tag: string, pre: string, m: string, q: string)
    requires FenceHead(tag, pre) && |m| >= 2 && m[0] == '{' && m[|m| - 1] == '}'
    requires !Contains(q, FENCE) && !Contains(m, FENCE)
    ensures RFind(Head(tag, pre) + m + q, FENCE) < 3 + |tag|
  {
    var h := Head(tag, pre);
    var t := h + m + q;
    var last := RFind(t, FENCE);
    if last != -1 {
      HeadFences(tag, pre, m, q, last);
      NotAfterObject(tag, pre, m, q, last);
      if last > |h| {
        FenceAvoids(t, last, |h| + |m| - 1);
        OccursInside(h, m, q, last - |h|);
      }
    }
  }

  /** A brace in the stripped text comes from the part behind the prose. */
  lemma BraceIsLate(pre: string, piece: string, s: nat)
    requires Lacks(pre, '{') && s < |Strip(pre + piece)| && Strip(pre + piece)[s] == '{'
    ensures |Strip(pre + piece)| - s <= |piece|
  {
    var x := pre + piece;
    var l := LStrip(x);
    LStripSpec(x);
    RStripSpec(l);
    assert x[|x| - |l| + s] == l[s];
  }

  /** An object's text cannot come out of a body that holds only part of it. */
  lemma CutObjectLost(pre: string, m: string, n: nat, loads: string -> bool, r: string)
    requires Lacks(pre, '{') && 0 < n < |m| && m[0] == '{'
    requires Extracts(Strip(pre + m[..n]), loads, r)
    ensures r != m || m == "{}"
  {
    var body := Strip(pre + m[..n]);
    assert body[0..|body|] == body;
    if s, e :| 0 <= s <= e <= |body| && r == body[s..e] {
      if r == m {
        BraceIsLate(pre, m[..n], s);
      }
    }
  }

  /** What `Body` does once the stripped text, its first line break and its last fence are known. */
  lemma BodyByParts(text: string, t: string, nl: int, last: int)
    requires Strip(text) == t && FENCE <= t && nl == Find(t, '\n', 0) >= 0 && last == RFind(t, FENCE)
    ensures Body(Some(text)) == if last > nl then Strip(t[nl + 1..last]) else t
  {
  }

  /** The body of a reply whose fence closes: the tag line is gone, whatever it says, and a value inside is whole. */
  lemma ClosedFenceBody(w: string, tag: string, pre: string, m: string, post: string)
    requires Blank(w) && Lacks(tag, '\n') && Contains(post, FENCE)
    requires m != "" && !IsSpace(m[0]) && !IsSpace(m[|m| - 1])
    ensures exists b :: Body(Some(w + Head(tag, pre) + m + post)) == LStrip(pre) + m + RStrip(b)
  {
    var text, q := w + Head(tag, pre) + m + post, RStrip(post);
    Visible('`');
    FencedStrip(w, Head(tag, pre), m, post);
    RStripKeepsFence(post);
    FencedBody(text, tag, pre, m, q);
    ClosedFence(tag, pre, m, q);
    var t := Head(tag, pre) + m + q;
    var b :| RFind(t, FENCE) > 3 + |tag| && t[4 + |tag|..RFind(t, FENCE)] == pre + m + b;
    StripAround(pre, m, b);
  }

  /**
   * A closed fence with any language tag on its line: its object comes back, under the same condition as an unfenced
   * one, stray braces in the prose included.
   */
  lemma ClosedFenceObject(w: string, tag: string, pre: string, v: Json, post: string, loads: string -> bool, r: string)
    requires WellFormed(v) && v.Obj? && LoadsJson(loads)
    requires Blank(w) && Lacks(tag, '\n') && Contains(post, FENCE)
    requires Extracts(Body(Some(w + Head(tag, pre) + Text(v) + post)), loads, r)
    ensures NoneBefore(Body(Some(w + Head(tag, pre) + Text(v) + post)), BRACES, loads, |LStrip(pre)|) ==>
      (r == Text(v) <==> Openers(pre, '{', |pre|) < 20)
    ensures Lacks(pre, '{') ==> r == Text(v)
  {
    TextEnds(v);
    Visible('{');
    ClosedFenceBody(w, tag, pre, Text(v), post);
    var body := Body(Some(w + Head(tag, pre) + Text(v) + post));
    var b :| body == LStrip(pre) + Text(v) + RStrip(b);
    OpenersLStrip(pre, '{');
    if NoneBefore(body, BRACES, loads, |LStrip(pre)|) {
      ObjectAmongBraces(LStrip(pre), v, RStrip(b), loads, r);
    }
    if Lacks(pre, '{') {
      LacksLStrip(pre, '{');
      ObjectFound(LStrip(pre), v, RStrip(b), loads, r);
    }
  }

  /** And its array, if and only if no object run inside the fence parses. */
  lemma ClosedFenceArray(w: string, tag: string, pre: string, v: Json, post: string, loads: string -> bool, r: string)
    requires WellFormed(v) && v.Arr? && LoadsJson(loads)
    requires Blank(w) && Lacks(tag, '\n') && Lacks(pre, '[') && Contains(post, FENCE)
    requires Extracts(Body(Some(w + Head(tag, pre) + Text(v) + post)), loads, r)
    ensures r == Text(v) <==> PassFails(Body(Some(w + Head(tag, pre) + Text(v) + post)), BRACES, loads)
  {
    TextEnds(v);
    ClosedFenceBody(w, tag, pre, Text(v), post);
    var body := Body(Some(w + Head(tag, pre) + Text(v) + post));
    var b :| body == LStrip(pre) + Text(v) + RStrip(b);
    LacksLStrip(pre, '[');
    ArrayFound(LStrip(pre), v, RStrip(b), loads, r);
  }

  /**
   * A reply that opens with a fence, and an object in it behind prose without an opening brace. If some fence follows
   * the object, it comes back. If none does, a fence in the object loses it, and so does one in the prose, but for
   * the empty object; with neither, and no brace on the tag line, it comes back too.
   */
  lemma FencedObjectExact(w: string, tag: string, pre: string, v: Json, post: string, loads: string -> bool, r: string)
    requires WellFormed(v) && v.Obj? && LoadsJson(loads)
    requires Blank(w) && Lacks(tag, '\n') && Lacks(pre, '{')
    requires Extracts(Body(Some(w + Head(tag, pre) + Text(v) + post)), loads, r)
    ensures Contains(post, FENCE) ==> r == Text(v)
    ensures !Contains(post, FENCE) && Contains(Text(v), FENCE) ==> r != Text(v)
    ensures !Contains(post, FENCE) && Contains(pre, FENCE) ==> (r == Text(v) ==> Text(v) == "{}")
    ensures Lacks(tag, '{') && !Contains(pre, FENCE) ==>
      (r == Text(v) <==> (Contains(post, FENCE) || !Contains(Text(v), FENCE)))
  {
    if Contains(post, FENCE) {
      ClosedFenceObject(w, tag, pre, v, post, loads, r);
    } else {
      TextEnds(v);
      Visible('`');
      FencedStrip(w, Head(tag, pre), Text(v), post);
      RStripKeepsFence(post);
      UnclosedFence(w + Head(tag, pre) + Text(v) + post, tag, pre, v, RStrip(post), loads, r);
    }
  }

  lemma UnclosedFence(text: string, tag: string, pre: string, v: Json, q: string, loads: string -> bool, r: string)
    requires WellFormed(v) && v.Obj? && LoadsJson(loads) && Lacks(tag, '\n') && Lacks(pre, '{') && !Contains(q, FENCE)
    requires Strip(text) == Head(tag, pre) + Text(v) + q
    requires Extracts(Body(Some(text)), loads, r)
    ensures Contains(Text(v), FENCE) ==> r != Text(v)
    ensures Contains(pre, FENCE) ==> (r == Text(v) ==> Text(v) == "{}")
    ensures Lacks(tag, '{') && !Contains(pre, FENCE) && !Contains(Text(v), FENCE) ==> r == Text(v)
  {
    var m, h := Text(v), Head(tag, pre);
    var t := h + m + q;
    TextEnds(v);
    FencedBody(text, tag, pre, m, q);
    if Contains(m, FENCE) {
      CutFence(tag, pre, m, q);
      var n :| 0 < n < |m| && t[4 + |tag|..RFind(t, FENCE)] == pre + m[..n];
      CutObjectLost(pre, m, n, loads, r);
      assert Contains(m, FENCE) && !Contains("{}", FENCE);
    } else if Contains(pre, FENCE) {
      SecondFence(tag, pre, m, q);
      var k :| 0 <= k <= |pre| && t[4 + |tag|..RFind(t, FENCE)] == pre[..k];
      LacksStrip(pre[..k], '{');
      LackingLoses(Strip(pre[..k]), loads, r, m);
    } else if Lacks(tag, '{') {
      OpenFence(tag, pre, m, q);
      HeadLacks(tag, pre);
      ObjectFound(h, v, q, loads, r);
    }
  }

  lemma FencedBody(text: string, tag: string, pre: string, m: string, q: string)
    requires Lacks(tag, '\n') && Strip(text) == Head(tag, pre) + m + q
    ensures var t := Head(tag, pre) + m + q;
      Body(Some(text)) == if RFind(t, FENCE) > 3 + |tag| then Strip(t[4 + |tag|..RFind(t, FENCE)]) else t
  {
    var h := Head(tag, pre);
    HeadNewline(tag, pre, m + q);
    assert h + m + q == h + (m + q);
    BodyByParts(text, h + m + q, 3 + |tag|, RFind(h + m + q, FENCE));
  }

  lemma HeadLacks(tag: string, pre: string)
    requires FenceHead(tag, pre)
    ensures Lacks(Head(tag, pre), '{')
  {
  }

  // ---------------------------------------------------------------- replies without a tag line

  /** A fence without any line break is not unwrapped. */
  lemma OneLineBody(w: string, tag: string, m: string, post: string)
    requires Blank(w) && Lacks(tag, '\n') && Lacks(m, '\n') && Lacks(post, '\n')
    requires m != "" && !IsSpace(m[0]) && !IsSpace(m[|m| - 1])
    ensures Body(Some(w + (FENCE + tag) + m + post)) == (FENCE + tag) + m + RStrip(post)
  {
    var h, q := FENCE + tag, RStrip(post);
    Visible('`');
    FencedStrip(w, h, m, post);
    LacksRStrip(post, '\n');
    FenceLacks(tag, '\n');
    LacksParts(h, m, q, '\n');
    NoLineBreak(w + h + m + post, h + m + q);
  }

  lemma NoLineBreak(text: string, t: string)
    requires Strip(text) == t && Lacks(t, '\n')
    ensures Body(Some(text)) == t
  {
  }

  /** What a one-line fenced reply unwraps to has the value behind the fence, its tag and nothing else. */
  lemma OneLineParts(w: string, tag: string, v: Json, post: string, c: char)
    requires WellFormed(v) && (v.Obj? || v.Arr?) && Blank(w) && Lacks(tag, c) && c != '`'
    requires Lacks(tag, '\n') && Lacks(Text(v), '\n') && Lacks(post, '\n')
    ensures Body(Some(w + (FENCE + tag) + Text(v) + post)) == (FENCE + tag) + Text(v) + RStrip(post)
    ensures Lacks(FENCE + tag, c)
  {
    TextEnds(v);
    OneLineBody(w, tag, Text(v), post);
    FenceLacks(tag, c);
  }

  lemma FenceLacks(tag: string, c: char)
    requires Lacks(tag, c) && c != '`'
    ensures Lacks(FENCE + tag, c)
  {
  }

  /** A one-line fenced reply keeps its fence, and an object behind it comes back. */
  lemma OneLineFenceObject(w: string, tag: string, v: Json, post: string, loads: string -> bool, r: string)
    requires WellFormed(v) && v.Obj? && LoadsJson(loads)
    requires Blank(w) && Lacks(tag, '\n') && Lacks(Text(v), '\n') && Lacks(post, '\n') && Lacks(tag, '{')
    requires Extracts(Body(Some(w + (FENCE + tag) + Text(v) + post)), loads, r)
    ensures r == Text(v)
  {
    OneLineParts(w, tag, v, post, '{');
    ObjectFound(FENCE + tag, v, RStrip(post), loads, r);
  }

  /** And so does an array, if and only if no object run of the line parses. */
  lemma OneLineFenceArray(w: string, tag: string, v: Json, post: string, loads: string -> bool, r: string)
    requires WellFormed(v) && v.Arr? && LoadsJson(loads)
    requires Blank(w) && Lacks(tag, '\n') && Lacks(Text(v), '\n') && Lacks(post, '\n') && Lacks(tag, '[')
    requires Extracts(Body(Some(w + (FENCE + tag) + Text(v) + post)), loads, r)
    ensures r == Text(v) <==> PassFails((FENCE + tag) + Text(v) + RStrip(post), BRACES, loads)
  {
    OneLineParts(w, tag, v, post, '[');
    ArrayFound(FENCE + tag, v, RStrip(post), loads, r);
  }

  /** Prose without brackets comes back stripped, and "{}" stands for a blank reply. */
  lemma ProseKept(text: string, loads: string -> bool, r: string)
    requires Lacks(text, '{') && Lacks(text, '[') && Lacks(text, '`') && Extracts(Body(Some(text)), loads, r)
    ensures r == if Blank(text) then "{}" else Strip(text)
  {
    var t := Strip(text);
    LacksStrip(text, '{');
    LacksStrip(text, '[');
    LacksStrip(text, '`');
    NoRunWithoutOpener(t, BRACES, loads);
    NoRunWithoutOpener(t, BRACKETS, loads);
    StripsToNothing(text);
  }

  lemma StripsToNothing(text: string)
    ensures Strip(text) == "" <==> Blank(text)
  {
    var l := LStrip(text);
    LStripSpec(text);
    RStripSpec(l);
    if Blank(text) {
      BlankStrips(text);
    }
    if Strip(text) == "" {
      assert l[0..] == l;
      BlankParts(text, |text| - |l|);
    }
  }

  lemma BlankParts(s: string, n: nat)
    requires n <= |s| && Blank(s[..n]) && Blank(s[n..])
    ensures Blank(s)
  {
    assert forall i :: 0 <= i < |s| ==> s[i] == if i < n then s[..n][i] else s[n..][i - n];
  }

  /** No reply at all is the empty object. */
  lemma NoReply(loads: string -> bool, r: string)
    requires Extracts(Body(None), loads, r)
    ensures r == "{}"
  {
    NoRunWithoutOpener("", BRACES, loads);
    NoRunWithoutOpener("", BRACKETS, loads);
  }
}
