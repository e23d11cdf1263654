/**
 * Mapping a model's answer to one of a question's options, in four tiers, and the loop that keeps only
 * the questions whose answer could be mapped.
 */
module AnswerResolution {
  import opened PyText
  import opened Sequences

  /** Case conversions, whose tables are not modelled. */
  datatype CaseOps = CaseOps(fold: string -> string, lower: string -> string, upper: char -> string)

  /** Strip, drop outer full stops, fold case, collapse white space. */
  function Norm(ops: CaseOps, s: string): string {
    Join(" ", Split(ops.fold(RStripChars(LStripChars(Strip(s), "."), "."))))
  }

  function Norms(ops: CaseOps, opts: seq<string>): seq<string> {
    seq(|opts|, i requires 0 <= i < |opts| => Norm(ops, opts[i]))
  }

  /** Where a dictionary comprehension over the list keeps key `n`: its last occurrence, or -1. */
  function LastIndexOf(keys: seq<string>, n: string): (i: int)
    ensures i == -1 <==> n !in keys
    ensures i != -1 ==> 0 <= i < |keys| && keys[i] == n && n !in keys[i + 1..]
  {
    if keys == [] then -1
    else if keys[|keys| - 1] == n then |keys| - 1
    else
      var i := LastIndexOf(keys[..|keys| - 1], n);
      assert i != -1 ==> keys[i + 1..] == keys[..|keys| - 1][i + 1..] + [keys[|keys| - 1]];
      i
  }

  /** `nmap[n]` for the dictionary from the options' normal forms to the options. */
  function ByNorm(opts: seq<string>, keys: seq<string>, n: string): Option<string>
    requires |keys| == |opts|
  {
    var i := LastIndexOf(keys, n);
    if i == -1 then None else Some(opts[i])
  }

  const PREFIXES := ["option ", "옵션 ", "選択肢 "]

  function DropPrefixes(ops: CaseOps, letter: string, prefixes: seq<string>): string
    decreases |prefixes|
  {
    if prefixes == [] then letter
    else
      var p := prefixes[0];
      var rest := if p <= ops.lower(letter) then Strip(if |p| <= |letter| then letter[|p|..] else "") else letter;
      DropPrefixes(ops, rest, prefixes[1..])
  }

  /** The index of a single letter A to H, or -1. */
  function LetterValue(ops: CaseOps, letter: string): (i: int)
    ensures -1 <= i < 8
  {
    if |letter| != 1 then -1
    else
      var u := ops.upper(letter[0]);
      if |u| == 1 && 'A' <= u[0] <= 'H' then u[0] as int - 'A' as int else -1
  }

  /** The option index a letter or "Option X" reference stands for, or -1. */
  function LetterIndex(ops: CaseOps, ca: string): (i: int)
    ensures -1 <= i < 8
  {
    var bare := Strip(RStripChars(LStripChars(Strip(ca), "("), ").:"));
    LetterValue(ops, DropPrefixes(ops, bare, PREFIXES))
  }

  /** One normal form is non-empty and contains, or is contained in, the other. */
  predicate Overlaps(ops: CaseOps, ca: string, option: string) {
    var n, m := Norm(ops, ca), Norm(ops, option);
    n != "" && (Contains(m, n) || Contains(n, m))
  }

  function OverlapTest(ops: CaseOps, ca: string): string -> bool {
    o => Overlaps(ops, ca, o)
  }

  /** The four tiers, given the stripped answer, the normal forms, the letter reading and the overlaps. */
  function Tiers(
    ca: string, opts: seq<string>, keys: seq<string>, key: string, letter: int, found: seq<string>): Option<string>
    requires |keys| == |opts|
  {
    if opts == [] || ca == "" then None
    else if ca in opts then Some(ca)
    else if ByNorm(opts, keys, key).Some? then ByNorm(opts, keys, key)
    else if 0 <= letter < |opts| then Some(opts[letter])
    else if |found| == 1 then Some(found[0])
    else None
  }

  /** `_resolve_correct_answer`; `correct` is `str(correct or "")`. */
  function Resolve(ops: CaseOps, correct: string, opts: seq<string>): Option<string> {
    var ca := Strip(correct);
    Tiers(ca, opts, Norms(ops, opts), Norm(ops, ca), LetterIndex(ops, ca), Filter(opts, OverlapTest(ops, ca)))
  }

  // ---------------------------------------------------------------- laws of the resolution

  /** A resolved answer is one of the options, character for character. */
  lemma ResolvesToOption(ops: CaseOps, correct: string, opts: seq<string>)
    ensures Resolve(ops, correct, opts).Some? ==> Resolve(ops, correct, opts).value in opts
  {
    FilterSatisfies(opts, OverlapTest(ops, Strip(correct)));
  }

  lemma NormOfStrip(ops: CaseOps, s: string)
    ensures Norm(ops, Strip(s)) == Norm(ops, s)
  {
    StripIdempotent(s);
  }

  lemma NothingLater(keys: seq<string>, n: string, j: nat)
    requires LastIndexOf(keys, n) < j < |keys| && n in keys
    ensures keys[j] != n
  {
    var i := LastIndexOf(keys, n);
    assert keys[i + 1..][j - i - 1] == keys[j];
  }

  /** Position `i` holds `r`, and no later option has the key `n`. */
  predicate LastWithKey(opts: seq<string>, keys: seq<string>, n: string, r: string, i: int)
    requires |keys| == |opts|
  {
    0 <= i < |opts| && opts[i] == r && forall j :: i < j < |opts| ==> keys[j] != n
  }

  lemma ByKeyIsLast(opts: seq<string>, keys: seq<string>, n: string, r: string)
    requires |keys| == |opts| && r in opts && forall i :: 0 <= i < |opts| && opts[i] == r ==> keys[i] == n
    ensures ByNorm(opts, keys, n).Some?
    ensures ByNorm(opts, keys, n) == Some(r) <==> exists i :: LastWithKey(opts, keys, n, r, i)
  {
    var k :| 0 <= k < |opts| && opts[k] == r;
    assert keys[k] == n;
    var last := LastIndexOf(keys, n);
    forall j | last < j < |keys| ensures keys[j] != n {
      NothingLater(keys, n, j);
    }
    if opts[last] == r {
      assert LastWithKey(opts, keys, n, r, last);
    }
    forall i | LastWithKey(opts, keys, n, r, i) ensures i == last {
      assert keys[i] == n;
    }
  }

  /** The last option with r's normal form is r. */
  ghost predicate LastOfItsNorm(ops: CaseOps, opts: seq<string>, r: string) {
    exists i :: LastWithKey(opts, Norms(ops, opts), Norm(ops, r), r, i)
  }

  /**
   * Resolving an option again gives that option back exactly when it is visible and either carries no outer
   * white space, or its stripped text is no option and it is the last option with its normal form.
   */
  lemma FixedPointExactly(ops: CaseOps, r: string, opts: seq<string>)
    requires r in opts
    ensures Resolve(ops, r, opts) == Some(r)
       <==> Strip(r) != "" && (Strip(r) == r || (Strip(r) !in opts && LastOfItsNorm(ops, opts, r)))
  {
    NormOfStrip(ops, r);
    ByKeyIsLast(opts, Norms(ops, opts), Norm(ops, r), r);
  }

  /** An option always resolves to some option, unless it is blank. */
  lemma OptionResolves(ops: CaseOps, r: string, opts: seq<string>)
    requires r in opts
    ensures Resolve(ops, r, opts).Some? <==> Strip(r) != ""
  {
    NormOfStrip(ops, r);
    var i :| 0 <= i < |opts| && opts[i] == r;
    assert Norms(ops, opts)[i] == Norm(ops, r);
  }

  /** With options " B " and "B" the first is a possible answer, but it resolves to the second. */
  lemma FixedPointFails(ops: CaseOps)
    requires ops.fold("A") == "a" && ops.fold("B") == "b" && ops.lower("A") == "a" && ops.upper('A') == "A"
    ensures Resolve(ops, "A", [" B ", "B"]) == Some(" B ")
    ensures Resolve(ops, " B ", [" B ", "B"]) == Some("B")
  {
    LetterReachesFirst(ops);
    PaddedReachesSecond(ops);
  }

  lemma PaddedReachesSecond(ops: CaseOps)
    ensures Resolve(ops, " B ", [" B ", "B"]) == Some("B")
  {
    BlankIsSpace();
    StripOne(" ", 'B', " ");
    assert " " + "B" + " " == " B ";
    var opts := [" B ", "B"];
    assert opts[1] in opts;
  }

  lemma LetterReachesFirst(ops: CaseOps)
    requires ops.fold("A") == "a" && ops.fold("B") == "b" && ops.lower("A") == "a" && ops.upper('A') == "A"
    ensures Resolve(ops, "A", [" B ", "B"]) == Some(" B ")
  {
    StripOne("", 'A', "");
    assert "" + "A" + "" == "A";
    PaddedNorm(ops);
    NormOne(ops, 'A', 'a');
    LetterOne(ops);
    LetterDecides(ops, "A", [" B ", "B"]);
  }

  /** The third tier, when both options have the same normal form and the answer another. */
  lemma LetterDecides(ops: CaseOps, ca: string, opts: seq<string>)
    requires |opts| == 2 && Norm(ops, opts[0]) == "b" && Norm(ops, opts[1]) == "b"
    requires ca != "" && Strip(ca) == ca && ca !in opts && Norm(ops, ca) == "a" && LetterIndex(ops, ca) == 0
    ensures Resolve(ops, ca, opts) == Some(opts[0])
  {
    NormsOfTwo(ops, opts);
    FirstByLetter(ca, opts, ["b", "b"], "a", Filter(opts, OverlapTest(ops, ca)));
  }

  lemma NormsOfTwo(ops: CaseOps, opts: seq<string>)
    requires |opts| == 2 && Norm(ops, opts[0]) == "b" && Norm(ops, opts[1]) == "b"
    ensures Norms(ops, opts) == ["b", "b"]
  {
  }

  lemma FirstByLetter(ca: string, opts: seq<string>, keys: seq<string>, key: string, found: seq<string>)
    requires |opts| == |keys| == 2 && ca != "" && ca !in opts && key !in keys
    ensures Tiers(ca, opts, keys, key, 0, found) == Some(opts[0])
  {
  }

  lemma PaddedNorm(ops: CaseOps)
    requires ops.fold("B") == "b"
    ensures Norm(ops, " B ") == "b" && Norm(ops, "B") == "b"
  {
    BlankIsSpace();
    StripOne(" ", 'B', " ");
    assert " " + "B" + " " == " B ";
    NormOne(ops, 'B', 'b');
    NormOfStrip(ops, " B ");
  }

  lemma StripOne(a: string, c: char, b: string)
    requires Blank(a) && Blank(b) && 33 <= c as int < 0x85
    ensures Strip(a + [c] + b) == [c]
  {
    Visible(c);
    StripAround(a, [c], b);
    BlankStrips(a);
    BlankStrips(b);
  }

  lemma NormOne(ops: CaseOps, c: char, low: char)
    requires 33 <= c as int < 0x85 && c != '.' && ops.fold([c]) == [low] && 33 <= low as int < 0x85
    ensures Norm(ops, [c]) == [low]
  {
    StripOne("", c, "");
    Visible(low);
    var t := [low];
    assert LStrip(t) == t && SpanEnd(NotSpace, t, 0) == 1 && t[..1] == t && t[1..] == "";
    assert Split("") == [];
    assert Split(t) == [t];
  }

  lemma {:induction false} NoPrefixDropped(ops: CaseOps, letter: string, prefixes: seq<string>)
    requires forall k :: 0 <= k < |prefixes| ==> |prefixes[k]| > |ops.lower(letter)|
    ensures DropPrefixes(ops, letter, prefixes) == letter
  {
    if prefixes != [] {
      NoPrefixDropped(ops, letter, prefixes[1..]);
    }
  }

  lemma LetterOne(ops: CaseOps)
    requires ops.lower("A") == "a" && ops.upper('A') == "A"
    ensures LetterIndex(ops, "A") == 0
  {
    StripOne("", 'A', "");
    assert RStripChars(LStripChars("A", "("), ").:") == "A";
    NoPrefixDropped(ops, "A", PREFIXES);
  }

  /**
   * If no two options share a normal form, any visible answer with an option's normal form resolves to
   * that option, whatever its letter reading or substrings would suggest.
   */
  lemma NormDecides(ops: CaseOps, correct: string, opts: seq<string>, i: nat)
    requires forall j, k :: 0 <= j < k < |opts| ==> Norm(ops, opts[j]) != Norm(ops, opts[k])
    requires i < |opts| && Strip(correct) != "" && Norm(ops, correct) == Norm(ops, opts[i])
    ensures Resolve(ops, correct, opts) == Some(opts[i])
  {
    NormOfStrip(ops, correct);
    var ca, keys := Strip(correct), Norms(ops, opts);
    if k :| 0 <= k < |opts| && opts[k] == ca {
      assert keys[k] == Norm(ops, ca);
    }
    KeyDecides(ca, opts, keys, i, LetterIndex(ops, ca), Filter(opts, OverlapTest(ops, ca)));
  }

  lemma KeyDecides(ca: string, opts: seq<string>, keys: seq<string>, i: nat, letter: int, found: seq<string>)
    requires |keys| == |opts| && i < |opts| && ca != ""
    requires forall j, k :: 0 <= j < k < |keys| ==> keys[j] != keys[k]
    requires forall k :: 0 <= k < |opts| && opts[k] == ca ==> keys[k] == keys[i]
    ensures Tiers(ca, opts, keys, keys[i], letter, found) == Some(opts[i])
  {
  }

  /** None of the first three tiers has an answer. */
  predicate OnlyContainmentLeft(ops: CaseOps, ca: string, opts: seq<string>) {
    && opts != [] && ca != "" && ca !in opts
    && ByNorm(opts, Norms(ops, opts), Norm(ops, ca)).None?
    && !(0 <= LetterIndex(ops, ca) < |opts|)
  }

  /** The containment tier answers if and only if exactly one option overlaps the answer, and gives it. */
  lemma ContainmentIsUnique(ops: CaseOps, correct: string, opts: seq<string>)
    requires OnlyContainmentLeft(ops, Strip(correct), opts)
    ensures var overlaps := OverlapTest(ops, Strip(correct));
      && (Resolve(ops, correct, opts).Some? <==> exists i :: OnlyAt(opts, overlaps, i))
      && (forall i :: OnlyAt(opts, overlaps, i) ==> Resolve(ops, correct, opts) == Some(opts[i]))
  {
    var found := Filter(opts, OverlapTest(ops, Strip(correct)));
    assert Resolve(ops, correct, opts) == if |found| == 1 then Some(found[0]) else None;
    FilterCounts(opts, OverlapTest(ops, Strip(correct)));
  }
}
