/**
 * The four tiers one by one, stated over the characters of the answer and the normal forms of the options: what each
 * tier answers and when the next one is asked.
 */
module AnswerTiers {
  import opened PyText
  import opened Sequences
  import opened AnswerResolution

  // ---------------------------------------------------------------- the normal form

  predicate OnlyOf(s: string, chars: string) {
    forall i :: 0 <= i < |s| ==> s[i] in chars
  }

  lemma {:induction false} LStripCharsAround(a: string, x: string, chars: string)
    requires OnlyOf(a, chars) && (x != "" ==> x[0] !in chars)
    ensures LStripChars(a + x, chars) == x
  {
    if a == "" {
      assert a + x == x;
    } else {
      assert (a + x)[0] == a[0] && (a + x)[1..] == a[1..] + x;
      LStripCharsAround(a[1..], x, chars);
    }
  }

  lemma {:induction false} RStripCharsAround(x: string, b: string, chars: string)
    requires OnlyOf(b, chars) && (x != "" ==> x[|x| - 1] !in chars)
    ensures RStripChars(x + b, chars) == x
  {
    if b == "" {
      assert x + b == x;
    } else {
      var n := |b| - 1;
      assert (x + b)[|x + b| - 1] == b[n] && (x + b)[..|x + b| - 1] == x + b[..n];
      RStripCharsAround(x, b[..n], chars);
    }
  }

  /** A text of words with white space around each of them. */
  function Spaced(gaps: seq<string>, words: seq<string>): string
    requires |gaps| == |words| + 1
  {
    if words == [] then gaps[0] else (gaps[0] + words[0]) + Spaced(gaps[1..], words[1..])
  }

  predicate IsWord(w: string) {
    w != "" && forall i :: 0 <= i < |w| ==> !IsSpace(w[i])
  }

  /** Gaps between words are not empty; the ones at both ends may be. */
  ghost predicate Gaps(gaps: seq<string>) {
    && (forall i :: 0 <= i < |gaps| ==> Blank(gaps[i]))
    && forall i :: 0 < i < |gaps| - 1 ==> gaps[i] != ""
  }

  lemma LStripBlank(a: string, x: string)
    requires Blank(a) && (x != "" ==> !IsSpace(x[0]))
    ensures LStrip(a + x) == x
  {
    BlankStrips(a);
    if x == "" {
      assert a + x == a;
    } else {
      LStripAppend(a, x);
      assert "" + x == x;
    }
  }

  lemma SplitFirst(a: string, w: string, rest: string)
    requires Blank(a) && IsWord(w) && (rest != "" ==> IsSpace(rest[0]))
    ensures Split(a + (w + rest)) == [w] + Split(rest)
  {
    var t := w + rest;
    LStripBlank(a, t);
    assert forall i :: 0 <= i < |t| ==> t[i] == if i < |w| then w[i] else rest[i - |w|];
    SpanIs(NotSpace, t, 0, |w|);
    assert t[..|w|] == w && t[|w|..] == rest;
  }

  lemma {:induction false} SpanIs(p: char -> bool, s: string, from: nat, n: nat)
    requires from <= n <= |s| && (forall i :: from <= i < n ==> p(s[i])) && (n < |s| ==> !p(s[n]))
    ensures SpanEnd(p, s, from) == n
    decreases n - from
  {
    if from < n {
      SpanIs(p, s, from + 1, n);
    }
  }

  /** Splitting gives back the words, whatever white space stands between and around them. */
  lemma {:induction false} SplitSpaced(gaps: seq<string>, words: seq<string>)
    requires |gaps| == |words| + 1 && Gaps(gaps) && forall i :: 0 <= i < |words| ==> IsWord(words[i])
    ensures Split(Spaced(gaps, words)) == words
  {
    if words == [] {
      BlankStrips(gaps[0]);
    } else {
      var rest := Spaced(gaps[1..], words[1..]);
      SplitSpaced(gaps[1..], words[1..]);
      assert rest != "" ==> IsSpace(rest[0]);
      assert gaps[0] + words[0] + rest == gaps[0] + (words[0] + rest);
      SplitFirst(gaps[0], words[0], rest);
    }
  }

  /** Joining, one more word at the end. */
  lemma {:induction false} JoinOneMore(sep: string, words: seq<string>, w: string)
    ensures Join(sep, words + [w]) == if words == [] then w else Join(sep, words) + (sep + w)
  {
    if words != [] {
      assert (words + [w])[0] == words[0] && (words + [w])[1..] == words[1..] + [w];
      JoinOneMore(sep, words[1..], w);
      if |words| > 1 {
        var a, j := words[0], Join(sep, words[1..]);
        assert a + sep + (j + (sep + w)) == (a + sep + j) + (sep + w);
      }
    }
  }

  /**
   * The normal form of a text: outer white space and then outer full stops go, case is folded, and the words stand
   * one blank apart.
   */
  lemma NormForm(
    ops: CaseOps, a: string, left: string, core: string, right: string, b: string,
    gaps: seq<string>, words: seq<string>)
    requires Blank(a) && OnlyOf(left, ".") && OnlyOf(right, ".") && Blank(b)
    requires core != "" && core[0] != '.' && core[|core| - 1] != '.'
    requires (left != "" || !IsSpace(core[0])) && (right != "" || !IsSpace(core[|core| - 1]))
    requires |gaps| == |words| + 1 && Gaps(gaps) && forall i :: 0 <= i < |words| ==> IsWord(words[i])
    requires ops.fold(core) == Spaced(gaps, words)
    ensures Norm(ops, a + (left + core + right) + b) == Join(" ", words)
  {
    VisibleEnds(left, core, right);
    StripBlanks(a, left + core + right, b);
    StopsGo(left, core, right);
    SplitSpaced(gaps, words);
  }

  lemma VisibleEnds(left: string, core: string, right: string)
    requires OnlyOf(left, ".") && OnlyOf(right, ".") && core != ""
    requires (left != "" || !IsSpace(core[0])) && (right != "" || !IsSpace(core[|core| - 1]))
    ensures var m := left + core + right; !IsSpace(m[0]) && !IsSpace(m[|m| - 1])
  {
    var m := left + core + right;
    Visible('.');
    assert m[0] == if left != "" then left[0] else core[0];
    assert m[|m| - 1] == if right != "" then right[|right| - 1] else core[|core| - 1];
  }

  lemma StripBlanks(a: string, m: string, b: string)
    requires Blank(a) && Blank(b) && m != "" && !IsSpace(m[0]) && !IsSpace(m[|m| - 1])
    ensures Strip(a + m + b) == m
  {
    StripAround(a, m, b);
    BlankStrips(a);
    BlankStrips(b);
    assert "" + m + "" == m;
  }

  lemma StopsGo(left: string, core: string, right: string)
    requires OnlyOf(left, ".") && OnlyOf(right, ".") && core != "" && core[0] != '.' && core[|core| - 1] != '.'
    ensures RStripChars(LStripChars(left + core + right, "."), ".") == core
  {
    assert left + core + right == left + (core + right);
    LStripCharsAround(left, core + right, ".");
    RStripCharsAround(core, right, ".");
  }

  // ---------------------------------------------------------------- the letter in an answer

  /** `text` starts with the leading word `p`, letter case aside. */
  predicate LedBy(ops: CaseOps, text: string, p: string) {
    p <= ops.lower(text)
  }

  predicate NoLead(ops: CaseOps, text: string) {
    !LedBy(ops, text, "option ") && !LedBy(ops, text, "옵션 ") && !LedBy(ops, text, "選択肢 ")
  }

  /** `word` is one of the three leading words and `word + rest` starts with no other. */
  predicate OneLead(ops: CaseOps, word: string, rest: string) {
    var text := word + rest;
    var (en, ko, ja) := (LedBy(ops, text, "option "), LedBy(ops, text, "옵션 "), LedBy(ops, text, "選択肢 "));
    || (en && !ko && !ja && |word| == 7)
    || (ko && !en && !ja && |word| == 3)
    || (ja && !en && !ko && |word| == 4)
  }

  /**
   * What is left of an answer once opening parentheses, closing punctuation and at most one leading word are gone:
   * the answer is `left + (word rest) + right`, and `rest` without outer space is `l`.
   */
  ghost predicate BareAnswer(
    ops: CaseOps, answer: string, left: string, m: string, right: string, word: string, rest: string, l: string) {
    && Strip(answer) == left + m + right && OnlyOf(left, "(") && OnlyOf(right, ").:")
    && (m != "" ==> m[0] != '(' && m[|m| - 1] !in ").:")
    && Strip(m) == word + rest && Strip(rest) == l
    && (word != "" ==> OneLead(ops, word, rest)) && NoLead(ops, l)
  }

  lemma BareIs(ca: string, left: string, m: string, right: string)
    requires ca == left + m + right && OnlyOf(left, "(") && OnlyOf(right, ").:")
    requires m != "" ==> m[0] != '(' && m[|m| - 1] !in ").:"
    ensures RStripChars(LStripChars(ca, "("), ").:") == m
  {
    assert ca == left + (m + right);
    LStripCharsAround(left, m + right, "(");
    RStripCharsAround(m, right, ").:");
  }

  function DropOne(ops: CaseOps, letter: string, p: string): string {
    if p <= ops.lower(letter) then Strip(if |p| <= |letter| then letter[|p|..] else "") else letter
  }

  lemma DropNext(ops: CaseOps, letter: string, ps: seq<string>)
    ensures DropPrefixes(ops, letter, ps)
         == if ps == [] then letter else DropPrefixes(ops, DropOne(ops, letter, ps[0]), ps[1..])
  {
  }

  lemma DropThree(ops: CaseOps, letter: string)
    ensures DropPrefixes(ops, letter, PREFIXES)
         == DropOne(ops, DropOne(ops, DropOne(ops, letter, "option "), "옵션 "), "選択肢 ")
  {
    var one := DropOne(ops, letter, "option ");
    var two := DropOne(ops, one, "옵션 ");
    var ko, ja := ["옵션 ", "選択肢 "], ["選択肢 "];
    assert PREFIXES[1..] == ko && ko[1..] == ja && ja[1..] == [];
    DropNext(ops, letter, PREFIXES);
    DropNext(ops, one, ko);
    DropNext(ops, two, ja);
    DropNext(ops, DropOne(ops, two, "選択肢 "), []);
  }

  lemma DropsTo(ops: CaseOps, word: string, rest: string, l: string)
    requires Strip(rest) == l && (word != "" ==> OneLead(ops, word, rest)) && NoLead(ops, l)
    requires Strip(word + rest) == word + rest
    ensures DropPrefixes(ops, word + rest, PREFIXES) == l
  {
    DropThree(ops, word + rest);
    if word == "" {
      assert word + rest == rest;
    } else {
      assert (word + rest)[|word|..] == rest;
    }
  }

  /** The code reads the answer as the letter A to H that is left of it, and as no letter otherwise. */
  lemma LetterRead(
    ops: CaseOps, answer: string, left: string, m: string, right: string, word: string, rest: string, l: string, k: nat)
    requires BareAnswer(ops, answer, left, m, right, word, rest, l) && k < 8
    ensures LetterIndex(ops, Strip(answer)) == k <==> |l| == 1 && ops.upper(l[0]) == ["ABCDEFGH"[k]]
  {
    StripIdempotent(answer);
    BareIs(Strip(answer), left, m, right);
    StripIdempotent(m);
    DropsTo(ops, word, rest, l);
    LetterOf(ops, l, k);
  }

  lemma LetterOf(ops: CaseOps, l: string, k: nat)
    requires k < 8
    ensures LetterValue(ops, l) == k <==> |l| == 1 && ops.upper(l[0]) == ["ABCDEFGH"[k]]
  {
    if |l| == 1 {
      InOrder(ops.upper(l[0]), k);
    }
  }

  lemma InOrder(u: string, k: nat)
    requires k < 8
    ensures u == ["ABCDEFGH"[k]] <==> |u| == 1 && u[0] as int == 'A' as int + k
  {
    assert "ABCDEFGH"[k] as int == 'A' as int + k;
  }

  // ---------------------------------------------------------------- tier by tier

  /** The first two tiers have nothing: the answer is no option, and its normal form no option's. */
  ghost predicate Unmatched(ops: CaseOps, answer: string, opts: seq<string>) {
    && Strip(answer) != "" && Strip(answer) !in opts
    && forall i :: 0 <= i < |opts| ==> Norm(ops, opts[i]) != Norm(ops, answer)
  }

  lemma Unkeyed(ops: CaseOps, answer: string, opts: seq<string>)
    requires Unmatched(ops, answer, opts)
    ensures ByNorm(opts, Norms(ops, opts), Norm(ops, Strip(answer))).None?
  {
    NormOfStrip(ops, answer);
  }

  /** A blank answer resolves to nothing, an answer that is an option without its outer space to that option. */
  lemma ExactTier(ops: CaseOps, answer: string, opts: seq<string>)
    ensures Strip(answer) == "" || opts == [] ==> Resolve(ops, answer, opts) == None
    ensures Strip(answer) != "" && Strip(answer) in opts ==> Resolve(ops, answer, opts) == Some(Strip(answer))
  {
  }

  /** An answer that is no option resolves to the last option with its normal form. */
  lemma NormTier(ops: CaseOps, answer: string, opts: seq<string>, i: nat)
    requires Strip(answer) != "" && Strip(answer) !in opts
    requires i < |opts| && Norm(ops, opts[i]) == Norm(ops, answer)
    requires forall j :: i < j < |opts| ==> Norm(ops, opts[j]) != Norm(ops, answer)
    ensures Resolve(ops, answer, opts) == Some(opts[i])
  {
    var keys, n := Norms(ops, opts), Norm(ops, answer);
    NormOfStrip(ops, answer);
    assert keys[i] == n;
    assert keys[LastIndexOf(keys, n)] == n;
    if LastIndexOf(keys, n) < i {
      NothingLater(keys, n, i);
      assert false;
    }
  }

  /** Then a letter decides: "B", "(b)" and "Option B." all give the second option. */
  lemma LetterTier(
    ops: CaseOps, answer: string, opts: seq<string>, k: nat,
    left: string, m: string, right: string, word: string, rest: string, c: char)
    requires Unmatched(ops, answer, opts) && k < |opts| && k < 8
    requires BareAnswer(ops, answer, left, m, right, word, rest, [c]) && ops.upper(c) == ["ABCDEFGH"[k]]
    ensures Resolve(ops, answer, opts) == Some(opts[k])
  {
    Unkeyed(ops, answer, opts);
    LetterRead(ops, answer, left, m, right, word, rest, [c], k);
  }

  /** One of the two normal forms lies in the other. */
  predicate Touches(n: string, option: string) {
    n != "" && (Contains(option, n) || Contains(n, option))
  }

  /** Option `i` is the only one whose normal form shares text with the answer's. */
  ghost predicate OnlyTouched(ops: CaseOps, answer: string, opts: seq<string>, i: int) {
    && 0 <= i < |opts| && Touches(Norm(ops, answer), Norm(ops, opts[i]))
    && forall j :: 0 <= j < |opts| && j != i ==> !Touches(Norm(ops, answer), Norm(ops, opts[j]))
  }

  lemma OnlyTouchedIsOnlyAt(ops: CaseOps, answer: string, opts: seq<string>, i: int)
    ensures OnlyTouched(ops, answer, opts, i) <==> OnlyAt(opts, OverlapTest(ops, Strip(answer)), i)
  {
    NormOfStrip(ops, answer);
    assert forall o :: OverlapTest(ops, Strip(answer))(o) == Touches(Norm(ops, answer), Norm(ops, o));
  }

  /** Without a letter that names an option: the one option that shares text with the answer, if there is just one. */
  lemma OverlapTier(
    ops: CaseOps, answer: string, opts: seq<string>,
    left: string, m: string, right: string, word: string, rest: string, l: string)
    requires Unmatched(ops, answer, opts) && opts != []
    requires BareAnswer(ops, answer, left, m, right, word, rest, l)
    requires forall k :: 0 <= k < 8 && k < |opts| ==> !(|l| == 1 && ops.upper(l[0]) == ["ABCDEFGH"[k]])
    ensures Resolve(ops, answer, opts).Some? <==> exists i :: OnlyTouched(ops, answer, opts, i)
    ensures forall i :: OnlyTouched(ops, answer, opts, i) ==> Resolve(ops, answer, opts) == Some(opts[i])
  {
    Unkeyed(ops, answer, opts);
    var k := LetterIndex(ops, Strip(answer));
    if 0 <= k {
      LetterRead(ops, answer, left, m, right, word, rest, l, k);
    }
    ContainmentIsUnique(ops, answer, opts);
    forall i ensures OnlyTouched(ops, answer, opts, i) <==> OnlyAt(opts, OverlapTest(ops, Strip(answer)), i) {
      OnlyTouchedIsOnlyAt(ops, answer, opts, i);
    }
  }
}
