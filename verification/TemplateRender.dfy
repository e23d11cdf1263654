/**
 * `render_template`: one left-to-right pass of the pattern \{\{\s*(\w+)\s*\}\} over the text, each match
 * replaced by the value of its lower-cased key, or kept when the key is unknown.
 */
module TemplateRender {
  import opened PyText

  /** The two character operations whose tables are not modelled: `\w` and `str.lower`. */
  datatype Alphabet = Alphabet(isWord: char -> bool, lower: string -> string)

  /** No word character is a space or a brace. */
  ghost predicate Lawful(al: Alphabet) {
    forall c :: al.isWord(c) ==> !IsSpace(c) && c != '{' && c != '}'
  }

  type Variables = seq<(string, Option<string>)>

  /** The normalised lookup table; a later key with the same lower-case form wins. */
  function Lookup(al: Alphabet, vars: Variables): map<string, string> {
    if vars == [] then map[]
    else
      var last := vars[|vars| - 1];
      Lookup(al, vars[..|vars| - 1])[al.lower(last.0) := last.1.GetOr("")]
  }

  // ---------------------------------------------------------------- the pattern

  predicate AllWord(al: Alphabet, s: string) {
    forall i :: 0 <= i < |s| ==> al.isWord(s[i])
  }

  predicate Twice(c: char, s: string, i: nat) {
    i + 2 <= |s| && s[i] == c && s[i + 1] == c
  }

  /** A match of the pattern at the start of `s`: its key and its length. */
  function MatchHere(al: Alphabet, s: string): (m: Option<(string, nat)>)
    ensures m.Some? ==> 4 < m.value.1 <= |s|
  {
    if !Twice('{', s, 0) then None
    else
      var a := SpanEnd(IsSpace, s, 2);
      var b := SpanEnd(al.isWord, s, a);
      var e := SpanEnd(IsSpace, s, b);
      if b > a && Twice('}', s, e) then Some((s[a..b], e + 2)) else None
  }

  /** The text of a placeholder. */
  function Braced(pre: string, key: string, post: string): string {
    "{{" + (pre + key + post) + "}}"
  }

  /** What the regular expression denotes at the start of `s`. */
  predicate Denotes(al: Alphabet, s: string, pre: string, key: string, post: string) {
    Blank(pre) && Blank(post) && key != "" && AllWord(al, key) && Braced(pre, key, post) <= s
  }

  /** A match found is a match of the pattern. */
  lemma MatchSound(al: Alphabet, s: string) returns (pre: string, post: string)
    requires MatchHere(al, s).Some?
    ensures var (key, n) := MatchHere(al, s).value;
      Denotes(al, s, pre, key, post) && n == |Braced(pre, key, post)|
  {
    var a := SpanEnd(IsSpace, s, 2);
    var b := SpanEnd(al.isWord, s, a);
    var e := SpanEnd(IsSpace, s, b);
    pre, post := s[2..a], s[b..e];
    assert forall i :: 0 <= i < |post| ==> post[i] == s[b + i] && IsSpace(s[b + i]);
    BracedSlices(s, a, b, e);
  }

  lemma BracedSlices(s: string, a: nat, b: nat, e: nat)
    requires 2 <= a <= b <= e && Twice('{', s, 0) && Twice('}', s, e)
    ensures Braced(s[2..a], s[a..b], s[b..e]) == s[..e + 2]
  {
    var inner := s[2..a] + s[a..b] + s[b..e];
    assert inner == s[2..e];
    assert s[..e + 2] == s[..2] + s[2..e] + s[e..e + 2];
    assert s[..2] == "{{" && s[e..e + 2] == "}}";
  }

  lemma {:induction false} SpanEndIs(p: char -> bool, s: string, from: nat, n: nat)
    requires from <= n <= |s| && (forall i :: from <= i < n ==> p(s[i])) && (n < |s| ==> !p(s[n]))
    ensures SpanEnd(p, s, from) == n
    decreases n - from
  {
    if from < n {
      SpanEndIs(p, s, from + 1, n);
    }
  }

  lemma BracedChars(s: string, pre: string, key: string, post: string)
    requires Braced(pre, key, post) <= s
    ensures var a, b, e := 2 + |pre|, 2 + |pre| + |key|, 2 + |pre| + |key| + |post|;
      && Twice('{', s, 0) && Twice('}', s, e)
      && s[2..a] == pre && s[a..b] == key && s[b..e] == post
  {
    var t := Braced(pre, key, post);
    var e := 2 + |pre| + |key| + |post|;
    assert t == s[..|t|];
    assert t[0] == s[0] && t[1] == s[1] && t[e] == s[e] && t[e + 1] == s[e + 1];
    forall i | 0 <= i < e - 2 ensures s[2 + i] == (pre + key + post)[i] {
      assert t[2 + i] == s[2 + i];
    }
  }

  /** Every way the pattern can match is the match found: backtracking never matters. */
  lemma MatchComplete(al: Alphabet, s: string, pre: string, key: string, post: string)
    requires Lawful(al) && Denotes(al, s, pre, key, post)
    ensures MatchHere(al, s) == Some((key, |Braced(pre, key, post)|))
  {
    var a, b, e := 2 + |pre|, 2 + |pre| + |key|, 2 + |pre| + |key| + |post|;
    BracedChars(s, pre, key, post);
    Visible('}');
    assert forall i :: 2 <= i < a ==> s[i] == pre[i - 2];
    assert forall i :: a <= i < b ==> s[i] == key[i - a];
    assert forall i :: b <= i < e ==> s[i] == post[i - b];
    assert al.isWord(key[0]) && !al.isWord('}');
    SpanEndIs(IsSpace, s, 2, a);
    SpanEndIs(al.isWord, s, a, b);
    SpanEndIs(IsSpace, s, b, e);
  }

  // ---------------------------------------------------------------- the substitution

  /** `re.sub`: leftmost matches first, and what a match is replaced by is not looked at again. */
  function Sub(al: Alphabet, lookup: map<string, string>, s: string): string
    decreases |s|
  {
    if s == "" then ""
    else
      match MatchHere(al, s)
      case None => [s[0]] + Sub(al, lookup, s[1..])
      case Some((key, n)) =>
        (if al.lower(key) in lookup then lookup[al.lower(key)] else s[..n]) + Sub(al, lookup, s[n..])
  }

  function RenderTemplate(al: Alphabet, text: Option<string>, vars: Variables): string {
    if text.GetOr("") == "" then "" else Sub(al, Lookup(al, vars), text.value)
  }

  // ---------------------------------------------------------------- templates as tokens

  datatype Token = Lit(text: string) | Hole(pre: string, key: string, post: string)

  predicate BraceFree(s: string) {
    forall i :: 0 <= i < |s| ==> s[i] != '{' && s[i] != '}'
  }

  /** No two opening braces in a row, not even together with text that follows. */
  predicate Calm(s: string) {
    && (forall i :: 0 <= i < |s| - 1 ==> s[i] != '{' || s[i + 1] != '{')
    && (s != "" ==> s[|s| - 1] != '{')
  }

  predicate TokenOk(al: Alphabet, tok: Token) {
    match tok
    case Lit(text) => Calm(text)
    case Hole(pre, key, post) => Blank(pre) && Blank(post) && key != "" && AllWord(al, key)
  }

  ghost predicate TokensOk(al: Alphabet, ts: seq<Token>) {
    forall i :: 0 <= i < |ts| ==> TokenOk(al, ts[i])
  }

  function Show(tok: Token): string {
    match tok
    case Lit(text) => text
    case Hole(pre, key, post) => Braced(pre, key, post)
  }

  function Print(ts: seq<Token>): string {
    if ts == [] then "" else Show(ts[0]) + Print(ts[1..])
  }

  predicate Known(al: Alphabet, lookup: map<string, string>, tok: Token) {
    tok.Hole? && al.lower(tok.key) in lookup
  }

  /** What one token means: the value of a known placeholder, anything else as it is written. */
  function TokenMeaning(al: Alphabet, lookup: map<string, string>, tok: Token): string {
    if Known(al, lookup, tok) then lookup[al.lower(tok.key)] else Show(tok)
  }

  function Meaning(al: Alphabet, lookup: map<string, string>, ts: seq<Token>): string {
    if ts == [] then "" else TokenMeaning(al, lookup, ts[0]) + Meaning(al, lookup, ts[1..])
  }

  lemma {:induction false} SubLiteral(al: Alphabet, lookup: map<string, string>, l: string, rest: string)
    requires Calm(l)
    ensures Sub(al, lookup, l + rest) == l + Sub(al, lookup, rest)
  {
    if l == "" {
      assert l + rest == rest;
    } else {
      CalmHead(l, rest);
      SubSteps(al, lookup, l + rest);
      SubLiteral(al, lookup, l[1..], rest);
      Reheaded(l, Sub(al, lookup, rest));
    }
  }

  lemma CalmHead(l: string, rest: string)
    requires Calm(l) && l != ""
    ensures !Twice('{', l + rest, 0) && Calm(l[1..])
    ensures (l + rest)[0] == l[0] && (l + rest)[1..] == l[1..] + rest
  {
    assert |l| > 1 ==> (l + rest)[1] == l[1];
  }

  lemma Reheaded(l: string, tail: string)
    requires l != ""
    ensures [l[0]] + (l[1..] + tail) == l + tail
  {
  }

  /** Where no two opening braces stand, nothing matches. */
  lemma SubSteps(al: Alphabet, lookup: map<string, string>, s: string)
    requires s != "" && !Twice('{', s, 0)
    ensures Sub(al, lookup, s) == [s[0]] + Sub(al, lookup, s[1..])
  {
  }

  lemma SubHole(al: Alphabet, lookup: map<string, string>, tok: Token, rest: string)
    requires Lawful(al) && tok.Hole? && TokenOk(al, tok)
    ensures Sub(al, lookup, Show(tok) + rest) == TokenMeaning(al, lookup, tok) + Sub(al, lookup, rest)
  {
    var s := Show(tok) + rest;
    MatchComplete(al, s, tok.pre, tok.key, tok.post);
    assert s[..|Show(tok)|] == Show(tok) && s[|Show(tok)|..] == rest;
  }

  /**
   * Rendering a template gives the meanings of its tokens in order, for any padding and letter case of
   * its placeholders and any values, even values that look like placeholders themselves.
   */
  lemma {:induction false} RenderMeaning(al: Alphabet, lookup: map<string, string>, ts: seq<Token>)
    requires Lawful(al) && TokensOk(al, ts)
    ensures Sub(al, lookup, Print(ts)) == Meaning(al, lookup, ts)
  {
    if ts != [] {
      assert TokenOk(al, ts[0]);
      RenderMeaning(al, lookup, ts[1..]);
      match ts[0] {
        case Lit(text) => SubLiteral(al, lookup, text, Print(ts[1..]));
        case Hole(_, _, _) => SubHole(al, lookup, ts[0], Print(ts[1..]));
      }
    }
  }

  // ---------------------------------------------------------------- any text at all

  /** The pattern does not match at the start of the text. */
  ghost predicate NoMatchAt(al: Alphabet, s: string) {
    forall pre, key, post :: !Denotes(al, s, pre, key, post)
  }

  /** It matches nowhere in front of position `n`. */
  ghost predicate NoMatchBefore(al: Alphabet, s: string, n: nat)
    requires n <= |s|
  {
    forall i :: 0 <= i < n ==> NoMatchAt(al, s[i..])
  }

  lemma NothingFound(al: Alphabet, s: string)
    requires NoMatchAt(al, s)
    ensures MatchHere(al, s) == None
  {
    if MatchHere(al, s).Some? {
      var pre, post := MatchSound(al, s);
    }
  }

  lemma NoMatchTail(al: Alphabet, s: string, n: nat)
    requires 0 < n <= |s| && NoMatchBefore(al, s, n)
    ensures NoMatchAt(al, s) && NoMatchBefore(al, s[1..], n - 1)
  {
    assert s[0..] == s;
    forall i | 0 <= i < n - 1 ensures NoMatchAt(al, s[1..][i..]) {
      assert s[1..][i..] == s[i + 1..];
    }
  }

  lemma {:induction false} CopiedUpTo(al: Alphabet, lookup: map<string, string>, s: string, n: nat)
    requires n <= |s| && NoMatchBefore(al, s, n)
    ensures Sub(al, lookup, s) == s[..n] + Sub(al, lookup, s[n..])
  {
    if n == 0 {
      assert s[0..] == s;
    } else {
      NoMatchTail(al, s, n);
      NothingFound(al, s);
      CopiedUpTo(al, lookup, s[1..], n - 1);
      OneCopied(s, n, Sub(al, lookup, s[n..]));
    }
  }

  lemma OneCopied(s: string, n: nat, tail: string)
    requires 0 < n <= |s|
    ensures s[1..][n - 1..] == s[n..] && [s[0]] + (s[1..][..n - 1] + tail) == s[..n] + tail
  {
  }

  /**
   * Any text: what stands in front of the leftmost match is copied, braces included, the match is replaced, and the
   * rest is rendered on its own; a text without a match stays as it is.
   */
  lemma LeftmostFirst(al: Alphabet, lookup: map<string, string>, before: string, pre: string, key: string, post: string,
                      rest: string)
    requires Lawful(al) && Blank(pre) && Blank(post) && key != "" && AllWord(al, key)
    requires NoMatchBefore(al, before + (Braced(pre, key, post) + rest), |before|)
    ensures Sub(al, lookup, before + (Braced(pre, key, post) + rest))
         == before + ((if al.lower(key) in lookup then lookup[al.lower(key)] else Braced(pre, key, post))
                      + Sub(al, lookup, rest))
    ensures NoMatchBefore(al, rest, |rest|) ==> Sub(al, lookup, rest) == rest
  {
    var s := before + (Braced(pre, key, post) + rest);
    CopiedUpTo(al, lookup, s, |before|);
    assert s[..|before|] == before && s[|before|..] == Braced(pre, key, post) + rest;
    SubHole(al, lookup, Hole(pre, key, post), rest);
    if NoMatchBefore(al, rest, |rest|) {
      CopiedUpTo(al, lookup, rest, |rest|);
      assert rest[|rest|..] == "" && rest[..|rest|] == rest;
    }
  }

  // ---------------------------------------------------------------- the variables as they are given

  /** Entry `i` is the last whose name reads `k` in lower case. */
  ghost predicate LastNamed(al: Alphabet, vars: Variables, k: string, i: int) {
    && 0 <= i < |vars| && al.lower(vars[i].0) == k
    && forall j :: i < j < |vars| ==> al.lower(vars[j].0) != k
  }

  /** What one token of a template becomes, whatever the letter case of the variables' names. */
  ghost predicate Rendered(al: Alphabet, vars: Variables, tok: Token, piece: string) {
    match tok
    case Lit(text) => piece == text
    case Hole(pre, key, post) =>
      && (forall i :: LastNamed(al, vars, al.lower(key), i) ==>
           match vars[i].1 case None => piece == "" case Some(value) => piece == value)
      && ((forall i :: 0 <= i < |vars| ==> al.lower(vars[i].0) != al.lower(key)) ==> piece == Braced(pre, key, post))
  }

  function Joined(pieces: seq<string>): string {
    if pieces == [] then "" else pieces[0] + Joined(pieces[1..])
  }

  lemma {:induction false} LookupExactly(al: Alphabet, vars: Variables, k: string)
    ensures if k in Lookup(al, vars) then exists i :: LastNamed(al, vars, k, i)
            else forall i :: 0 <= i < |vars| ==> al.lower(vars[i].0) != k
    ensures forall i :: LastNamed(al, vars, k, i) ==>
      k in Lookup(al, vars) && Lookup(al, vars)[k] == match vars[i].1 case None => "" case Some(value) => value
  {
    if vars != [] {
      var n := |vars| - 1;
      LookupExactly(al, vars[..n], k);
      if al.lower(vars[n].0) == k {
        assert LastNamed(al, vars, k, n);
      } else {
        forall i ensures LastNamed(al, vars, k, i) <==> LastNamed(al, vars[..n], k, i) {
          LastNamedInit(al, vars, k, i);
        }
      }
    }
  }

  lemma LastNamedInit(al: Alphabet, vars: Variables, k: string, i: int)
    requires vars != [] && al.lower(vars[|vars| - 1].0) != k
    ensures LastNamed(al, vars, k, i) <==> LastNamed(al, vars[..|vars| - 1], k, i)
  {
    var n := |vars| - 1;
    assert forall j :: 0 <= j < n ==> vars[..n][j] == vars[j];
  }

  lemma RenderedToken(al: Alphabet, vars: Variables, tok: Token, piece: string)
    requires Rendered(al, vars, tok, piece)
    ensures piece == TokenMeaning(al, Lookup(al, vars), tok)
  {
    if tok.Hole? {
      LookupExactly(al, vars, al.lower(tok.key));
    }
  }

  lemma {:induction false} RenderedTokens(al: Alphabet, vars: Variables, ts: seq<Token>, pieces: seq<string>)
    requires |pieces| == |ts| && forall i :: 0 <= i < |ts| ==> Rendered(al, vars, ts[i], pieces[i])
    ensures Meaning(al, Lookup(al, vars), ts) == Joined(pieces)
  {
    if ts != [] {
      RenderedToken(al, vars, ts[0], pieces[0]);
      RenderedTokens(al, vars, ts[1..], pieces[1..]);
    }
  }

  /**
   * A rendered template is its literal text with every placeholder replaced: by the value of the last variable whose
   * name is the placeholder's in lower case, by nothing when that value is missing, by itself without such a variable.
   */
  lemma RenderExactly(al: Alphabet, vars: Variables, ts: seq<Token>, pieces: seq<string>)
    requires Lawful(al) && TokensOk(al, ts)
    requires |pieces| == |ts| && forall i :: 0 <= i < |ts| ==> Rendered(al, vars, ts[i], pieces[i])
    ensures RenderTemplate(al, Some(Print(ts)), vars) == Joined(pieces)
    ensures RenderTemplate(al, None, vars) == ""
  {
    RenderMeaning(al, Lookup(al, vars), ts);
    RenderedTokens(al, vars, ts, pieces);
  }

  /** One placeholder, named by the last variable of its lower-case name. */
  lemma PlaceholderFilled(al: Alphabet, vars: Variables, pre: string, key: string, post: string, i: nat)
    requires Lawful(al) && Blank(pre) && Blank(post) && key != "" && AllWord(al, key)
    requires i < |vars| && al.lower(vars[i].0) == al.lower(key)
    requires forall j :: i < j < |vars| ==> al.lower(vars[j].0) != al.lower(key)
    ensures RenderTemplate(al, Some("{{" + (pre + key + post) + "}}"), vars)
         == match vars[i].1 case None => "" case Some(value) => value
  {
    var tok := Hole(pre, key, post);
    var piece := match vars[i].1 case None => "" case Some(value) => value;
    OneToken(tok, piece);
    assert LastNamed(al, vars, al.lower(key), i);
    RenderExactly(al, vars, [tok], [piece]);
  }

  /** One placeholder no variable answers to. */
  lemma PlaceholderKept(al: Alphabet, vars: Variables, pre: string, key: string, post: string)
    requires Lawful(al) && Blank(pre) && Blank(post) && key != "" && AllWord(al, key)
    requires forall j :: 0 <= j < |vars| ==> al.lower(vars[j].0) != al.lower(key)
    ensures RenderTemplate(al, Some("{{" + (pre + key + post) + "}}"), vars) == "{{" + (pre + key + post) + "}}"
  {
    var tok := Hole(pre, key, post);
    OneToken(tok, Show(tok));
    RenderExactly(al, vars, [tok], [Show(tok)]);
  }

  lemma OneToken(tok: Token, piece: string)
    ensures Print([tok]) == Show(tok) && Joined([piece]) == piece
  {
    assert [tok][1..] == [] && [piece][1..] == [];
  }

  // ---------------------------------------------------------------- rendering in two stages

  /** The template left over after a stage: known placeholders have become literal text. */
  function Fill(al: Alphabet, lookup: map<string, string>, tok: Token): Token {
    if Known(al, lookup, tok) then Lit(lookup[al.lower(tok.key)]) else tok
  }

  function FillAll(al: Alphabet, lookup: map<string, string>, ts: seq<Token>): seq<Token> {
    seq(|ts|, i requires 0 <= i < |ts| => Fill(al, lookup, ts[i]))
  }

  ghost predicate CalmValues(lookup: map<string, string>) {
    forall k :: k in lookup ==> Calm(lookup[k])
  }

  lemma {:induction false} MeaningIsPrint(al: Alphabet, lookup: map<string, string>, ts: seq<Token>)
    ensures Meaning(al, lookup, ts) == Print(FillAll(al, lookup, ts))
  {
    if ts != [] {
      MeaningIsPrint(al, lookup, ts[1..]);
      assert FillAll(al, lookup, ts)[1..] == FillAll(al, lookup, ts[1..]);
    }
  }

  lemma {:induction false} FilledMeaning(
    al: Alphabet, first: map<string, string>, second: map<string, string>, ts: seq<Token>)
    ensures Meaning(al, second, FillAll(al, first, ts)) == Meaning(al, second + first, ts)
  {
    if ts != [] {
      FilledMeaning(al, first, second, ts[1..]);
      assert FillAll(al, first, ts)[1..] == FillAll(al, first, ts[1..]);
    }
  }

  /** Two stages, the first with calm values, are one stage in which the first table has priority. */
  lemma TwoStages(al: Alphabet, first: map<string, string>, second: map<string, string>, ts: seq<Token>)
    requires Lawful(al) && TokensOk(al, ts) && CalmValues(first)
    ensures Sub(al, second, Sub(al, first, Print(ts))) == Sub(al, second + first, Print(ts))
  {
    RenderMeaning(al, first, ts);
    MeaningIsPrint(al, first, ts);
    RenderMeaning(al, second, FillAll(al, first, ts));
    FilledMeaning(al, first, second, ts);
    RenderMeaning(al, second + first, ts);
  }
}
