/**
 * The scheduled-email task fills its template with one whole-string replace per variable instead of
 * calling `render_template`. This module says exactly when the two produce the same text.
 */
module ScheduledEmail {
  import opened PyText
  import opened TemplateRender

  /** `s.replace(pat, val)` */
  function Replace(s: string, pat: string, val: string): string
    requires pat != ""
    decreases |s|
  {
    if s == "" then ""
    else if pat <= s then val + Replace(s[|pat|..], pat, val)
    else [s[0]] + Replace(s[1..], pat, val)
  }

  type Substitutions = seq<(string, string)>

  function ReplaceAll(s: string, subs: Substitutions): string {
    if subs == [] then s
    else
      var last := subs[|subs| - 1];
      Replace(ReplaceAll(s, subs[..|subs| - 1]), Braced("", last.0, ""), last.1)
  }

  /** The loop of the scheduled email: subject and body are overwritten once per variable. */
  method FillTemplate(subjectText: string, bodyText: string, variables: Substitutions)
    returns (subject: string, body: string)
    ensures subject == ReplaceAll(subjectText, variables)
    ensures body == ReplaceAll(bodyText, variables)
  {
    subject, body := subjectText, bodyText;
    for i := 0 to |variables|
      invariant subject == ReplaceAll(subjectText, variables[..i])
      invariant body == ReplaceAll(bodyText, variables[..i])
    {
      assert variables[..i + 1][..i] == variables[..i];
      var (key, val) := variables[i];
      subject := Replace(subject, Braced("", key, ""), val);
      body := Replace(body, Braced("", key, ""), val);
    }
    assert variables[..|variables|] == variables;
  }

  // ---------------------------------------------------------------- one replace on any text

  /** The pattern occurs nowhere in front of position `n`. */
  predicate NoneBefore(s: string, pat: string, n: nat) {
    forall i :: 0 <= i < n ==> !OccursAt(s, pat, i)
  }

  lemma {:induction false} ReplaceCopies(s: string, pat: string, val: string, n: nat)
    requires pat != "" && n <= |s| && NoneBefore(s, pat, n)
    ensures Replace(s, pat, val) == s[..n] + Replace(s[n..], pat, val)
  {
    if n == 0 {
      assert s[0..] == s;
    } else {
      NoneTail(s, pat, n);
      ReplaceCopies(s[1..], pat, val, n - 1);
      OneCopied(s, n, Replace(s[n..], pat, val));
    }
  }

  lemma NoneTail(s: string, pat: string, n: nat)
    requires 0 < n <= |s| && NoneBefore(s, pat, n)
    ensures !(pat <= s) && NoneBefore(s[1..], pat, n - 1)
  {
    OccursFirst(s, pat);
    assert !OccursAt(s, pat, 0);
    forall i | 0 <= i < n - 1 ensures !OccursAt(s[1..], pat, i) {
      OccursLater(s, pat, i);
      assert !OccursAt(s, pat, i + 1);
    }
  }

  lemma OccursFirst(s: string, pat: string)
    ensures pat <= s ==> OccursAt(s, pat, 0)
  {
  }

  lemma OccursLater(s: string, pat: string, i: nat)
    requires s != ""
    ensures OccursAt(s[1..], pat, i) <==> OccursAt(s, pat, i + 1)
  {
    if i + |pat| <= |s| - 1 {
      assert s[1..][i..i + |pat|] == s[i + 1..i + 1 + |pat|];
    }
  }

  /** The first occurrence is replaced, what stands before it is copied, and the rest is treated on its own. */
  lemma ReplaceLeftmost(before: string, pat: string, rest: string, val: string)
    requires pat != "" && NoneBefore(before + (pat + rest), pat, |before|)
    ensures Replace(before + (pat + rest), pat, val) == before + (val + Replace(rest, pat, val))
    ensures !Contains(rest, pat) ==> Replace(rest, pat, val) == rest
  {
    var s := before + (pat + rest);
    ReplaceCopies(s, pat, val, |before|);
    assert s[..|before|] == before && s[|before|..] == pat + rest;
    assert (pat + rest)[|pat|..] == rest;
    if !Contains(rest, pat) {
      ReplaceCopies(rest, pat, val, |rest|);
      assert rest[|rest|..] == "" && rest[..|rest|] == rest;
    }
  }

  // ---------------------------------------------------------------- one replace on a template

  predicate IsPlainHole(tok: Token, key: string) {
    tok == Hole("", key, "")
  }

  function ReplaceToken(tok: Token, key: string, val: string): Token {
    if IsPlainHole(tok, key) then Lit(val) else tok
  }

  function ReplaceTokens(ts: seq<Token>, key: string, val: string): seq<Token> {
    seq(|ts|, i requires 0 <= i < |ts| => ReplaceToken(ts[i], key, val))
  }

  lemma {:induction false} ReplaceSkips(l: string, rest: string, key: string, val: string)
    requires Calm(l)
    ensures Replace(l + rest, Braced("", key, ""), val) == l + Replace(rest, Braced("", key, ""), val)
  {
    if l == "" {
      assert l + rest == rest;
    } else {
      var s := l + rest;
      assert s[0] == l[0] && s[1..] == l[1..] + rest;
      assert |l| > 1 ==> s[1] == l[1];
      assert Braced("", key, "")[0] == '{' && Braced("", key, "")[1] == '{';
      ReplaceSkips(l[1..], rest, key, val);
    }
  }

  lemma FirstClose(k: string, u: string)
    requires BraceFree(k)
    ensures Find("{{" + k + "}}" + u, '}', 0) == |k| + 2
  {
    var s := "{{" + k + "}}" + u;
    assert s[|k| + 2] == '}';
    forall i | 0 <= i < |k| + 2 ensures s[i] != '}' {
      if i >= 2 { assert s[i] == k[i - 2]; }
    }
  }

  /** Between double braces the text up to the first closing brace is determined. */
  lemma SameInside(k: string, x: string, rest: string)
    requires BraceFree(k) && BraceFree(x)
    requires "{{" + k + "}}" <= "{{" + x + "}}" + rest
    ensures k == x
  {
    var p, s := "{{" + k + "}}", "{{" + x + "}}" + rest;
    assert s == p + s[|p|..];
    FirstClose(k, s[|p|..]);
    FirstClose(x, rest);
    assert p[2..|k| + 2] == k && s[2..|x| + 2] == x;
  }

  lemma WordsBraceFree(al: Alphabet, k: string)
    requires Lawful(al) && AllWord(al, k)
    ensures BraceFree(k)
  {
  }

  lemma PadsBraceFree(s: string)
    requires Blank(s)
    ensures BraceFree(s)
  {
    Visible('{');
    Visible('}');
  }

  /** A placeholder starts with the search pattern only if it is that very placeholder, unpadded. */
  lemma PatternMatchesHole(al: Alphabet, tok: Token, key: string, rest: string)
    requires Lawful(al) && tok.Hole? && TokenOk(al, tok) && key != "" && AllWord(al, key)
    ensures Braced("", key, "") <= Show(tok) + rest ==> IsPlainHole(tok, key)
  {
    var x := tok.pre + tok.key + tok.post;
    assert tok.pre != "" ==> IsSpace(x[0]);
    assert tok.post != "" ==> IsSpace(x[|x| - 1]);
    if Braced("", key, "") <= Show(tok) + rest {
      HoleInside(al, tok);
      WordsBraceFree(al, key);
      assert "" + key + "" == key;
      SameInside(key, x, rest);
      assert al.isWord(x[0]) && al.isWord(x[|x| - 1]);
      assert x == tok.key;
    }
  }

  lemma HoleInside(al: Alphabet, tok: Token)
    requires Lawful(al) && tok.Hole? && TokenOk(al, tok)
    ensures var x := tok.pre + tok.key + tok.post; BraceFree(x) && x != ""
  {
    WordsBraceFree(al, tok.key);
    PadsBraceFree(tok.pre);
    PadsBraceFree(tok.post);
  }

  /** A braced text that is not the pattern itself is stepped over character by character. */
  lemma ReplaceStepsOver(x: string, rest: string, key: string, val: string)
    requires BraceFree(x) && x != "" && !(Braced("", key, "") <= "{{" + x + "}}" + rest)
    ensures Replace("{{" + x + "}}" + rest, Braced("", key, ""), val)
         == "{{" + x + "}}" + Replace(rest, Braced("", key, ""), val)
  {
    var pat := Braced("", key, "");
    var tail := (x + "}}") + rest;
    var s := "{{" + x + "}}" + rest;
    assert s == "{{" + tail;
    assert s[1..] == "{" + tail && ("{" + tail)[1..] == tail;
    assert pat[1] == '{' && ("{" + tail)[1] == x[0];
    ReplaceSkips(x + "}}", rest, key, val);
    assert Replace("{" + tail, pat, val) == "{" + Replace(tail, pat, val);
    assert Replace(s, pat, val) == "{" + Replace("{" + tail, pat, val);
  }

  lemma ReplaceHole(al: Alphabet, tok: Token, rest: string, key: string, val: string)
    requires Lawful(al) && tok.Hole? && TokenOk(al, tok) && key != "" && AllWord(al, key)
    ensures Replace(Show(tok) + rest, Braced("", key, ""), val)
         == Show(ReplaceToken(tok, key, val)) + Replace(rest, Braced("", key, ""), val)
  {
    var pat := Braced("", key, "");
    if IsPlainHole(tok, key) {
      assert (pat + rest)[..|pat|] == pat && (pat + rest)[|pat|..] == rest;
    } else {
      PatternMatchesHole(al, tok, key, rest);
      HoleInside(al, tok);
      ReplaceStepsOver(tok.pre + tok.key + tok.post, rest, key, val);
    }
  }

  lemma {:induction false} ReplacePrint(al: Alphabet, ts: seq<Token>, key: string, val: string)
    requires Lawful(al) && TokensOk(al, ts) && key != "" && AllWord(al, key)
    ensures Replace(Print(ts), Braced("", key, ""), val) == Print(ReplaceTokens(ts, key, val))
  {
    if ts != [] {
      assert TokenOk(al, ts[0]);
      ReplacePrint(al, ts[1..], key, val);
      assert ReplaceTokens(ts, key, val)[1..] == ReplaceTokens(ts[1..], key, val);
      match ts[0] {
        case Lit(text) => ReplaceSkips(text, Print(ts[1..]), key, val);
        case Hole(_, _, _) => ReplaceHole(al, ts[0], Print(ts[1..]), key, val);
      }
    }
  }

  // ---------------------------------------------------------------- the whole loop on a template

  function Table(subs: Substitutions): map<string, string> {
    if subs == [] then map[]
    else Table(subs[..|subs| - 1])[subs[|subs| - 1].0 := subs[|subs| - 1].1]
  }

  /** Distinct, lower-case word keys: the keys of its dictionary of variables. */
  ghost predicate KeysOk(al: Alphabet, subs: Substitutions) {
    && (forall i :: 0 <= i < |subs| ==> subs[i].0 != "" && AllWord(al, subs[i].0) && al.lower(subs[i].0) == subs[i].0)
    && (forall i, j :: 0 <= i < j < |subs| ==> subs[i].0 != subs[j].0)
  }

  /** What the loop makes of one token: only an unpadded placeholder spelt exactly like a key is filled. */
  function LoopMeaning(table: map<string, string>, tok: Token): Token {
    if tok.Hole? && tok.pre == "" && tok.post == "" && tok.key in table then Lit(table[tok.key]) else tok
  }

  function LoopTokens(table: map<string, string>, ts: seq<Token>): seq<Token> {
    seq(|ts|, i requires 0 <= i < |ts| => LoopMeaning(table, ts[i]))
  }

  lemma {:induction false} TableKeys(subs: Substitutions, k: string)
    ensures k in Table(subs) <==> exists i :: 0 <= i < |subs| && subs[i].0 == k
    ensures k in Table(subs) ==> exists i :: 0 <= i < |subs| && subs[i] == (k, Table(subs)[k])
  {
    if subs != [] {
      var n := |subs| - 1;
      TableKeys(subs[..n], k);
      if k == subs[n].0 {
        assert subs[n] == (k, Table(subs)[k]);
      } else if k in Table(subs) {
        var i :| 0 <= i < n && subs[..n][i] == (k, Table(subs[..n])[k]);
        assert subs[i] == (k, Table(subs)[k]);
      }
      if i :| 0 <= i < |subs| && subs[i].0 == k {
        if i < n { assert subs[..n][i].0 == k; }
      }
    }
  }

  ghost predicate CalmSubs(subs: Substitutions) {
    forall i :: 0 <= i < |subs| ==> Calm(subs[i].1)
  }

  lemma TableCalm(subs: Substitutions)
    requires CalmSubs(subs)
    ensures CalmValues(Table(subs))
  {
    forall k | k in Table(subs) ensures Calm(Table(subs)[k]) {
      TableKeys(subs, k);
    }
  }

  /** The loop fills a template token by token, independently of the order of the variables. */
  lemma {:induction false} LoopFillsTokens(al: Alphabet, ts: seq<Token>, subs: Substitutions)
    requires Lawful(al) && TokensOk(al, ts) && KeysOk(al, subs) && CalmSubs(subs)
    ensures ReplaceAll(Print(ts), subs) == Print(LoopTokens(Table(subs), ts))
  {
    if subs == [] {
      assert LoopTokens(Table(subs), ts) == ts;
    } else {
      var n := |subs| - 1;
      var init, last := subs[..n], subs[n];
      assert CalmSubs(init) && KeysOk(al, init);
      LoopFillsTokens(al, ts, init);
      TableCalm(init);
      var mid := LoopTokens(Table(init), ts);
      LoopTokensOk(al, Table(init), ts);
      ReplacePrint(al, mid, last.0, last.1);
      LoopTokensNext(ts, subs);
    }
  }

  lemma LoopTokensNext(ts: seq<Token>, subs: Substitutions)
    requires subs != [] && forall i, j :: 0 <= i < j < |subs| ==> subs[i].0 != subs[j].0
    ensures var n := |subs| - 1;
      ReplaceTokens(LoopTokens(Table(subs[..n]), ts), subs[n].0, subs[n].1) == LoopTokens(Table(subs), ts)
  {
    TableKeys(subs[..|subs| - 1], subs[|subs| - 1].0);
  }

  lemma LoopTokensOk(al: Alphabet, table: map<string, string>, ts: seq<Token>)
    requires TokensOk(al, ts) && CalmValues(table)
    ensures TokensOk(al, LoopTokens(table, ts))
  {
    forall i | 0 <= i < |ts| ensures TokenOk(al, LoopTokens(table, ts)[i]) {
      assert TokenOk(al, ts[i]);
    }
  }

  // ---------------------------------------------------------------- the two renderers compared

  function AsVariables(subs: Substitutions): Variables {
    seq(|subs|, i requires 0 <= i < |subs| => (subs[i].0, Some(subs[i].1)))
  }

  lemma {:induction false} LookupIsTable(al: Alphabet, subs: Substitutions)
    requires KeysOk(al, subs)
    ensures Lookup(al, AsVariables(subs)) == Table(subs)
  {
    if subs != [] {
      var n := |subs| - 1;
      assert KeysOk(al, subs[..n]);
      assert AsVariables(subs)[..n] == AsVariables(subs[..n]);
      LookupIsTable(al, subs[..n]);
    }
  }

  /** A placeholder the two renderers treat alike: unknown, or spelt exactly like its key. */
  predicate Canonical(al: Alphabet, table: map<string, string>, tok: Token) {
    Known(al, table, tok) ==> tok.pre == "" && tok.post == "" && al.lower(tok.key) == tok.key
  }

  /** How often two opening braces stand next to each other. */
  function Doubles(s: string): nat {
    if |s| < 2 then 0 else (if Twice('{', s, 0) then 1 else 0) + Doubles(s[1..])
  }

  predicate EndsQuietly(s: string) {
    s != "" ==> s[|s| - 1] != '{'
  }

  lemma {:induction false} DoublesConcat(a: string, b: string)
    requires EndsQuietly(a)
    ensures Doubles(a + b) == Doubles(a) + Doubles(b)
  {
    if a == "" {
      assert a + b == b;
    } else if a + b != [a[0]] {
      assert (a + b)[0] == a[0] && (a + b)[1..] == a[1..] + b;
      assert |a| > 1 ==> (a + b)[1] == a[1];
      DoublesConcat(a[1..], b);
    }
  }

  lemma {:induction false} NoDoubles(s: string)
    requires Calm(s)
    ensures Doubles(s) == 0
  {
    if |s| >= 2 { NoDoubles(s[1..]); }
  }

  /** Per token, the loop leaves at least as many doubled braces; strictly more if it is not canonical. */
  lemma TokenBraces(al: Alphabet, table: map<string, string>, tok: Token)
    requires Lawful(al) && TokenOk(al, tok) && CalmValues(table)
    requires forall k :: k in table ==> al.lower(k) == k
    ensures Canonical(al, table, tok) ==> Show(LoopMeaning(table, tok)) == TokenMeaning(al, table, tok)
    ensures !Canonical(al, table, tok) ==>
      Doubles(Show(LoopMeaning(table, tok))) > Doubles(TokenMeaning(al, table, tok))
    ensures EndsQuietly(Show(LoopMeaning(table, tok))) && EndsQuietly(TokenMeaning(al, table, tok))
  {
    if !Canonical(al, table, tok) {
      NoDoubles(table[al.lower(tok.key)]);
      var s := Show(tok);
      assert Twice('{', s, 0) && LoopMeaning(table, tok) == tok;
    }
  }

  lemma {:induction false} LoopLeavesBraces(al: Alphabet, table: map<string, string>, ts: seq<Token>)
    requires Lawful(al) && TokensOk(al, ts) && CalmValues(table)
    requires forall k :: k in table ==> al.lower(k) == k
    ensures var loop, pass := Print(LoopTokens(table, ts)), Meaning(al, table, ts);
      if forall i :: 0 <= i < |ts| ==> Canonical(al, table, ts[i])
      then loop == pass
      else Doubles(loop) > Doubles(pass)
    ensures Doubles(Print(LoopTokens(table, ts))) >= Doubles(Meaning(al, table, ts))
  {
    if ts != [] {
      assert TokenOk(al, ts[0]);
      TokenBraces(al, table, ts[0]);
      LoopLeavesBraces(al, table, ts[1..]);
      assert LoopTokens(table, ts)[1..] == LoopTokens(table, ts[1..]);
      DoublesConcat(Show(LoopMeaning(table, ts[0])), Print(LoopTokens(table, ts[1..])));
      DoublesConcat(TokenMeaning(al, table, ts[0]), Meaning(al, table, ts[1..]));
      assert (forall i :: 0 <= i < |ts| ==> Canonical(al, table, ts[i]))
        <==> Canonical(al, table, ts[0]) && (forall i :: 0 <= i < |ts[1..]| ==> Canonical(al, table, ts[1..][i]));
    }
  }

  /**
   * With values that hold no doubled brace and end in none, the replace loop and `render_template` agree on a
   * template if and only if every placeholder of a known variable is written without padding and exactly as the
   * variable is spelt.
   */
  lemma LoopAgreesExactly(al: Alphabet, ts: seq<Token>, subs: Substitutions)
    requires Lawful(al) && TokensOk(al, ts) && KeysOk(al, subs) && CalmSubs(subs)
    ensures ReplaceAll(Print(ts), subs) == RenderTemplate(al, Some(Print(ts)), AsVariables(subs))
       <==> forall i :: 0 <= i < |ts| ==> Canonical(al, Table(subs), ts[i])
  {
    LoopFillsTokens(al, ts, subs);
    LookupIsTable(al, subs);
    RenderMeaning(al, Table(subs), ts);
    TableCalm(subs);
    forall k | k in Table(subs) ensures al.lower(k) == k {
      TableKeys(subs, k);
    }
    LoopLeavesBraces(al, Table(subs), ts);
  }

  /** On such templates the order in which the variables are visited makes no difference. */
  lemma OrderIrrelevant(al: Alphabet, ts: seq<Token>, one: Substitutions, two: Substitutions)
    requires Lawful(al) && TokensOk(al, ts)
    requires KeysOk(al, one) && CalmSubs(one) && KeysOk(al, two) && CalmSubs(two)
    requires multiset(one) == multiset(two)
    ensures ReplaceAll(Print(ts), one) == ReplaceAll(Print(ts), two)
  {
    forall k ensures k in Table(one) <==> k in Table(two) {
      TableSpread(one, two, k);
      TableSpread(two, one, k);
    }
    forall k | k in Table(one) ensures k in Table(two) && Table(one)[k] == Table(two)[k] {
      TableSpread(one, two, k);
    }
    assert Table(one) == Table(two);
    LoopFillsTokens(al, ts, one);
    LoopFillsTokens(al, ts, two);
  }

  lemma TableSpread(one: Substitutions, two: Substitutions, k: string)
    requires multiset(one) == multiset(two)
    requires forall i, j :: 0 <= i < j < |two| ==> two[i].0 != two[j].0
    ensures k in Table(one) ==> k in Table(two) && Table(two)[k] == Table(one)[k]
  {
    TableKeys(one, k);
    TableKeys(two, k);
    if k in Table(one) {
      var pair := (k, Table(one)[k]);
      assert pair in one;
      assert pair in multiset(one);
      assert pair in two;
    }
  }

  // ---------------------------------------------------------------- values that hold placeholders

  /** Variables whose values are templates themselves. */
  type Nested = seq<(string, seq<Token>)>

  function Printed(subs: Nested): Substitutions {
    seq(|subs|, i requires 0 <= i < |subs| => (subs[i].0, Print(subs[i].1)))
  }

  ghost predicate ValuesOk(al: Alphabet, subs: Nested) {
    forall i :: 0 <= i < |subs| ==> TokensOk(al, subs[i].1)
  }

  predicate HoldsPlain(ts: seq<Token>, key: string) {
    Hole("", key, "") in ts
  }

  /** No value holds the unpadded placeholder of a variable that comes later. */
  ghost predicate NoLaterPlaceholder(subs: Nested) {
    forall i, j :: 0 <= i < j < |subs| ==> !HoldsPlain(subs[i].1, subs[j].0)
  }

  function ExpandToken(tok: Token, key: string, value: seq<Token>): seq<Token> {
    if IsPlainHole(tok, key) then value else [tok]
  }

  function Expand(ts: seq<Token>, key: string, value: seq<Token>): seq<Token> {
    if ts == [] then [] else ExpandToken(ts[0], key, value) + Expand(ts[1..], key, value)
  }

  lemma {:induction false} PrintConcat(a: seq<Token>, b: seq<Token>)
    ensures Print(a + b) == Print(a) + Print(b)
  {
    if a == [] {
      assert a + b == b;
    } else {
      assert (a + b)[0] == a[0] && (a + b)[1..] == a[1..] + b;
      PrintConcat(a[1..], b);
    }
  }

  lemma PrintOne(tok: Token)
    ensures Print([tok]) == Show(tok)
  {
    assert [tok][1..] == [] && Show(tok) + "" == Show(tok);
  }

  /** One whole-string replace expands every unpadded placeholder of the key into the value's tokens. */
  lemma {:induction false} ReplaceExpands(al: Alphabet, ts: seq<Token>, key: string, value: seq<Token>)
    requires Lawful(al) && TokensOk(al, ts) && key != "" && AllWord(al, key)
    ensures Replace(Print(ts), Braced("", key, ""), Print(value)) == Print(Expand(ts, key, value))
  {
    if ts != [] {
      assert TokenOk(al, ts[0]);
      ReplaceExpands(al, ts[1..], key, value);
      PrintConcat(ExpandToken(ts[0], key, value), Expand(ts[1..], key, value));
      PrintOne(ts[0]);
      ReplaceFirst(al, ts[0], Print(ts[1..]), key, Print(value));
    }
  }

  lemma ReplaceFirst(al: Alphabet, tok: Token, rest: string, key: string, val: string)
    requires Lawful(al) && TokenOk(al, tok) && key != "" && AllWord(al, key)
    ensures Replace(Show(tok) + rest, Braced("", key, ""), val) ==
      (if IsPlainHole(tok, key) then val else Show(tok)) + Replace(rest, Braced("", key, ""), val)
  {
    match tok
    case Lit(text) => ReplaceSkips(text, rest, key, val);
    case Hole(_, _, _) => ReplaceHole(al, tok, rest, key, val);
  }

  /** What the whole loop makes of one token, and of a template. */
  function Unfolded(subs: Nested, tok: Token): seq<Token> {
    if subs == [] then [tok]
    else if IsPlainHole(tok, subs[|subs| - 1].0) then subs[|subs| - 1].1
    else Unfolded(subs[..|subs| - 1], tok)
  }

  function UnfoldAll(subs: Nested, ts: seq<Token>): seq<Token> {
    if ts == [] then [] else Unfolded(subs, ts[0]) + UnfoldAll(subs, ts[1..])
  }

  lemma {:induction false} ExpandConcat(a: seq<Token>, b: seq<Token>, key: string, value: seq<Token>)
    ensures Expand(a + b, key, value) == Expand(a, key, value) + Expand(b, key, value)
  {
    if a == [] {
      assert a + b == b;
    } else {
      assert (a + b)[0] == a[0] && (a + b)[1..] == a[1..] + b;
      ExpandConcat(a[1..], b, key, value);
    }
  }

  lemma {:induction false} ExpandNothing(ts: seq<Token>, key: string, value: seq<Token>)
    requires !HoldsPlain(ts, key)
    ensures Expand(ts, key, value) == ts
  {
    if ts != [] {
      assert ts[0] in ts;
      ExpandNothing(ts[1..], key, value);
    }
  }

  /** The last variable is expanded in what the earlier ones have made of a token; their values do not hold it. */
  lemma {:induction false} UnfoldedNext(subs: Nested, tok: Token, key: string, value: seq<Token>)
    requires forall i :: 0 <= i < |subs| ==> subs[i].0 != key && !HoldsPlain(subs[i].1, key)
    ensures Expand(Unfolded(subs, tok), key, value) == if IsPlainHole(tok, key) then value else Unfolded(subs, tok)
  {
    if subs == [] {
      assert [tok][1..] == [] && value + [] == value;
    } else {
      var last := subs[|subs| - 1];
      if IsPlainHole(tok, last.0) {
        ExpandNothing(last.1, key, value);
      } else {
        UnfoldedNext(subs[..|subs| - 1], tok, key, value);
      }
    }
  }

  lemma {:induction false} UnfoldNext(subs: Nested, ts: seq<Token>)
    requires subs != [] && NoLaterPlaceholder(subs) && forall i, j :: 0 <= i < j < |subs| ==> subs[i].0 != subs[j].0
    ensures var n := |subs| - 1;
      Expand(UnfoldAll(subs[..n], ts), subs[n].0, subs[n].1) == UnfoldAll(subs, ts)
  {
    if ts != [] {
      var n := |subs| - 1;
      UnfoldNext(subs, ts[1..]);
      ExpandConcat(Unfolded(subs[..n], ts[0]), UnfoldAll(subs[..n], ts[1..]), subs[n].0, subs[n].1);
      UnfoldedNext(subs[..n], ts[0], subs[n].0, subs[n].1);
    }
  }

  lemma {:induction false} UnfoldedOk(al: Alphabet, subs: Nested, tok: Token)
    requires ValuesOk(al, subs) && TokenOk(al, tok)
    ensures TokensOk(al, Unfolded(subs, tok))
  {
    if subs != [] {
      UnfoldedOk(al, subs[..|subs| - 1], tok);
    }
  }

  lemma {:induction false} UnfoldAllOk(al: Alphabet, subs: Nested, ts: seq<Token>)
    requires ValuesOk(al, subs) && TokensOk(al, ts)
    ensures TokensOk(al, UnfoldAll(subs, ts))
  {
    if ts != [] {
      assert TokenOk(al, ts[0]);
      UnfoldedOk(al, subs, ts[0]);
      UnfoldAllOk(al, subs, ts[1..]);
    }
  }

  /** If no value holds a later variable's placeholder, the loop expands each placeholder once. */
  lemma {:induction false} LoopUnfolds(al: Alphabet, ts: seq<Token>, subs: Nested)
    requires Lawful(al) && TokensOk(al, ts) && ValuesOk(al, subs)
    requires KeysOk(al, Printed(subs)) && NoLaterPlaceholder(subs)
    ensures ReplaceAll(Print(ts), Printed(subs)) == Print(UnfoldAll(subs, ts))
  {
    KeysPrinted(al, subs);
    if subs == [] {
      UnfoldNone(ts);
    } else {
      var n := |subs| - 1;
      var init := subs[..n];
      assert Printed(subs)[..n] == Printed(init);
      assert KeysOk(al, Printed(init)) by { KeysPrefix(al, Printed(subs), n); }
      LoopUnfolds(al, ts, init);
      UnfoldAllOk(al, init, ts);
      ReplaceExpands(al, UnfoldAll(init, ts), subs[n].0, subs[n].1);
      UnfoldNext(subs, ts);
    }
  }

  lemma KeysPrefix(al: Alphabet, subs: Substitutions, n: nat)
    requires KeysOk(al, subs) && n <= |subs|
    ensures KeysOk(al, subs[..n])
  {
  }

  lemma KeysPrinted(al: Alphabet, subs: Nested)
    requires KeysOk(al, Printed(subs))
    ensures forall i :: 0 <= i < |subs| ==>
      subs[i].0 != "" && AllWord(al, subs[i].0) && al.lower(subs[i].0) == subs[i].0
    ensures forall i, j :: 0 <= i < j < |subs| ==> subs[i].0 != subs[j].0
  {
    assert forall i :: 0 <= i < |subs| ==> Printed(subs)[i].0 == subs[i].0;
  }

  lemma {:induction false} UnfoldNone(ts: seq<Token>)
    ensures UnfoldAll([], ts) == ts
  {
    if ts != [] {
      UnfoldNone(ts[1..]);
    }
  }

  /** An unfolded token prints as the value of its key, or as it is. */
  lemma {:induction false} UnfoldedPrints(subs: Nested, tok: Token)
    ensures Print(Unfolded(subs, tok)) ==
      if tok.Hole? && tok.pre == "" && tok.post == "" && tok.key in Table(Printed(subs))
      then Table(Printed(subs))[tok.key] else Show(tok)
  {
    if subs == [] {
      PrintOne(tok);
    } else {
      var n := |subs| - 1;
      assert Printed(subs)[..n] == Printed(subs[..n]);
      UnfoldedPrints(subs[..n], tok);
    }
  }

  lemma {:induction false} UnfoldMeans(al: Alphabet, ts: seq<Token>, subs: Nested)
    requires forall k :: k in Table(Printed(subs)) ==> al.lower(k) == k
    requires forall i :: 0 <= i < |ts| ==> Canonical(al, Table(Printed(subs)), ts[i])
    ensures Print(UnfoldAll(subs, ts)) == Meaning(al, Table(Printed(subs)), ts)
  {
    if ts != [] {
      UnfoldMeans(al, ts[1..], subs);
      UnfoldedPrints(subs, ts[0]);
      PrintConcat(Unfolded(subs, ts[0]), UnfoldAll(subs, ts[1..]));
      assert Canonical(al, Table(Printed(subs)), ts[0]);
    }
  }

  /**
   * Values may hold placeholders: loop and single pass still agree on a canonical template if no value holds the
   * unpadded placeholder of a later variable.
   */
  lemma NestedValuesAgree(al: Alphabet, ts: seq<Token>, subs: Nested)
    requires Lawful(al) && TokensOk(al, ts) && ValuesOk(al, subs)
    requires KeysOk(al, Printed(subs)) && NoLaterPlaceholder(subs)
    requires forall i :: 0 <= i < |ts| ==> Canonical(al, Table(Printed(subs)), ts[i])
    ensures ReplaceAll(Print(ts), Printed(subs)) == RenderTemplate(al, Some(Print(ts)), AsVariables(Printed(subs)))
  {
    LoopUnfolds(al, ts, subs);
    LookupIsTable(al, Printed(subs));
    RenderMeaning(al, Table(Printed(subs)), ts);
    forall k | k in Table(Printed(subs)) ensures al.lower(k) == k {
      TableKeys(Printed(subs), k);
    }
    UnfoldMeans(al, ts, subs);
  }

  /**
   * A value that is itself a placeholder is rescanned by the loop, so then the order does matter and the
   * loop departs from the single pass, which never looks at inserted text again.
   */
  lemma LoopRescans(al: Alphabet, a: string, b: string, x: string)
    requires Lawful(al) && a != b && KeysOk(al, [(a, ""), (b, "")])
    ensures var holeA, holeB := Braced("", a, ""), Braced("", b, "");
      && ReplaceAll(holeA, [(a, holeB), (b, x)]) == x
      && ReplaceAll(holeA, [(b, x), (a, holeB)]) == holeB
      && RenderTemplate(al, Some(holeA), AsVariables([(a, holeB), (b, x)])) == holeB
  {
    var holeB := Braced("", b, "");
    assert [(a, ""), (b, "")][0].0 == a && [(a, ""), (b, "")][1].0 == b;
    OneHole(al, a, a, holeB);
    OneHole(al, a, b, x);
    OneHole(al, b, b, x);
    TwoReplaces(Braced("", a, ""), (a, holeB), (b, x));
    TwoReplaces(Braced("", a, ""), (b, x), (a, holeB));
    PassDoesNotRescan(al, a, b, x);
  }

  lemma PassDoesNotRescan(al: Alphabet, a: string, b: string, x: string)
    requires Lawful(al) && a != b && a != "" && AllWord(al, a) && al.lower(a) == a
    requires b != "" && AllWord(al, b) && al.lower(b) == b
    ensures RenderTemplate(al, Some(Braced("", a, "")), AsVariables([(a, Braced("", b, "")), (b, x)]))
         == Braced("", b, "")
  {
    var subs := [(a, Braced("", b, "")), (b, x)];
    assert KeysOk(al, subs);
    LookupIsTable(al, subs);
    TwoEntries(subs[0], subs[1]);
    var tok := Hole("", a, "");
    SubHole(al, Table(subs), tok, "");
    assert Show(tok) + "" == Show(tok);
  }

  lemma TwoEntries(one: (string, string), two: (string, string))
    ensures Table([one, two]) == map[one.0 := one.1][two.0 := two.1]
  {
    assert [one, two][..1] == [one] && [one][..0] == [];
    assert Table([one]) == Table([])[one.0 := one.1];
  }

  lemma OneHole(al: Alphabet, hole: string, key: string, val: string)
    requires Lawful(al) && hole != "" && AllWord(al, hole) && key != "" && AllWord(al, key)
    ensures Replace(Braced("", hole, ""), Braced("", key, ""), val) == if hole == key then val else Braced("", hole, "")
  {
    var tok := Hole("", hole, "");
    ReplaceHole(al, tok, "", key, val);
    assert Show(tok) + "" == Show(tok);
  }

  lemma TwoReplaces(s: string, one: (string, string), two: (string, string))
    ensures ReplaceAll(s, [one, two])
         == Replace(Replace(s, Braced("", one.0, ""), one.1), Braced("", two.0, ""), two.1)
  {
    assert [one, two][..1] == [one] && [one][..0] == [];
    assert ReplaceAll(s, [one]) == Replace(ReplaceAll(s, []), Braced("", one.0, ""), one.1);
  }
}
