/** What the sourcing pipeline looks at: keywords, the fields that count, junk names, and when scraped rows matter. */
module SourcingLaws {
  import opened PyText
  import opened Sequences
  import opened StableOrder
  import opened Sourcing

  // ---------------------------------------------------------------- keywords

  /** A small ASCII letter or an ASCII digit, by code. */
  predicate Alnum(c: char) {
    97 <= c as int <= 122 || 48 <= c as int <= 57
  }

  predicate Gap(s: string) {
    forall i :: 0 <= i < |s| ==> !Alnum(s[i])
  }

  predicate IsKeyword(w: string) {
    w != "" && Alnum(w[0]) && forall i :: 0 <= i < |w| ==> Alnum(w[i]) || w[i] in "+#.-"
  }

  lemma {:induction false} GapSkipped(gap: string, s: string)
    requires Gap(gap)
    ensures Tokens(gap + s) == Tokens(s) && Tokens(gap) == []
  {
    if gap == "" {
      assert gap + s == s;
    } else {
      assert (gap + s)[0] == gap[0] && (gap + s)[1..] == gap[1..] + s;
      GapSkipped(gap[1..], s);
    }
  }

  lemma {:induction false} TokenSpan(s: string, from: nat, n: nat)
    requires from <= n <= |s| && (forall i :: from <= i < n ==> TokenChar(s[i])) && (n < |s| ==> !TokenChar(s[n]))
    ensures SpanEnd(TokenChar, s, from) == n
    decreases n - from
  {
    if from < n {
      TokenSpan(s, from + 1, n);
    }
  }

  /** Keywords are read from left to right: what cannot start one is skipped, and each runs as far as it can. */
  lemma NextToken(gap: string, w: string, rest: string)
    requires Gap(gap) && IsKeyword(w) && (rest != "" ==> !Alnum(rest[0]) && rest[0] !in "+#.-")
    ensures Tokens(gap + (w + rest)) == [w] + Tokens(rest) && Tokens(gap) == []
  {
    GapSkipped(gap, w + rest);
    WordTaken(w, rest);
  }

  lemma WordTaken(w: string, rest: string)
    requires IsKeyword(w) && (rest != "" ==> !Alnum(rest[0]) && rest[0] !in "+#.-")
    ensures Tokens(w + rest) == [w] + Tokens(rest)
  {
    var s := w + rest;
    assert s[0] == w[0] && (rest != "" ==> s[|w|] == rest[0]);
    assert forall i :: 0 <= i < |w| ==> s[i] == w[i];
    TokenSpan(s, 1, |w|);
    assert s[..|w|] == w && s[|w|..] == rest;
  }

  /** What is searched for: the keywords of at least two characters that say something; those of the role first. */
  lemma QuerySpelled(env: Env, role: Option<string>, skills: Option<string>, t: string)
    ensures t in QueryOf(env, role, skills).role
       <==> |t| >= 2 && t !in env.genericTerms
              && t in Tokens(env.lower(match role case None => "" case Some(text) => text))
    ensures t in QueryOf(env, role, skills).skills
       <==> |t| >= 2 && t !in env.genericTerms && t !in QueryOf(env, role, skills).role
              && t in Tokens(env.lower(match skills case None => "" case Some(text) => text))
  {
  }

  // ---------------------------------------------------------------- the fields that count

  lemma ContainsPart(a: string, b: string, w: string)
    ensures Contains(a, w) || Contains(b, w) ==> Contains(a + b, w)
  {
    if i :| 0 <= i <= |a| && OccursAt(a, w, i) {
      assert (a + b)[i..i + |w|] == a[i..i + |w|];
      assert OccursAt(a + b, w, i);
    }
    if i :| 0 <= i <= |b| && OccursAt(b, w, i) {
      assert (a + b)[|a| + i..|a| + i + |w|] == b[i..i + |w|];
      assert OccursAt(a + b, w, |a| + i);
    }
  }

  /** A word without a blank cannot reach across one. */
  lemma ContainsJoined(a: string, b: string, w: string)
    requires ' ' !in w
    ensures Contains(a + " " + b, w) <==> Contains(a, w) || Contains(b, w)
  {
    var t := a + " " + b;
    if w == "" {
      assert OccursAt(a, w, 0) && OccursAt(t, w, 0);
    } else {
      ContainsPart(a, " ", w);
      ContainsPart(a + " ", b, w);
      if i :| 0 <= i <= |t| && OccursAt(t, w, i) {
        OccursOnOneSide(a, b, w, i);
      }
    }
  }

  lemma ItsOwnCharacter(w: string, k: int)
    ensures 0 <= k < |w| ==> w[k] in w
  {
  }

  lemma OccursOnOneSide(a: string, b: string, w: string, i: int)
    requires w != "" && ' ' !in w && OccursAt(a + " " + b, w, i)
    ensures OccursAt(a, w, i) || OccursAt(b, w, i - |a| - 1)
  {
    var t := a + " " + b;
    assert t[|a|] == ' ';
    ItsOwnCharacter(w, |a| - i);
    assert forall k :: 0 <= k < |w| ==> w[k] == t[i..i + |w|][k];
    if i + |w| <= |a| {
      assert a[i..i + |w|] == t[i..i + |w|];
    } else {
      var k := i - |a| - 1;
      assert b[k..k + |w|] == t[i..i + |w|];
    }
  }

  /** `lower` treats a text piece by piece and leaves blanks alone. */
  ghost predicate Piecewise(lower: string -> string) {
    (forall a, b :: lower(a + b) == lower(a) + lower(b)) && lower(" ") == " "
  }

  /** A field of a profile that may be missing contains the word, letter case aside. */
  predicate Mentions(env: Env, field: Option<string>, w: string) {
    match field
    case None => Contains(env.lower(""), w)
    case Some(text) => Contains(env.lower(text), w)
  }

  /** A keyword is looked for in headline, summary, title, raw title and address, and never in the name. */
  lemma FieldsCount(env: Env, p: Profile, w: string)
    requires Piecewise(env.lower) && ' ' !in w
    ensures Contains(Haystack(env, p), w)
       <==> || Mentions(env, p.headline, w) || Mentions(env, p.aiSummary, w) || Mentions(env, p.title, w)
            || Mentions(env, p.rawTitle, w) || Mentions(env, p.profileUrl, w)
  {
    var low := env.lower;
    var a, b, c := p.headline.GetOr(""), p.aiSummary.GetOr(""), p.title.GetOr("");
    var d, e := p.rawTitle.GetOr(""), p.profileUrl.GetOr("");
    LowerJoined(low, a + " " + b + " " + c + " " + d, e);
    LowerJoined(low, a + " " + b + " " + c, d);
    LowerJoined(low, a + " " + b, c);
    LowerJoined(low, a, b);
    ContainsJoined(low(a + " " + b + " " + c + " " + d), low(e), w);
    ContainsJoined(low(a + " " + b + " " + c), low(d), w);
    ContainsJoined(low(a + " " + b), low(c), w);
    ContainsJoined(low(a), low(b), w);
  }

  lemma LowerJoined(low: string -> string, a: string, b: string)
    requires Piecewise(low)
    ensures low(a + " " + b) == low(a) + " " + low(b)
  {
    assert low((a + " ") + b) == low(a + " ") + low(b);
  }

  lemma {:induction false} HitsExactly(words: set<string>, hay: string)
    ensures Hits(words, hay) >= 1 <==> exists w :: w in words && Contains(hay, w)
    ensures Hits(words, hay) >= 2 <==>
      exists v, w :: v in words && w in words && v != w && Contains(hay, v) && Contains(hay, w)
  {
    var hits := set k | k in words && Contains(hay, k);
    if |hits| >= 1 {
      var v :| v in hits;
      assert v in words && Contains(hay, v);
      if |hits| >= 2 {
        assert |hits - {v}| >= 1;
        var w :| w in hits - {v};
        assert w in words && Contains(hay, w);
      }
    }
    if v, w :| v in words && w in words && v != w && Contains(hay, v) && Contains(hay, w) {
      SubsetSize({v, w}, hits);
    }
    if v :| v in words && Contains(hay, v) {
      SubsetSize({v}, hits);
    }
  }

  lemma {:induction false} SubsetSize<T>(a: set<T>, b: set<T>)
    requires a <= b
    ensures |a| <= |b|
  {
    if a != {} {
      var x :| x in a;
      SubsetSize(a - {x}, b - {x});
    }
  }

  // ---------------------------------------------------------------- who is a person

  /**
   * A row is kept if it has an identity and is a person. No person: a name of less than two characters, a listed word,
   * a path, a middle dot, or a file ending. An empty email counts as none.
   */
  lemma JunkSpelled(env: Env, p: Profile)
    ensures var name := env.lower(Strip(match p.fullName case None => "" case Some(text) => text));
      IsJunk(env, p) <==> || |name| <= 1 || name in env.junkNames || '/' in name || '·' in name
                          || exists tail :: tail in env.fileEndings && |tail| <= |name|
                               && name[|name| - |tail|..] == tail
    ensures Real(env, p) <==> env.dedupKey(p) != "" && !IsJunk(env, p)
    ensures HasEmail(p) <==> p.email.Some? && p.email.value != ""
  {
    var name := env.lower(Strip(p.fullName.GetOr("")));
    OneCharacter(name, '/');
    OneCharacter(name, '·');
  }

  lemma OneCharacter(s: string, c: char)
    ensures Contains(s, [c]) <==> c in s
  {
    if i :| 0 <= i < |s| && s[i] == c {
      assert s[i..i + 1] == [c];
      assert OccursAt(s, [c], i);
    }
    if i :| 0 <= i <= |s| && OccursAt(s, [c], i) {
      assert s[i..i + 1][0] == s[i];
    }
  }

  // ---------------------------------------------------------------- when scraped rows matter

  /** If the store alone yields enough, the live search changes nothing. */
  lemma StoreSuffices(env: Env, stored: seq<Profile>, scraped: Option<seq<Profile>>, q: Query, count: int)
    requires |Found(env, stored, None, q, count)| >= count
    ensures Found(env, stored, scraped, q, count) == Found(env, stored, None, q, count)
  {
  }

  /** If nothing that was found is relevant, everything that was found is shown, in the order of the searches. */
  lemma NothingRelevant(env: Env, rows: seq<Profile>, q: Query)
    requires forall p :: p in Cleaned(env, rows) ==>
      Hits(q.role, Haystack(env, p)) == 0 && Hits(q.skills, Haystack(env, p)) <= 1
    ensures CleanedRanked(env, rows, q) == Cleaned(env, rows)
  {
    FilterCounts(Cleaned(env, rows), RelevantTest(env, q));
    assert Filter(Cleaned(env, rows), RelevantTest(env, q)) == [];
    SortOrderInOrder(Keys([], RankKey(env, q)));
  }

  /** Entry `a` of the cleaned rows has the key, and with a role hit it is among the rows found. */
  predicate Represents(env: Env, cleaned: seq<Profile>, found: seq<Profile>, q: Query, key: string, a: int) {
    && 0 <= a < |cleaned| && env.dedupKey(cleaned[a]) == key
    && (Hits(q.role, Haystack(env, cleaned[a])) >= 1 ==> cleaned[a] in found)
  }

  /** On a shortfall every real scraped row is represented under its key, and found if it has a role hit. */
  lemma ShortfallFilled(env: Env, stored: seq<Profile>, scraped: seq<Profile>, q: Query, count: int, i: nat)
    requires |Found(env, stored, None, q, count)| < count && i < |scraped| && Real(env, scraped[i])
    ensures var cleaned, found := Cleaned(env, stored + scraped), Found(env, stored, Some(scraped), q, count);
      exists a :: Represents(env, cleaned, found, q, env.dedupKey(scraped[i]), a)
  {
    ScrapedRepresented(env, stored, scraped, i);
    assert Found(env, stored, Some(scraped), q, count) == CleanedRanked(env, stored + scraped, q);
    KeyFound(env, stored + scraped, Cleaned(env, stored + scraped), q, env.dedupKey(scraped[i]));
  }

  lemma ScrapedRepresented(env: Env, stored: seq<Profile>, scraped: seq<Profile>, i: nat)
    requires i < |scraped| && Real(env, scraped[i])
    ensures var cleaned := Cleaned(env, stored + scraped);
      exists a :: 0 <= a < |cleaned| && env.dedupKey(cleaned[a]) == env.dedupKey(scraped[i])
  {
    assert (stored + scraped)[|stored| + i] == scraped[i];
    RealRowRepresented(env, stored + scraped, |stored| + i);
  }

  lemma KeyFound(env: Env, rows: seq<Profile>, c: seq<Profile>, q: Query, key: string)
    requires c == Cleaned(env, rows) && exists a :: 0 <= a < |c| && env.dedupKey(c[a]) == key
    ensures exists a :: Represents(env, c, CleanedRanked(env, rows, q), q, key, a)
  {
    var a :| 0 <= a < |c| && env.dedupKey(c[a]) == key;
    if Hits(q.role, Haystack(env, c[a])) >= 1 {
      RelevantRanked(env, c, q, a);
    }
    assert Represents(env, c, CleanedRanked(env, rows, q), q, key, a);
  }

  lemma RelevantRanked(env: Env, c: seq<Profile>, q: Query, a: nat)
    requires a < |c| && Hits(q.role, Haystack(env, c[a])) >= 1
    ensures c[a] in Ranked(env, c, q)
  {
    if q.role != {} || q.skills != {} {
      var order := RankingOrder(env, c, q);
      var k :| 0 <= k < |order| && order[k] == a;
      assert Ranked(env, c, q)[k] == c[a];
    }
  }
}
