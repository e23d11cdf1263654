/**
 * Candidate sourcing after the searches: content dedup without junk rows, relevance ranking, contact
 * backfill, and the final ordering and cut.
 */
module Sourcing {
  import opened PyText
  import opened Sequences
  import opened StableOrder

  /** The fields of a profile the pipeline looks at; `rawTitle` is the title inside a raw-data dictionary. */
  datatype Profile = Profile(
    id: nat, fullName: Option<string>, headline: Option<string>, aiSummary: Option<string>,
    title: Option<string>, rawTitle: Option<string>, profileUrl: Option<string>, email: Option<string>)

  /**
   * What lives elsewhere: lower-casing, the content identity of a row ("" if it has none), and the word lists of
   * names, file endings and generic role terms.
   */
  datatype Env = Env(lower: string -> string, dedupKey: Profile -> string,
                     junkNames: set<string>, fileEndings: set<string>, genericTerms: set<string>)

  predicate HasEmail(p: Profile) {
    p.email.GetOr("") != ""
  }

  // ---------------------------------------------------------------- junk rows and keywords

  predicate EndsWith(s: string, tail: string) {
    |tail| <= |s| && s[|s| - |tail|..] == tail
  }

  predicate IsJunk(env: Env, p: Profile) {
    var name := env.lower(Strip(p.fullName.GetOr("")));
    || |name| < 2 || name in env.junkNames
    || Contains(name, "/") || Contains(name, "·") || exists tail :: tail in env.fileEndings && EndsWith(name, tail)
  }

  predicate TokenStart(c: char) {
    'a' <= c <= 'z' || '0' <= c <= '9'
  }

  predicate TokenChar(c: char) {
    TokenStart(c) || c in "+#.-"
  }

  /** The matches of [a-z0-9][a-z0-9+#.\-]* from left to right. */
  function Tokens(s: string): seq<string>
    decreases |s|
  {
    if s == "" then []
    else if TokenStart(s[0]) then
      var n := SpanEnd(TokenChar, s, 1);
      [s[..n]] + Tokens(s[n..])
    else Tokens(s[1..])
  }

  function KeywordSet(env: Env, text: Option<string>): set<string> {
    set t | t in Tokens(env.lower(text.GetOr(""))) && |t| >= 2 && t !in env.genericTerms
  }

  // ---------------------------------------------------------------- relevance

  datatype Query = Query(role: set<string>, skills: set<string>)

  function QueryOf(env: Env, role: Option<string>, skills: Option<string>): Query {
    var r := KeywordSet(env, role);
    Query(r, KeywordSet(env, skills) - r)
  }

  function Haystack(env: Env, p: Profile): string {
    env.lower(p.headline.GetOr("") + " " + p.aiSummary.GetOr("") + " " + p.title.GetOr("") + " "
              + p.rawTitle.GetOr("") + " " + p.profileUrl.GetOr(""))
  }

  function Hits(words: set<string>, hay: string): nat {
    |set k | k in words && Contains(hay, k)|
  }

  predicate Relevant(env: Env, q: Query, p: Profile) {
    Hits(q.role, Haystack(env, p)) >= 1 || Hits(q.skills, Haystack(env, p)) >= 2
  }

  function Score(env: Env, q: Query, p: Profile): int {
    Hits(q.role, Haystack(env, p)) * 3 + Hits(q.skills, Haystack(env, p))
  }

  function RelevantTest(env: Env, q: Query): Profile -> bool {
    p => Relevant(env, q, p)
  }

  /** Sort key: strongest match first, then profiles with an email. */
  function RankKey(env: Env, q: Query): Profile -> Key {
    p => Key(-Score(env, q, p), if HasEmail(p) then 0 else 1)
  }

  function Ranked(env: Env, profiles: seq<Profile>, q: Query): seq<Profile> {
    if q.role == {} && q.skills == {} then profiles
    else StableSort(Filter(profiles, RelevantTest(env, q)), RankKey(env, q))
  }

  method RankProfilesByRelevance(env: Env, profiles: seq<Profile>, role: Option<string>, skills: Option<string>)
    returns (result: seq<Profile>)
    ensures result == Ranked(env, profiles, QueryOf(env, role, skills))
  {
    var q := QueryOf(env, role, skills);
    if q.role == {} && q.skills == {} {
      return profiles;
    }
    var ranked: seq<Profile> := [];
    for i := 0 to |profiles|
      invariant ranked == Filter(profiles[..i], RelevantTest(env, q))
    {
      FilterExtends(profiles, RelevantTest(env, q), i);
      if RelevantTest(env, q)(profiles[i]) {
        ranked := ranked + [profiles[i]];
      }
    }
    assert profiles[..|profiles|] == profiles;
    result := StableSort(ranked, RankKey(env, q));
  }

  /** The order a ranking puts two profiles in: a role hit weighs three skill hits. */
  predicate RanksBefore(env: Env, q: Query, profiles: seq<Profile>, i: int, j: int)
    requires 0 <= i < |profiles| && 0 <= j < |profiles|
  {
    var (p, r) := (profiles[i], profiles[j]);
    var a := 3 * Hits(q.role, Haystack(env, p)) + Hits(q.skills, Haystack(env, p));
    var b := 3 * Hits(q.role, Haystack(env, r)) + Hits(q.skills, Haystack(env, r));
    || a > b
    || (a == b && HasEmail(p) && !HasEmail(r))
    || (a == b && HasEmail(p) == HasEmail(r) && i < j)
  }

  /**
   * A ranking by keywords lists exactly the profiles with a role hit or two skill hits, each once, by
   * descending score, then those with an email first, then in input order.
   */
  lemma RankingOrder(env: Env, profiles: seq<Profile>, q: Query) returns (order: seq<nat>)
    requires q.role != {} || q.skills != {}
    ensures forall a :: 0 <= a < |order| ==> order[a] < |profiles|
    ensures Ranked(env, profiles, q) == At(profiles, order)
    ensures forall i :: 0 <= i < |profiles| ==>
      (i in order <==> Hits(q.role, Haystack(env, profiles[i])) >= 1 || Hits(q.skills, Haystack(env, profiles[i])) >= 2)
    ensures forall a, b :: 0 <= a < b < |order| ==> RanksBefore(env, q, profiles, order[a], order[b])
  {
    order := FilterThenSort(profiles, RelevantTest(env, q), RankKey(env, q));
    var keys := Keys(profiles, RankKey(env, q));
    forall a, b | 0 <= a < b < |order| ensures RanksBefore(env, q, profiles, order[a], order[b]) {
      assert Before(keys, order[a], order[b]);
      KeyMeansRank(env, q, profiles, order[a], order[b]);
    }
    forall i | 0 <= i < |profiles| ensures i in order <==> Relevant(env, q, profiles[i]) {
      assert RelevantTest(env, q)(profiles[i]) == Relevant(env, q, profiles[i]);
    }
  }

  lemma KeyMeansRank(env: Env, q: Query, profiles: seq<Profile>, i: nat, j: nat)
    requires i < |profiles| && j < |profiles| && Before(Keys(profiles, RankKey(env, q)), i, j)
    ensures RanksBefore(env, q, profiles, i, j)
  {
    var keys := Keys(profiles, RankKey(env, q));
    assert keys[i] == RankKey(env, q)(profiles[i]) && keys[j] == RankKey(env, q)(profiles[j]);
  }

  // ---------------------------------------------------------------- dedup

  /** A row that is a person and can be identified. */
  predicate Real(env: Env, p: Profile) {
    env.dedupKey(p) != "" && !IsJunk(env, p)
  }

  /** The first real row with its key. */
  predicate FirstOfKey(env: Env, rows: seq<Profile>, i: nat)
    requires i < |rows|
  {
    && Real(env, rows[i])
    && forall j :: 0 <= j < i && Real(env, rows[j]) ==> env.dedupKey(rows[j]) != env.dedupKey(rows[i])
  }

  /** Indices of the rows that survive the dedup. */
  function Survivors(env: Env, rows: seq<Profile>): (ix: seq<nat>)
    ensures forall a :: 0 <= a < |ix| ==> ix[a] < |rows|
  {
    if rows == [] then []
    else
      var n := |rows| - 1;
      Survivors(env, rows[..n]) + (if FirstOfKey(env, rows, n) then [n] else [])
  }

  function Cleaned(env: Env, rows: seq<Profile>): seq<Profile> {
    At(rows, Survivors(env, rows))
  }

  /** The dictionary loop: a key is taken once, by the first row that is not junk. */
  method CleanRows(env: Env, rows: seq<Profile>) returns (uniq: seq<Profile>)
    ensures uniq == Cleaned(env, rows)
  {
    uniq := [];
    var seen: set<string> := {};
    for i := 0 to |rows|
      invariant uniq == Cleaned(env, rows[..i])
      invariant forall k :: k in seen <==> exists j :: 0 <= j < i && Real(env, rows[j]) && env.dedupKey(rows[j]) == k
    {
      var k := env.dedupKey(rows[i]);
      CleanedExtends(env, rows, i);
      if k != "" && k !in seen && !IsJunk(env, rows[i]) {
        uniq := uniq + [rows[i]];
        seen := seen + {k};
      }
    }
    assert rows[..|rows|] == rows;
  }

  lemma CleanedExtends(env: Env, rows: seq<Profile>, i: nat)
    requires i < |rows|
    ensures Cleaned(env, rows[..i + 1]) ==
      Cleaned(env, rows[..i]) + (if FirstOfKey(env, rows, i) then [rows[i]] else [])
  {
    assert rows[..i + 1][..i] == rows[..i];
    assert FirstOfKey(env, rows[..i + 1], i) == FirstOfKey(env, rows, i);
  }

  /** The survivors are exactly the first real rows of their keys, in order. */
  lemma {:induction false} SurvivorsExactly(env: Env, rows: seq<Profile>)
    ensures forall a, b :: 0 <= a < b < |Survivors(env, rows)| ==> Survivors(env, rows)[a] < Survivors(env, rows)[b]
    ensures forall i :: 0 <= i < |rows| ==> (i in Survivors(env, rows) <==> FirstOfKey(env, rows, i))
  {
    if rows != [] {
      var n := |rows| - 1;
      var init := rows[..n];
      SurvivorsExactly(env, init);
      forall i | 0 <= i < n ensures FirstOfKey(env, init, i) == FirstOfKey(env, rows, i) {
        FirstOfPrefix(env, init, rows, i);
      }
      assert n !in Survivors(env, init);
    }
  }

  lemma FirstOfPrefix(env: Env, init: seq<Profile>, rows: seq<Profile>, i: nat)
    requires init <= rows && i < |init|
    ensures FirstOfKey(env, init, i) == FirstOfKey(env, rows, i)
  {
    assert forall j :: 0 <= j <= i ==> init[j] == rows[j];
  }

  lemma {:induction false} FirstOfKeyExists(env: Env, rows: seq<Profile>, i: nat) returns (j: nat)
    requires i < |rows| && Real(env, rows[i])
    ensures j <= i && FirstOfKey(env, rows, j) && env.dedupKey(rows[j]) == env.dedupKey(rows[i])
    decreases i
  {
    if FirstOfKey(env, rows, i) {
      j := i;
    } else {
      var k :| 0 <= k < i && Real(env, rows[k]) && env.dedupKey(rows[k]) == env.dedupKey(rows[i]);
      j := FirstOfKeyExists(env, rows, k);
    }
  }

  /** Cleaned rows are real and have pairwise distinct keys. */
  lemma CleanedDistinct(env: Env, rows: seq<Profile>)
    ensures var c := Cleaned(env, rows);
      && (forall a :: 0 <= a < |c| ==> Real(env, c[a]))
      && (forall a, b :: 0 <= a < b < |c| ==> env.dedupKey(c[a]) != env.dedupKey(c[b]))
  {
    var ix, c := Survivors(env, rows), Cleaned(env, rows);
    SurvivorsExactly(env, rows);
    forall a | 0 <= a < |c| ensures Real(env, c[a]) {
      assert ix[a] in ix;
    }
    forall a, b | 0 <= a < b < |c| ensures env.dedupKey(c[a]) != env.dedupKey(c[b]) {
      assert ix[a] in ix && ix[b] in ix;
    }
  }

  /** Every real row is represented under its key: a junk row before it never takes its place. */
  lemma RealRowRepresented(env: Env, rows: seq<Profile>, i: nat)
    requires i < |rows| && Real(env, rows[i])
    ensures exists a :: 0 <= a < |Cleaned(env, rows)| && env.dedupKey(Cleaned(env, rows)[a]) == env.dedupKey(rows[i])
  {
    var j := FirstOfKeyExists(env, rows, i);
    SurvivorsExactly(env, rows);
    assert j in Survivors(env, rows);
    var a :| 0 <= a < |Survivors(env, rows)| && Survivors(env, rows)[a] == j;
    assert Cleaned(env, rows)[a] == rows[j];
  }

  /** Adding freshly scraped rows behind stored ones keeps every stored survivor, as it was and where it was. */
  lemma {:induction false} StoredRowsWin(env: Env, stored: seq<Profile>, scraped: seq<Profile>)
    ensures Cleaned(env, stored) <= Cleaned(env, stored + scraped)
    decreases |scraped|
  {
    if scraped == [] {
      assert stored + scraped == stored;
    } else {
      var n := |scraped| - 1;
      var rows := stored + scraped;
      assert rows[..|stored| + n] == stored + scraped[..n];
      assert rows[..|stored| + n + 1] == rows;
      StoredRowsWin(env, stored, scraped[..n]);
      CleanedExtends(env, rows, |stored| + n);
    }
  }

  /** When a stored real row has a key, the one cleaned row with that key is a stored row. */
  lemma StoredCopyKept(env: Env, stored: seq<Profile>, scraped: seq<Profile>, i: nat, b: nat)
    requires i < |stored| && Real(env, stored[i]) && b < |Cleaned(env, stored + scraped)|
    requires env.dedupKey(Cleaned(env, stored + scraped)[b]) == env.dedupKey(stored[i])
    ensures Cleaned(env, stored + scraped)[b] in stored
  {
    var all := Cleaned(env, stored + scraped);
    StoredRowsWin(env, stored, scraped);
    RealRowRepresented(env, stored, i);
    var a :| 0 <= a < |Cleaned(env, stored)| && env.dedupKey(Cleaned(env, stored)[a]) == env.dedupKey(stored[i]);
    CleanedDistinct(env, stored + scraped);
    assert all[a] == Cleaned(env, stored)[a];
    assert a == b;
    assert all[b] == stored[Survivors(env, stored)[a]];
  }

  // ---------------------------------------------------------------- the tool

  function CleanedRanked(env: Env, rows: seq<Profile>, q: Query): seq<Profile> {
    var ranked := Ranked(env, Cleaned(env, rows), q);
    if ranked != [] then ranked else Cleaned(env, rows)
  }

  method CleanRank(env: Env, rows: seq<Profile>, role: Option<string>, skills: Option<string>)
    returns (result: seq<Profile>)
    ensures result == CleanedRanked(env, rows, QueryOf(env, role, skills))
  {
    var uniq := CleanRows(env, rows);
    var ranked := RankProfilesByRelevance(env, uniq, role, skills);
    result := if ranked != [] then ranked else uniq;
  }

  /** The second sort key: profiles with an email first. */
  function EmailKey(p: Profile): Key {
    Key(if HasEmail(p) then 0 else 1, 0)
  }

  /** The email sort groups profiles by email and leaves the ranking order inside each group alone. */
  lemma EmailsFirst(profiles: seq<Profile>)
    ensures StableSort(profiles, EmailKey) == Filter(profiles, HasEmail) + Filter(profiles, Not(HasEmail))
  {
    SortByFlag(profiles, HasEmail, EmailKey);
  }

  /** The cut never keeps a profile without email while dropping one that has it. */
  lemma CutKeepsEmails(profiles: seq<Profile>, count: nat, kept: nat, dropped: nat)
    requires var sorted := StableSort(profiles, EmailKey);
      kept < |SliceTo(sorted, count)| && |SliceTo(sorted, count)| <= dropped < |sorted|
    ensures var sorted := StableSort(profiles, EmailKey);
      HasEmail(sorted[dropped]) ==> HasEmail(SliceTo(sorted, count)[kept])
  {
    var front, back := Filter(profiles, HasEmail), Filter(profiles, Not(HasEmail));
    EmailsFirst(profiles);
    FilterSatisfies(profiles, HasEmail);
    FilterSatisfies(profiles, Not(HasEmail));
    TwoGroups(front, back, kept, dropped);
  }

  lemma TwoGroups(front: seq<Profile>, back: seq<Profile>, kept: nat, dropped: nat)
    requires forall a :: 0 <= a < |front| ==> HasEmail(front[a])
    requires forall a :: 0 <= a < |back| ==> Not(HasEmail)(back[a])
    requires kept < dropped < |front + back|
    ensures HasEmail((front + back)[dropped]) ==> HasEmail((front + back)[kept])
  {
  }

  /** Stored rows first, scraped ones only if there are too few (None when the live search failed). */
  function Found(env: Env, stored: seq<Profile>, scraped: Option<seq<Profile>>, q: Query, count: int): seq<Profile> {
    var fromStore := CleanedRanked(env, stored, q);
    if |fromStore| < count && scraped.Some? then CleanedRanked(env, stored + scraped.value, q) else fromStore
  }

  /**
   * The part of the tool that decides what is shown: the rows found, contacts filled in by `backfill`, then order
   * and cut. Nobody without an email is shown while somebody with one is dropped.
   */
  method PickCandidates(
    env: Env, stored: seq<Profile>, scraped: Option<seq<Profile>>, role: Option<string>, skills: Option<string>,
    count: int, backfill: seq<Profile> -> seq<Profile>)
    returns (picked: seq<Profile>)
    requires 1 <= count <= 25
    ensures var pool := backfill(Found(env, stored, scraped, QueryOf(env, role, skills), count));
      && picked == Shown(pool, count)
      && |picked| == (if count < |pool| then count else |pool|)
      && forall x, y :: x in pool && HasEmail(x) && x !in picked && y in picked ==> HasEmail(y)
  {
    var profiles := CleanRank(env, stored, role, skills);
    if |profiles| < count && scraped.Some? {
      profiles := CleanRank(env, stored + scraped.value, role, skills);
    }
    profiles := backfill(profiles);
    ghost var pool := profiles;
    picked := SliceTo(StableSort(profiles, EmailKey), count);
    ShownCount(pool, count);
    forall x, y | x in pool && HasEmail(x) && x !in picked && y in picked ensures HasEmail(y) {
      NoEmailDropped(pool, count, x, y);
    }
  }

  function Shown(pool: seq<Profile>, count: int): seq<Profile> {
    SliceTo(StableSort(pool, EmailKey), count)
  }

  lemma ShownCount(pool: seq<Profile>, count: nat)
    ensures |Shown(pool, count)| == if count < |pool| then count else |pool|
  {
    SortOrderInOrder(Keys(pool, EmailKey));
  }

  lemma NoEmailDropped(pool: seq<Profile>, count: nat, x: Profile, y: Profile)
    requires x in pool && HasEmail(x) && x !in Shown(pool, count) && y in Shown(pool, count)
    ensures HasEmail(y)
  {
    var front, back := Filter(pool, HasEmail), Filter(pool, Not(HasEmail));
    EmailsFirst(pool);
    FilterMember(pool, HasEmail, x);
    FilterSatisfies(pool, HasEmail);
    var i :| 0 <= i < |front| && front[i] == x;
    assert (front + back)[i] == x;
    var k :| 0 <= k < |Shown(pool, count)| && Shown(pool, count)[k] == y;
    assert i >= count;
    assert y == (front + back)[k] == front[k];
  }

  lemma SortedMember(xs: seq<Profile>, key: Profile -> Key, x: Profile)
    requires x in StableSort(xs, key)
    ensures x in xs
  {
  }

  lemma RankedMember(env: Env, rows: seq<Profile>, q: Query, x: Profile)
    requires x in CleanedRanked(env, rows, q)
    ensures x in Cleaned(env, rows)
  {
    var cleaned := Cleaned(env, rows);
    if x in Ranked(env, cleaned, q) && !(q.role == {} && q.skills == {}) {
      SortedMember(Filter(cleaned, RelevantTest(env, q)), RankKey(env, q), x);
      FilterMember(cleaned, RelevantTest(env, q), x);
    }
  }

  /** A backfill that only fills in contacts: same people, same order. */
  ghost predicate OnlyFills(backfill: seq<Profile> -> seq<Profile>) {
    forall ps: seq<Profile> ::
      |backfill(ps)| == |ps| && forall i :: 0 <= i < |ps| ==> backfill(ps)[i].id == ps[i].id
  }

  /** `y` is real, and a stored row if any stored real row has its key. */
  ghost predicate Preferred(env: Env, stored: seq<Profile>, y: Profile) {
    && Real(env, y)
    && forall i :: (0 <= i < |stored| && Real(env, stored[i]) && env.dedupKey(stored[i]) == env.dedupKey(y)) ==>
         y in stored
  }

  /** `x` is what the backfill made of found row `i`: a real row of a search, the stored copy if there is one. */
  ghost predicate MadeFrom(env: Env, stored: seq<Profile>, scraped: Option<seq<Profile>>, found: seq<Profile>,
                           filled: seq<Profile>, i: int, x: Profile) {
    && 0 <= i < |found| && |filled| == |found|
    && filled[i] == x && found[i].id == x.id
    && found[i] in stored + scraped.GetOr([]) && Preferred(env, stored, found[i])
  }

  /** Whoever is shown was found: a real row, and the stored copy wherever the store has one. */
  lemma ShownArePreferred(env: Env, stored: seq<Profile>, scraped: Option<seq<Profile>>, q: Query, count: nat,
                          backfill: seq<Profile> -> seq<Profile>, x: Profile)
    requires OnlyFills(backfill) && x in Shown(backfill(Found(env, stored, scraped, q, count)), count)
    ensures var found := Found(env, stored, scraped, q, count);
      exists i :: MadeFrom(env, stored, scraped, found, backfill(found), i, x)
  {
    var found := Found(env, stored, scraped, q, count);
    var pool := backfill(found);
    SortedMember(pool, EmailKey, x);
    var i :| 0 <= i < |pool| && pool[i] == x;
    assert found[i].id == x.id && found[i] in found;
    FoundPreferred(env, stored, scraped, q, count, found[i]);
    FoundInSearches(env, stored, scraped, q, count, found[i]);
    assert MadeFrom(env, stored, scraped, found, pool, i, x);
  }

  lemma CleanedMember(env: Env, rows: seq<Profile>, y: Profile)
    requires y in Cleaned(env, rows)
    ensures y in rows
  {
  }

  lemma FoundInSearches(env: Env, stored: seq<Profile>, scraped: Option<seq<Profile>>, q: Query, count: nat, y: Profile)
    requires y in Found(env, stored, scraped, q, count)
    ensures y in stored + scraped.GetOr([])
  {
    if |CleanedRanked(env, stored, q)| < count && scraped.Some? {
      RankedMember(env, stored + scraped.value, q, y);
      CleanedMember(env, stored + scraped.value, y);
    } else {
      RankedMember(env, stored, q, y);
      CleanedMember(env, stored, y);
    }
  }

  lemma FoundPreferred(env: Env, stored: seq<Profile>, scraped: Option<seq<Profile>>, q: Query, count: nat, y: Profile)
    requires y in Found(env, stored, scraped, q, count)
    ensures Preferred(env, stored, y)
  {
    if |CleanedRanked(env, stored, q)| < count && scraped.Some? {
      RankedMember(env, stored + scraped.value, q, y);
      CleanedPreferred(env, stored, scraped.value, y);
    } else {
      RankedMember(env, stored, q, y);
      assert stored + [] == stored;
      CleanedPreferred(env, stored, [], y);
    }
  }

  lemma CleanedPreferred(env: Env, stored: seq<Profile>, scraped: seq<Profile>, y: Profile)
    requires y in Cleaned(env, stored + scraped)
    ensures Preferred(env, stored, y)
  {
    var all := Cleaned(env, stored + scraped);
    var b :| 0 <= b < |all| && all[b] == y;
    CleanedDistinct(env, stored + scraped);
    forall i | 0 <= i < |stored| && Real(env, stored[i]) && env.dedupKey(stored[i]) == env.dedupKey(y)
      ensures y in stored
    {
      StoredCopyKept(env, stored, scraped, i, b);
    }
  }
}
