/** The 360-degree report: ratings are tallied by category and relation, and averaged. */
module X360Report {
  import opened PyText
  import opened Sequences
  import opened X360Relations

  const RELATIONS: set<Relation> := {Self, Manager, Peer, Report}

  datatype QuestionType = RatingQuestion | TextQuestion

  datatype Response = Response(kind: QuestionType, category: string, question: string,
                               value: Option<int>, text: Option<string>)

  /** A completed assignment. */
  datatype Completed = Completed(relation: Relation, responses: seq<Response>)

  datatype Rating = Rating(category: string, relation: Relation, value: int)

  datatype Comment = Comment(category: string, question: string, rater: string, answer: string)

  /** An insertion-ordered dictionary. */
  datatype Dict<K(==,!new), +V> = Dict(keys: seq<K>, at: map<K, V>) {
    ghost predicate Valid() {
      && (forall i, j :: 0 <= i < j < |keys| ==> keys[i] != keys[j])
      && (forall k :: k in at <==> k in keys)
    }

    function Put(key: K, v: V): (d: Dict<K, V>)
      ensures Valid() ==> d.Valid()
    {
      Dict(if key in at then keys else keys + [key], at[key := v])
    }
  }

  type Buckets = Dict<Relation, seq<int>>

  // ---------------------------------------------------------------- what is counted

  /** A rating of zero counts as no answer. */
  function Counted(relation: Relation, r: Response): seq<Rating> {
    if r.kind.RatingQuestion? && r.value.Some? && r.value.value != 0 then
      [Rating(r.category, relation, r.value.value)]
    else []
  }

  function RaterLabel(relation: Relation): string {
    match relation
    case Self => "SELF"
    case Manager => "MANAGER"
    case Peer => "Anonymous PEER"
    case Report => "Anonymous REPORT"
  }

  function Quoted(relation: Relation, r: Response): seq<Comment> {
    if r.kind.TextQuestion? && r.text.Some? && r.text.value != "" then
      [Comment(r.category, r.question, RaterLabel(relation), r.text.value)]
    else []
  }

  function RatingsOf(relation: Relation, responses: seq<Response>): seq<Rating> {
    if responses == [] then []
    else
      var n := |responses| - 1;
      RatingsOf(relation, responses[..n]) + Counted(relation, responses[n])
  }

  function CommentsOf(relation: Relation, responses: seq<Response>): seq<Comment> {
    if responses == [] then []
    else
      var n := |responses| - 1;
      CommentsOf(relation, responses[..n]) + Quoted(relation, responses[n])
  }

  function AllRatings(completed: seq<Completed>): seq<Rating> {
    if completed == [] then []
    else
      var n := |completed| - 1;
      AllRatings(completed[..n]) + RatingsOf(completed[n].relation, completed[n].responses)
  }

  function AllComments(completed: seq<Completed>): seq<Comment> {
    if completed == [] then []
    else
      var n := |completed| - 1;
      AllComments(completed[..n]) + CommentsOf(completed[n].relation, completed[n].responses)
  }

  // ---------------------------------------------------------------- the specification of the tally

  /** The values given in a category by raters in one of the relations, in order. */
  function Values(ratings: seq<Rating>, category: string, relations: set<Relation>): seq<int> {
    if ratings == [] then []
    else
      var n := |ratings| - 1;
      Values(ratings[..n], category, relations) +
      (if ratings[n].category == category && ratings[n].relation in relations then [ratings[n].value] else [])
  }

  /** The rated categories in the order of their first rating. */
  function Categories(ratings: seq<Rating>): seq<string> {
    if ratings == [] then []
    else
      var n := |ratings| - 1;
      var before := Categories(ratings[..n]);
      if ratings[n].category in before then before else before + [ratings[n].category]
  }

  ghost predicate BucketsFor(buckets: Buckets, ratings: seq<Rating>, category: string) {
    && buckets.Valid()
    && forall r: Relation ::
         (r in buckets.at <==> Values(ratings, category, {r}) != []) &&
         (r in buckets.at ==> buckets.at[r] == Values(ratings, category, {r}))
  }

  /** The dictionaries hold each rating in the bucket of its category and relation, and nothing else. */
  ghost predicate Tallies(scores: Dict<string, Buckets>, ratings: seq<Rating>) {
    && scores.Valid() && scores.keys == Categories(ratings)
    && forall c :: c in scores.keys ==> BucketsFor(scores.at[c], ratings, c)
  }

  // ---------------------------------------------------------------- the tally

  function AddToBuckets(b: Buckets, relation: Relation, value: int): (b1: Buckets)
    ensures b.Valid() ==> b1.Valid()
    ensures forall x :: x in b1.at <==> x in b.at || x == relation
    ensures forall x :: x in b1.at && x != relation ==> b1.at[x] == b.at[x]
    ensures b1.at[relation] == (if relation in b.at then b.at[relation] else []) + [value]
  {
    var b0 := if relation in b.at then b else b.Put(relation, []);
    b0.Put(relation, b0.at[relation] + [value])
  }

  /** The loop body: missing dictionaries and lists are made on the way. */
  function AddRating(scores: Dict<string, Buckets>, r: Rating): (s1: Dict<string, Buckets>)
    ensures scores.Valid() ==> s1.Valid()
    ensures s1.keys == if r.category in scores.at then scores.keys else scores.keys + [r.category]
    ensures r.category in s1.at
    ensures s1.at[r.category] ==
      AddToBuckets(if r.category in scores.at then scores.at[r.category] else Dict([], map[]), r.relation, r.value)
    ensures forall c :: c in scores.at && c != r.category ==> c in s1.at && s1.at[c] == scores.at[c]
  {
    var s0 := if r.category in scores.at then scores else scores.Put(r.category, Dict([], map[]));
    s0.Put(r.category, AddToBuckets(s0.at[r.category], r.relation, r.value))
  }

  lemma {:induction false} CategoriesExactly(ratings: seq<Rating>, category: string)
    ensures category in Categories(ratings) <==> Values(ratings, category, RELATIONS) != []
    ensures forall r :: Values(ratings, category, {r}) != [] ==> category in Categories(ratings)
  {
    if ratings != [] {
      var n := |ratings| - 1;
      CategoriesExactly(ratings[..n], category);
      assert ratings[n].relation in RELATIONS by {
        match ratings[n].relation case Self => case Manager => case Peer => case Report =>
      }
    }
  }

  lemma ValuesNext(ratings: seq<Rating>, r: Rating, category: string, relations: set<Relation>)
    ensures Values(ratings + [r], category, relations) == Values(ratings, category, relations) +
      (if r.category == category && r.relation in relations then [r.value] else [])
  {
    assert (ratings + [r])[..|ratings|] == ratings;
  }

  lemma CategoriesNext(ratings: seq<Rating>, r: Rating)
    ensures Categories(ratings + [r]) ==
      if r.category in Categories(ratings) then Categories(ratings) else Categories(ratings) + [r.category]
  {
    assert (ratings + [r])[..|ratings|] == ratings;
  }

  /** One more rating in the category. */
  lemma BucketsNext(b: Buckets, ratings: seq<Rating>, r: Rating)
    requires BucketsFor(b, ratings, r.category)
    ensures BucketsFor(AddToBuckets(b, r.relation, r.value), ratings + [r], r.category)
  {
    forall x: Relation
      ensures Values(ratings + [r], r.category, {x}) ==
        Values(ratings, r.category, {x}) + (if r.relation == x then [r.value] else [])
    {
      ValuesNext(ratings, r, r.category, {x});
    }
  }

  /** One more rating in another category. */
  lemma BucketsSame(b: Buckets, ratings: seq<Rating>, r: Rating, category: string)
    requires BucketsFor(b, ratings, category) && r.category != category
    ensures BucketsFor(b, ratings + [r], category)
  {
    forall x: Relation ensures Values(ratings + [r], category, {x}) == Values(ratings, category, {x}) {
      ValuesNext(ratings, r, category, {x});
    }
  }

  lemma TallyNext(scores: Dict<string, Buckets>, ratings: seq<Rating>, r: Rating)
    requires Tallies(scores, ratings)
    ensures Tallies(AddRating(scores, r), ratings + [r])
  {
    CategoriesNext(ratings, r);
    CategoriesExactly(ratings, r.category);
    BucketsNext(if r.category in scores.at then scores.at[r.category] else Dict([], map[]), ratings, r);
    var s1 := AddRating(scores, r);
    forall c | c in s1.keys ensures BucketsFor(s1.at[c], ratings + [r], c) {
      if c != r.category {
        assert c in scores.keys;
        BucketsSame(scores.at[c], ratings, r, c);
      }
    }
  }

  /** One response: a rating, a comment, or neither. */
  method CollectOne(relation: Relation, r: Response, scores0: Dict<string, Buckets>, comments0: seq<Comment>,
                    ghost ratings: seq<Rating>)
    returns (scores: Dict<string, Buckets>, comments: seq<Comment>)
    requires Tallies(scores0, ratings)
    ensures Tallies(scores, ratings + Counted(relation, r)) && comments == comments0 + Quoted(relation, r)
  {
    scores, comments := scores0, comments0;
    assert ratings + [] == ratings;
    if r.kind.RatingQuestion? && r.value.GetOr(0) != 0 {
      TallyNext(scores, ratings, Rating(r.category, relation, r.value.value));
      scores := AddRating(scores, Rating(r.category, relation, r.value.value));
    } else if r.kind.TextQuestion? && r.text.GetOr("") != "" {
      comments := comments + [Comment(r.category, r.question, RaterLabel(relation), r.text.value)];
    }
  }

  /** The inner loop: the responses of one assignment are added to what was collected before. */
  method CollectFrom(relation: Relation, responses: seq<Response>, scores0: Dict<string, Buckets>,
                     ghost ratings: seq<Rating>)
    returns (scores: Dict<string, Buckets>, comments: seq<Comment>)
    requires Tallies(scores0, ratings)
    ensures Tallies(scores, ratings + RatingsOf(relation, responses)) && comments == CommentsOf(relation, responses)
  {
    scores, comments := scores0, [];
    assert ratings + [] == ratings;
    for j := 0 to |responses|
      invariant Tallies(scores, ratings + RatingsOf(relation, responses[..j]))
      invariant comments == CommentsOf(relation, responses[..j])
    {
      ResponseNext(ratings, relation, responses, j);
      scores, comments :=
        CollectOne(relation, responses[j], scores, comments, ratings + RatingsOf(relation, responses[..j]));
    }
    assert responses[..|responses|] == responses;
  }

  lemma ResponseNext(ratings: seq<Rating>, relation: Relation, responses: seq<Response>, j: nat)
    requires j < |responses|
    ensures CommentsOf(relation, responses[..j + 1])
         == CommentsOf(relation, responses[..j]) + Quoted(relation, responses[j])
    ensures ratings + RatingsOf(relation, responses[..j + 1])
         == ratings + RatingsOf(relation, responses[..j]) + Counted(relation, responses[j])
  {
    assert responses[..j + 1][..j] == responses[..j];
  }

  /** The outer loop. */
  method Collect(completed: seq<Completed>) returns (scores: Dict<string, Buckets>, comments: seq<Comment>)
    ensures Tallies(scores, AllRatings(completed)) && comments == AllComments(completed)
  {
    scores, comments := Dict([], map[]), [];
    for i := 0 to |completed|
      invariant Tallies(scores, AllRatings(completed[..i])) && comments == AllComments(completed[..i])
    {
      assert completed[..i + 1][..i] == completed[..i];
      var more;
      scores, more :=
        CollectFrom(completed[i].relation, completed[i].responses, scores, AllRatings(completed[..i]));
      comments := comments + more;
    }
    assert completed[..|completed|] == completed;
  }

  // ---------------------------------------------------------------- the averages

  function Average(values: seq<int>): Option<real> {
    if values == [] then None else Some(SumOf(values) as real / |values| as real)
  }

  datatype Score = Score(category: string, self: Option<real>, manager: Option<real>, peer: Option<real>,
                         overall: Option<real>)

  /** What the report says about a category: the relation of reports counts towards the overall average only. */
  function ScoreOf(ratings: seq<Rating>, category: string): Score {
    Score(category, Average(Values(ratings, category, {Self})), Average(Values(ratings, category, {Manager})),
          Average(Values(ratings, category, {Peer})), Average(Values(ratings, category, RELATIONS)))
  }

  lemma ValuesLast(ratings: seq<Rating>, category: string, relations: set<Relation>)
    requires ratings != []
    ensures var n := |ratings| - 1;
      var before, all := Values(ratings[..n], category, relations), Values(ratings, category, relations);
      if ratings[n].category == category && ratings[n].relation in relations
      then SumOf(all) == SumOf(before) + ratings[n].value && |all| == |before| + 1
      else all == before
  {
    var n := |ratings| - 1;
    SumOfConcat(Values(ratings[..n], category, relations), [ratings[n].value]);
    assert [ratings[n].value][..0] == [];
  }

  /** Adding a relation adds its bucket, whatever the order of the ratings. */
  lemma {:induction false} ValuesSplit(ratings: seq<Rating>, category: string, relations: set<Relation>, r: Relation)
    requires r !in relations
    ensures var both := Values(ratings, category, relations + {r});
      var a, b := Values(ratings, category, relations), Values(ratings, category, {r});
      SumOf(both) == SumOf(a) + SumOf(b) && |both| == |a| + |b|
  {
    if ratings != [] {
      var n := |ratings| - 1;
      ValuesSplit(ratings[..n], category, relations, r);
      ValuesLast(ratings, category, relations + {r});
      ValuesLast(ratings, category, relations);
      ValuesLast(ratings, category, {r});
    }
  }

  /** Relations without a value in the category do not matter. */
  lemma {:induction false} ValuesEnough(ratings: seq<Rating>, category: string, relations: set<Relation>)
    requires forall r: Relation :: r !in relations ==> Values(ratings, category, {r}) == []
    ensures Values(ratings, category, relations) == Values(ratings, category, RELATIONS)
  {
    if ratings != [] {
      var n := |ratings| - 1;
      assert ratings[n].relation in RELATIONS by {
        match ratings[n].relation case Self => case Manager => case Peer => case Report =>
      }
      ValuesEnough(ratings[..n], category, relations);
    }
  }

  lemma BucketAdded(all: seq<int>, bucket: seq<int>, ratings: seq<Rating>, category: string,
                    seen: set<Relation>, r: Relation)
    requires r !in seen && bucket == Values(ratings, category, {r})
    requires SumOf(all) == SumOf(Values(ratings, category, seen)) && |all| == |Values(ratings, category, seen)|
    ensures var both := Values(ratings, category, seen + {r});
      SumOf(all + bucket) == SumOf(both) && |all + bucket| == |both|
  {
    ValuesSplit(ratings, category, seen, r);
    SumOfConcat(all, bucket);
  }

  /** All values of a category, bucket by bucket in the dictionary's order. */
  method AllValues(buckets: Buckets, ghost ratings: seq<Rating>, ghost category: string) returns (all: seq<int>)
    requires BucketsFor(buckets, ratings, category)
    ensures Average(all) == Average(Values(ratings, category, RELATIONS))
  {
    all := [];
    ghost var seen: set<Relation> := {};
    NoValues(ratings, category);
    for i := 0 to |buckets.keys|
      invariant SeenUpTo(seen, buckets.keys, i)
      invariant SumOf(all) == SumOf(Values(ratings, category, seen)) && |all| == |Values(ratings, category, seen)|
    {
      var r := buckets.keys[i];
      SeenNext(seen, buckets.keys, i);
      BucketAdded(all, buckets.at[r], ratings, category, seen, r);
      all := all + buckets.at[r];
      seen := seen + {r};
    }
    AllSeen(buckets, ratings, category, seen);
  }

  ghost predicate SeenUpTo(seen: set<Relation>, keys: seq<Relation>, i: nat)
    requires i <= |keys|
  {
    forall r :: r in seen <==> r in keys[..i]
  }

  lemma SeenNext(seen: set<Relation>, keys: seq<Relation>, i: nat)
    requires i < |keys| && SeenUpTo(seen, keys, i)
    requires forall a, b :: 0 <= a < b < |keys| ==> keys[a] != keys[b]
    ensures keys[i] !in seen && SeenUpTo(seen + {keys[i]}, keys, i + 1)
  {
    assert keys[..i + 1] == keys[..i] + [keys[i]];
  }

  lemma AllSeen(buckets: Buckets, ratings: seq<Rating>, category: string, seen: set<Relation>)
    requires BucketsFor(buckets, ratings, category) && SeenUpTo(seen, buckets.keys, |buckets.keys|)
    ensures Values(ratings, category, seen) == Values(ratings, category, RELATIONS)
  {
    assert buckets.keys[..|buckets.keys|] == buckets.keys;
    ValuesEnough(ratings, category, seen);
  }

  lemma {:induction false} NoValues(ratings: seq<Rating>, category: string)
    ensures Values(ratings, category, {}) == []
  {
    if ratings != [] {
      NoValues(ratings[..|ratings| - 1], category);
    }
  }

  function Bucket(buckets: Buckets, r: Relation): seq<int> {
    if r in buckets.at then buckets.at[r] else []
  }

  function ScoresOf(ratings: seq<Rating>, categories: seq<string>): seq<Score> {
    seq(|categories|, i requires 0 <= i < |categories| => ScoreOf(ratings, categories[i]))
  }

  lemma BucketsAreValues(buckets: Buckets, ratings: seq<Rating>, category: string, r: Relation)
    requires BucketsFor(buckets, ratings, category)
    ensures Bucket(buckets, r) == Values(ratings, category, {r})
  {
  }

  method FormatScore(category: string, buckets: Buckets, ghost ratings: seq<Rating>) returns (score: Score)
    requires BucketsFor(buckets, ratings, category)
    ensures score == ScoreOf(ratings, category)
  {
    var all := AllValues(buckets, ratings, category);
    BucketsAreValues(buckets, ratings, category, Self);
    BucketsAreValues(buckets, ratings, category, Manager);
    BucketsAreValues(buckets, ratings, category, Peer);
    score := Score(category, Average(Bucket(buckets, Self)), Average(Bucket(buckets, Manager)),
                   Average(Bucket(buckets, Peer)), Average(all));
  }

  lemma ScoresNext(ratings: seq<Rating>, categories: seq<string>, i: nat)
    requires i < |categories|
    ensures ScoresOf(ratings, categories[..i + 1])
         == ScoresOf(ratings, categories[..i]) + [ScoreOf(ratings, categories[i])]
  {
  }

  method FormatScores(tally: Dict<string, Buckets>, ghost ratings: seq<Rating>) returns (scores: seq<Score>)
    requires Tallies(tally, ratings)
    ensures scores == ScoresOf(ratings, Categories(ratings))
  {
    scores := [];
    for i := 0 to |tally.keys|
      invariant scores == ScoresOf(ratings, tally.keys[..i])
    {
      var score := FormatScore(tally.keys[i], tally.at[tally.keys[i]], ratings);
      ScoresNext(ratings, tally.keys, i);
      scores := scores + [score];
    }
    assert tally.keys[..|tally.keys|] == tally.keys;
  }

  /** The report of the completed assignments. */
  method GetReport(completed: seq<Completed>) returns (scores: seq<Score>, comments: seq<Comment>)
    ensures scores == ScoresOf(AllRatings(completed), Categories(AllRatings(completed)))
    ensures comments == AllComments(completed)
  {
    var tally;
    tally, comments := Collect(completed);
    scores := FormatScores(tally, AllRatings(completed));
  }

  // ---------------------------------------------------------------- what the averages mean

  /** An average times the number of its values. */
  function Weight(values: seq<int>): real {
    Average(values).GetOr(0.0) * |values| as real
  }

  lemma WeightIsSum(values: seq<int>)
    ensures Weight(values) == SumOf(values) as real
  {
  }

  lemma FourBuckets(ratings: seq<Rating>, category: string)
    ensures SumOf(Values(ratings, category, RELATIONS)) ==
      SumOf(Values(ratings, category, {Self})) + SumOf(Values(ratings, category, {Manager})) +
      SumOf(Values(ratings, category, {Peer})) + SumOf(Values(ratings, category, {Report}))
    ensures |Values(ratings, category, RELATIONS)| ==
      |Values(ratings, category, {Self})| + |Values(ratings, category, {Manager})| +
      |Values(ratings, category, {Peer})| + |Values(ratings, category, {Report})|
  {
    ValuesSplit(ratings, category, {Self}, Manager);
    ValuesSplit(ratings, category, {Self} + {Manager}, Peer);
    ValuesSplit(ratings, category, {Self} + {Manager} + {Peer}, Report);
    assert RELATIONS == {Self} + {Manager} + {Peer} + {Report};
  }

  /** The overall average is the mean of the four relations' averages weighted by their counts. */
  lemma OverallIsWeightedMean(ratings: seq<Rating>, category: string)
    requires category in Categories(ratings)
    ensures var all := Values(ratings, category, RELATIONS);
      && all != []
      && Weight(all) == Weight(Values(ratings, category, {Self})) + Weight(Values(ratings, category, {Manager})) +
                        Weight(Values(ratings, category, {Peer})) + Weight(Values(ratings, category, {Report}))
      && |all| == |Values(ratings, category, {Self})| + |Values(ratings, category, {Manager})| +
           |Values(ratings, category, {Peer})| + |Values(ratings, category, {Report})|
  {
    CategoriesExactly(ratings, category);
    FourBuckets(ratings, category);
    WeightIsSum(Values(ratings, category, RELATIONS));
    WeightIsSum(Values(ratings, category, {Self}));
    WeightIsSum(Values(ratings, category, {Manager}));
    WeightIsSum(Values(ratings, category, {Peer}));
    WeightIsSum(Values(ratings, category, {Report}));
  }

  /** An average lies between any bounds of its values. */
  lemma {:induction false} SumBetween(values: seq<int>, lo: int, hi: int)
    requires forall i :: 0 <= i < |values| ==> lo <= values[i] <= hi
    ensures lo * |values| <= SumOf(values) <= hi * |values|
  {
    if values != [] {
      SumBetween(values[..|values| - 1], lo, hi);
    }
  }

  lemma AverageBetween(values: seq<int>, lo: int, hi: int)
    requires values != [] && forall i :: 0 <= i < |values| ==> lo <= values[i] <= hi
    ensures lo as real <= Average(values).value <= hi as real
  {
    SumBetween(values, lo, hi);
    ProductAsReal(lo, |values|);
    ProductAsReal(hi, |values|);
    QuotientBetween(SumOf(values) as real, |values| as real, lo as real, hi as real);
  }

  lemma ProductAsReal(a: int, b: int)
    ensures (a * b) as real == a as real * b as real
  {
  }

  lemma QuotientBetween(s: real, n: real, lo: real, hi: real)
    requires n > 0.0 && lo * n <= s <= hi * n
    ensures lo <= s / n <= hi
  {
    var q := s / n;
    assert q * n == s;
    ScaledOrder(lo, q, n);
    ScaledOrder(q, hi, n);
  }

  lemma ScaledOrder(a: real, b: real, n: real)
    requires n > 0.0
    ensures a * n <= b * n <==> a <= b
  {
    assert b * n - a * n == (b - a) * n;
  }

  function CountAll(ratings: seq<Rating>, categories: seq<string>): nat {
    if categories == [] then 0
    else CountAll(ratings, categories[..|categories| - 1]) + |Values(ratings, categories[|categories| - 1], RELATIONS)|
  }

  /** No rating is lost and none is counted in two categories. */
  lemma {:induction false} EveryRatingCountsOnce(ratings: seq<Rating>)
    ensures CountAll(ratings, Categories(ratings)) == |ratings|
  {
    if ratings != [] {
      var n := |ratings| - 1;
      EveryRatingCountsOnce(ratings[..n]);
      CategoriesDistinct(ratings[..n]);
      var before := Categories(ratings[..n]);
      CountNext(ratings, before);
      CategoriesExactly(ratings[..n], ratings[n].category);
      if ratings[n].category !in before {
        ValuesLast(ratings, ratings[n].category, RELATIONS);
        assert ratings[n].relation in RELATIONS by {
          match ratings[n].relation case Self => case Manager => case Peer => case Report =>
        }
        assert (before + [ratings[n].category])[..|before|] == before;
      }
    }
  }

  lemma {:induction false} CategoriesDistinct(ratings: seq<Rating>)
    ensures forall i, j :: 0 <= i < j < |Categories(ratings)| ==> Categories(ratings)[i] != Categories(ratings)[j]
  {
    if ratings != [] {
      CategoriesDistinct(ratings[..|ratings| - 1]);
    }
  }

  /** The last rating adds one to its own category. */
  lemma {:induction false} CountNext(ratings: seq<Rating>, categories: seq<string>)
    requires ratings != []
    requires forall i, j :: 0 <= i < j < |categories| ==> categories[i] != categories[j]
    ensures var n := |ratings| - 1;
      CountAll(ratings, categories) ==
      CountAll(ratings[..n], categories) + if ratings[n].category in categories then 1 else 0
  {
    if categories != [] {
      var n, m := |ratings| - 1, |categories| - 1;
      CountNext(ratings, categories[..m]);
      assert categories == categories[..m] + [categories[m]];
      assert ratings[n].relation in RELATIONS by {
        match ratings[n].relation case Self => case Manager => case Peer => case Report =>
      }
    }
  }
}
