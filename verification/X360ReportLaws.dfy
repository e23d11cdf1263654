/** The report read off the responses themselves: which responses enter which average, and what a comment says. */
module X360ReportLaws {
  import opened PyText
  import opened Sequences
  import opened X360Relations
  import opened X360Report

  /** The points a response gives to a category; zero and no answer give none. */
  function Points(r: Response, category: string): int {
    if r.kind == RatingQuestion && r.category == category then
      match r.value case None => 0 case Some(v) => v
    else 0
  }

  function PointsIn(responses: seq<Response>, category: string): int {
    if responses == [] then 0
    else PointsIn(responses[..|responses| - 1], category) + Points(responses[|responses| - 1], category)
  }

  function VotesIn(responses: seq<Response>, category: string): nat {
    if responses == [] then 0
    else
      var n := |responses| - 1;
      VotesIn(responses[..n], category) + if Points(responses[n], category) != 0 then 1 else 0
  }

  /** All points a category got from raters in one of the relations. */
  function TotalPoints(completed: seq<Completed>, category: string, relations: set<Relation>): int {
    if completed == [] then 0
    else
      var n := |completed| - 1;
      TotalPoints(completed[..n], category, relations) +
      if completed[n].relation in relations then PointsIn(completed[n].responses, category) else 0
  }

  function TotalVotes(completed: seq<Completed>, category: string, relations: set<Relation>): nat {
    if completed == [] then 0
    else
      var n := |completed| - 1;
      TotalVotes(completed[..n], category, relations) +
      if completed[n].relation in relations then VotesIn(completed[n].responses, category) else 0
  }

  /** `mean` is the total divided by the number of votes, and missing without a vote. */
  predicate MeanOf(mean: Option<real>, total: int, votes: nat) {
    match mean
    case None => votes == 0
    case Some(x) => votes > 0 && x * votes as real == total as real
  }

  lemma {:induction false} ValuesConcat(a: seq<Rating>, b: seq<Rating>, category: string, relations: set<Relation>)
    ensures Values(a + b, category, relations) == Values(a, category, relations) + Values(b, category, relations)
  {
    if b == [] {
      assert a + b == a;
    } else {
      var n := |b| - 1;
      assert (a + b)[..|a + b| - 1] == a + b[..n];
      ValuesConcat(a, b[..n], category, relations);
    }
  }

  lemma CountedValues(relation: Relation, r: Response, category: string, relations: set<Relation>)
    ensures Values(Counted(relation, r), category, relations)
         == if relation in relations && Points(r, category) != 0 then [Points(r, category)] else []
  {
    var one := Counted(relation, r);
    if |one| == 1 {
      assert one[..0] == [];
    }
  }

  lemma {:induction false} ResponseTotals(
    relation: Relation, responses: seq<Response>, category: string, relations: set<Relation>)
    requires relation in relations
    ensures SumOf(Values(RatingsOf(relation, responses), category, relations)) == PointsIn(responses, category)
    ensures |Values(RatingsOf(relation, responses), category, relations)| == VotesIn(responses, category)
  {
    if responses != [] {
      var n := |responses| - 1;
      ResponseTotals(relation, responses[..n], category, relations);
      ValuesConcat(RatingsOf(relation, responses[..n]), Counted(relation, responses[n]), category, relations);
      CountedValues(relation, responses[n], category, relations);
      OneMore(Values(RatingsOf(relation, responses[..n]), category, relations), Points(responses[n], category));
    }
  }

  lemma {:induction false} ForeignResponses(
    relation: Relation, responses: seq<Response>, category: string, relations: set<Relation>)
    requires relation !in relations
    ensures Values(RatingsOf(relation, responses), category, relations) == []
  {
    if responses != [] {
      var n := |responses| - 1;
      ForeignResponses(relation, responses[..n], category, relations);
      ValuesConcat(RatingsOf(relation, responses[..n]), Counted(relation, responses[n]), category, relations);
      CountedValues(relation, responses[n], category, relations);
    }
  }

  lemma OneMore(values: seq<int>, points: int)
    ensures var vs := values + (if points != 0 then [points] else []);
      SumOf(vs) == SumOf(values) + points && |vs| == |values| + if points != 0 then 1 else 0
  {
    SumOfConcat(values, [points]);
    SumOfOne(points);
    assert values + [] == values;
  }

  lemma SumOfOne(x: int)
    ensures SumOf([x]) == x
  {
    assert [x][..0] == [];
  }

  lemma {:induction false} ReportTotals(completed: seq<Completed>, category: string, relations: set<Relation>)
    ensures var vs := Values(AllRatings(completed), category, relations);
      SumOf(vs) == TotalPoints(completed, category, relations) && |vs| == TotalVotes(completed, category, relations)
  {
    if completed != [] {
      var n := |completed| - 1;
      var before, last := AllRatings(completed[..n]), RatingsOf(completed[n].relation, completed[n].responses);
      ReportTotals(completed[..n], category, relations);
      if completed[n].relation in relations {
        ResponseTotals(completed[n].relation, completed[n].responses, category, relations);
      } else {
        ForeignResponses(completed[n].relation, completed[n].responses, category, relations);
      }
      ValuesConcat(before, last, category, relations);
      SumOfConcat(Values(before, category, relations), Values(last, category, relations));
    }
  }

  lemma AverageIsMean(completed: seq<Completed>, category: string, relations: set<Relation>)
    ensures MeanOf(Average(Values(AllRatings(completed), category, relations)),
                   TotalPoints(completed, category, relations), TotalVotes(completed, category, relations))
  {
    ReportTotals(completed, category, relations);
    MeanOfAverage(Values(AllRatings(completed), category, relations));
  }

  lemma MeanOfAverage(values: seq<int>)
    ensures MeanOf(Average(values), SumOf(values), |values|)
  {
    if values != [] {
      QuotientTimes(SumOf(values) as real, |values| as real);
    }
  }

  lemma QuotientTimes(s: real, n: real)
    requires n > 0.0
    ensures (s / n) * n == s
  {
  }

  /** The three named averages are those of the raters in that relation, the overall one that of all raters. */
  predicate ScoreMeans(completed: seq<Completed>, s: Score) {
    && MeanOf(s.self, TotalPoints(completed, s.category, {Self}), TotalVotes(completed, s.category, {Self}))
    && MeanOf(s.manager, TotalPoints(completed, s.category, {Manager}), TotalVotes(completed, s.category, {Manager}))
    && MeanOf(s.peer, TotalPoints(completed, s.category, {Peer}), TotalVotes(completed, s.category, {Peer}))
    && MeanOf(s.overall, TotalPoints(completed, s.category, {Self, Manager, Peer, Report}),
              TotalVotes(completed, s.category, {Self, Manager, Peer, Report}))
  }

  /**
   * The scores of the report: a category is listed once, if and only if some response gives it points, and its scores
   * are the means of those points.
   */
  lemma ScoresExactly(completed: seq<Completed>, scores: seq<Score>)
    requires scores == ScoresOf(AllRatings(completed), Categories(AllRatings(completed)))
    ensures forall i, j :: 0 <= i < j < |scores| ==> scores[i].category != scores[j].category
    ensures forall c :: (exists i :: 0 <= i < |scores| && scores[i].category == c)
                   <==> TotalVotes(completed, c, {Self, Manager, Peer, Report}) > 0
    ensures forall i :: 0 <= i < |scores| ==> ScoreMeans(completed, scores[i])
  {
    var ratings := AllRatings(completed);
    CategoriesDistinct(ratings);
    forall c ensures (exists i :: 0 <= i < |scores| && scores[i].category == c)
                <==> TotalVotes(completed, c, {Self, Manager, Peer, Report}) > 0 {
      CategoriesExactly(ratings, c);
      ReportTotals(completed, c, RELATIONS);
      ListedCategory(ratings, c);
    }
    forall i | 0 <= i < |scores| ensures ScoreMeans(completed, scores[i]) {
      ScoreFields(completed, scores[i].category);
    }
  }

  lemma ScoreFields(completed: seq<Completed>, category: string)
    ensures ScoreMeans(completed, ScoreOf(AllRatings(completed), category))
  {
    AverageIsMean(completed, category, {Self});
    AverageIsMean(completed, category, {Manager});
    AverageIsMean(completed, category, {Peer});
    AverageIsMean(completed, category, {Self, Manager, Peer, Report});
  }

  lemma ListedCategory(ratings: seq<Rating>, c: string)
    ensures var scores := ScoresOf(ratings, Categories(ratings));
      (exists i :: 0 <= i < |scores| && scores[i].category == c) <==> c in Categories(ratings)
  {
    var scores, cs := ScoresOf(ratings, Categories(ratings)), Categories(ratings);
    assert forall i :: 0 <= i < |cs| ==> scores[i].category == cs[i];
  }

  /** The comments of the report are those of its assignments, in order. */
  lemma {:induction false} CommentsConcat(a: seq<Completed>, b: seq<Completed>)
    ensures AllComments(a + b) == AllComments(a) + AllComments(b)
  {
    if b == [] {
      assert a + b == a;
    } else {
      var n := |b| - 1;
      assert (a + b)[..|a + b| - 1] == a + b[..n];
      CommentsConcat(a, b[..n]);
      ConcatAssociates(AllComments(a + b), AllComments(a), AllComments(b[..n]),
                       CommentsOf(b[n].relation, b[n].responses), AllComments(b));
    }
  }

  lemma CommentsNext(a: seq<Completed>, c: Completed)
    ensures AllComments(a + [c]) == AllComments(a) + CommentsOf(c.relation, c.responses)
  {
    assert (a + [c])[..|a|] == a;
  }

  lemma {:induction false} QuotesConcat(relation: Relation, a: seq<Response>, b: seq<Response>)
    ensures CommentsOf(relation, a + b) == CommentsOf(relation, a) + CommentsOf(relation, b)
  {
    if b == [] {
      assert a + b == a;
    } else {
      var n := |b| - 1;
      assert (a + b)[..|a + b| - 1] == a + b[..n];
      QuotesConcat(relation, a, b[..n]);
      ConcatAssociates(CommentsOf(relation, a + b), CommentsOf(relation, a), CommentsOf(relation, b[..n]),
                       Quoted(relation, b[n]), CommentsOf(relation, b));
    }
  }

  /** What a response contributes to the comments. */
  function Written(relation: Relation, r: Response): seq<Comment> {
    match (r.kind, r.text, relation)
    case (RatingQuestion, _, _) => []
    case (TextQuestion, None, _) => []
    case (TextQuestion, Some(text), Self) =>
      if text == "" then [] else [Comment(r.category, r.question, "SELF", text)]
    case (TextQuestion, Some(text), Manager) =>
      if text == "" then [] else [Comment(r.category, r.question, "MANAGER", text)]
    case (TextQuestion, Some(text), Peer) =>
      if text == "" then [] else [Comment(r.category, r.question, "Anonymous PEER", text)]
    case (TextQuestion, Some(text), Report) =>
      if text == "" then [] else [Comment(r.category, r.question, "Anonymous REPORT", text)]
  }

  lemma QuotesNext(relation: Relation, a: seq<Response>, r: Response)
    ensures CommentsOf(relation, a + [r]) == CommentsOf(relation, a) + Written(relation, r)
  {
    assert (a + [r])[..|a|] == a;
    QuotedIsWritten(relation, r);
  }

  lemma QuotedIsWritten(relation: Relation, r: Response)
    ensures Quoted(relation, r) == Written(relation, r)
  {
  }

  /**
   * A comment comes from a text response that says something, in the order of assignments and of responses in them;
   * who wrote it is named by the relation alone, and peers and reports are called anonymous.
   */
  lemma CommentsInOrder(
    before: seq<Completed>, c: Completed, after: seq<Completed>, rs: seq<Response>, r: Response, rs': seq<Response>)
    requires c.responses == rs + [r] + rs'
    ensures AllComments(before + [c] + after)
         == AllComments(before) + CommentsOf(c.relation, c.responses) + AllComments(after)
    ensures CommentsOf(c.relation, c.responses)
         == CommentsOf(c.relation, rs) + Written(c.relation, r) + CommentsOf(c.relation, rs')
    ensures AllComments([]) == [] && CommentsOf(c.relation, []) == []
  {
    CommentsConcat(before + [c], after);
    CommentsNext(before, c);
    QuotesConcat(c.relation, rs + [r], rs');
    QuotesNext(c.relation, rs, r);
  }

  // ---------------------------------------------------------------- the order of the categories

  lemma {:induction false} CategoryRated(ratings: seq<Rating>, c: string)
    ensures c in Categories(ratings) <==> exists m :: 0 <= m < |ratings| && ratings[m].category == c
  {
    if ratings != [] {
      var n := |ratings| - 1;
      CategoryRated(ratings[..n], c);
      assert forall m :: 0 <= m < n ==> ratings[..n][m] == ratings[m];
    }
  }

  /** Categories come in the order of their first rating: a rating of a later one has one of each earlier before it. */
  lemma {:induction false} CategoriesInOrder(ratings: seq<Rating>, i: nat, j: nat, k: nat)
    requires i < j < |Categories(ratings)| && k < |ratings| && ratings[k].category == Categories(ratings)[j]
    ensures exists m :: 0 <= m < k && ratings[m].category == Categories(ratings)[i]
  {
    var n := |ratings| - 1;
    var before := Categories(ratings[..n]);
    CategoryRated(ratings[..n], Categories(ratings)[i]);
    CategoryRated(ratings[..n], Categories(ratings)[j]);
    assert Categories(ratings)[i] == before[i];
    assert forall m :: 0 <= m < n ==> ratings[..n][m] == ratings[m];
    if k < n {
      assert ratings[..n][k].category == Categories(ratings)[j];
      CategoriesDistinct(ratings);
      CategoriesInOrder(ratings[..n], i, j, k);
    }
  }

  /** What a response contributes to the ratings. */
  function Rated(relation: Relation, r: Response): seq<Rating> {
    match (r.kind, r.value)
    case (TextQuestion, _) => []
    case (RatingQuestion, None) => []
    case (RatingQuestion, Some(v)) => if v == 0 then [] else [Rating(r.category, relation, v)]
  }

  lemma RatedNext(relation: Relation, a: seq<Response>, r: Response)
    ensures RatingsOf(relation, a + [r]) == RatingsOf(relation, a) + Rated(relation, r)
  {
    assert (a + [r])[..|a|] == a;
    assert Counted(relation, r) == Rated(relation, r);
  }

  /** The ratings of the report in their order: one more response, one more assignment. */
  lemma RatingsInOrder(before: seq<Completed>, c: Completed, rs: seq<Response>, r: Response)
    ensures AllRatings(before + [c]) == AllRatings(before) + RatingsOf(c.relation, c.responses)
    ensures RatingsOf(c.relation, rs + [r]) == RatingsOf(c.relation, rs) + Rated(c.relation, r)
    ensures AllRatings([]) == [] && RatingsOf(c.relation, []) == []
  {
    assert (before + [c])[..|before|] == before;
    RatedNext(c.relation, rs, r);
  }
}
