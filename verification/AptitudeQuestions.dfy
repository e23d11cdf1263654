/** The validation loop over generated multiple-choice questions. */
module AptitudeQuestions {
  import opened PyText
  import opened Sequences
  import opened AnswerResolution

  /** A generated question; the loop rewrites its answer in place. */
  class Question {
    const complete: bool                    // all five required keys are present
    const options: Option<seq<string>>      // None when the value cannot be iterated over
    var correctAnswer: string

    constructor (complete: bool, options: Option<seq<string>>, correctAnswer: string)
      ensures this.complete == complete && this.options == options && this.correctAnswer == correctAnswer
    {
      this.complete := complete;
      this.options := options;
      this.correctAnswer := correctAnswer;
    }
  }

  /** A question as a value. */
  datatype Row = Row(complete: bool, options: Option<seq<string>>, answer: string)

  function RowOf(q: Question): Row
    reads q
  {
    Row(q.complete, q.options, q.correctAnswer)
  }

  function RowsOf(qs: seq<Question>): seq<Row>
    reads qs
  {
    seq(|qs|, i requires 0 <= i < |qs| reads qs => RowOf(qs[i]))
  }

  type Resolver = (string, seq<string>) -> Option<string>

  /** The four-tier resolution of answers, as the loop calls it. */
  function ResolverOf(ops: CaseOps): Resolver {
    (answer, options) => Resolve(ops, answer, options)
  }

  /** The answer a row ends up with if it is kept. */
  function Verdict(resolve: Resolver, r: Row): Option<string> {
    if r.complete && r.options.Some? then resolve(r.answer, r.options.value) else None
  }

  /** Iterating over options that are no list raises, and the caller then gets no question at all. */
  predicate Raises(r: Row) {
    r.complete && r.options.None?
  }

  function Verdicts(resolve: Resolver, rows: seq<Row>): seq<Option<string>> {
    seq(|rows|, i requires 0 <= i < |rows| => Verdict(resolve, rows[i]))
  }

  predicate Resolved(verdict: Option<string>) {
    verdict.Some?
  }

  /** A kept answer is an option of its own question. */
  lemma VerdictIsOption(ops: CaseOps, r: Row)
    ensures Verdict(ResolverOf(ops), r).Some? ==>
      r.options.Some? && Verdict(ResolverOf(ops), r).value in r.options.value
  {
    if r.complete && r.options.Some? {
      ResolvesToOption(ops, r.answer, r.options.value);
    }
  }

  /** A row is kept exactly when it is whole and its answer resolves; only then is the answer rewritten. */
  lemma KeptAnswersAreOptions(ops: CaseOps, rows: seq<Row>, i: nat)
    requires i < |rows|
    ensures i in Chosen(Verdicts(ResolverOf(ops), rows), Resolved)
       <==> rows[i].complete && rows[i].options.Some? && Resolve(ops, rows[i].answer, rows[i].options.value).Some?
    ensures var after := CanonicalRows(ResolverOf(ops), rows)[i];
      && after.complete == rows[i].complete && after.options == rows[i].options
      && if i in Chosen(Verdicts(ResolverOf(ops), rows), Resolved)
         then Some(after.answer) == Resolve(ops, rows[i].answer, rows[i].options.value)
              && after.answer in after.options.value
         else after.answer == rows[i].answer
  {
    ChosenExactly(Verdicts(ResolverOf(ops), rows), Resolved);
    VerdictIsOption(ops, rows[i]);
  }

  /** A second run of the loop keeps a kept question again exactly when its canonical answer is not blank. */
  lemma KeptAgain(ops: CaseOps, r: Row)
    requires Verdict(ResolverOf(ops), r).Some?
    ensures Verdict(ResolverOf(ops), Canonical(ResolverOf(ops), r)).Some?
       <==> Strip(Verdict(ResolverOf(ops), r).value) != ""
  {
    VerdictIsOption(ops, r);
    OptionResolves(ops, Verdict(ResolverOf(ops), r).value, r.options.value);
  }

  /** Asking for a non-negative count yields at most that many, and a prefix of what was kept. */
  lemma SliceToBounds<T>(s: seq<T>, count: int)
    ensures SliceTo(s, count) <= s
    ensures count >= 0 ==> |SliceTo(s, count)| == if count < |s| then count else |s|
    ensures count < 0 ==> |SliceTo(s, count)| == if |s| + count > 0 then |s| + count else 0
  {
  }

  /** The `resolved` rows of `rows`: kept ones carry the canonical answer, the others are as they were. */
  function Canonical(resolve: Resolver, r: Row): Row {
    match Verdict(resolve, r)
    case Some(a) => r.(answer := a)
    case None => r
  }

  function CanonicalRows(resolve: Resolver, rows: seq<Row>): seq<Row> {
    seq(|rows|, i requires 0 <= i < |rows| => Canonical(resolve, rows[i]))
  }

  /** One turn of the loop on a question whose options can be iterated over. */
  method Settle(resolve: Resolver, q: Question) returns (keep: bool)
    requires !Raises(RowOf(q))
    modifies q
    ensures RowOf(q) == Canonical(resolve, old(RowOf(q)))
    ensures keep == Verdict(resolve, old(RowOf(q))).Some?
  {
    if !q.complete {
      return false;
    }
    var resolved := resolve(q.correctAnswer, q.options.value);
    if resolved.None? {
      return false;
    }
    q.correctAnswer := resolved.value;
    return true;
  }

  method ValidateQuestions(resolve: Resolver, questions: seq<Question>, count: int)
    returns (result: seq<Question>, dropped: nat)
    requires forall i, j :: 0 <= i < j < |questions| ==> questions[i] != questions[j]
    modifies questions
    ensures (exists i :: 0 <= i < |questions| && Raises(old(RowsOf(questions))[i])) ==> result == []
    ensures (forall i :: 0 <= i < |questions| ==> !Raises(old(RowsOf(questions))[i])) ==>
      var rows := old(RowsOf(questions));
      var kept := Chosen(Verdicts(resolve, rows), Resolved);
      && (forall k :: 0 <= k < |kept| ==> kept[k] < |questions|)
      && result == SliceTo(At(questions, kept), count)
      && |kept| + dropped == |questions|
      && RowsOf(questions) == CanonicalRows(resolve, rows)
  {
    ghost var rows := RowsOf(questions);
    ghost var verdicts := Verdicts(resolve, rows);
    ghost var settled := CanonicalRows(resolve, rows);
    var valid: seq<Question> := [];
    dropped := 0;
    ghost var kept: seq<nat> := [];
    for i := 0 to |questions|
      invariant kept == Chosen(verdicts[..i], Resolved) && |kept| + dropped == i
      invariant forall k :: 0 <= k < |kept| ==> kept[k] < i
      invariant valid == At(questions, kept)
      invariant forall k :: 0 <= k < i ==> !Raises(rows[k]) && RowOf(questions[k]) == settled[k]
      invariant forall k :: i <= k < |questions| ==> RowOf(questions[k]) == rows[k]
    {
      var q := questions[i];
      assert RowOf(q) == rows[i];
      if q.complete && q.options.None? {
        assert Raises(rows[i]);
        return [], dropped;
      }
      ChosenExtends(verdicts, Resolved, i);
      var keep := Settle(resolve, q);
      assert keep == Resolved(verdicts[i]) && RowOf(q) == settled[i];
      if keep {
        AtExtends(questions, kept, i);
        kept := kept + [i];
        valid := valid + [q];
      } else {
        dropped := dropped + 1;
      }
    }
    assert verdicts[..|questions|] == verdicts;
    result := SliceTo(valid, count);
  }
}
