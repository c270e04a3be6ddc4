/** The stored entities the core reads and writes, and the database session that holds them.
    Only the parts of the store the core touches are modelled: questions and attempts. */
module Records {
  import opened Base

  /** A question as it is built, before the store gives it an id. */
  datatype Question = Question(
    quizId: nat,
    statement: string,
    image: Option<string>,
    option1: string,
    option2: string,
    option3: string,
    option4: string,
    correctOption: int)

  /** A question read back from the store, with the id it was given on commit. */
  datatype StoredQuestion = StoredQuestion(id: nat, question: Question)

  /** One attempt at a quiz (`Score`); `timestamp` is the attempt time the store records. */
  datatype Score = Score(id: nat, quizId: nat, userId: nat, totalScored: int, timestamp: int)

  /** Who is signed in: the administrator or a learner with their user id. */
  datatype Principal = Admin | Learner(userId: nat)

  /** `pending` numbered from `first` on, the ids a commit hands out. */
  function Numbered(pending: seq<Question>, first: nat): (r: seq<StoredQuestion>)
    ensures |r| == |pending|
    ensures forall i :: 0 <= i < |r| ==> r[i] == StoredQuestion(first + i, pending[i])
  {
    seq(|pending|, i requires 0 <= i < |pending| => StoredQuestion(first + i, pending[i]))
  }

  /** The stored questions of one quiz, in store order (`Question.query.filter_by(quiz_id=...)`). */
  function QuestionsOf(questions: seq<StoredQuestion>, quizId: nat): (r: seq<StoredQuestion>)
    ensures forall q :: q in r <==> q in questions && q.question.quizId == quizId
    ensures |r| <= |questions|
    ensures IsSubsequence(r, questions)
  {
    if questions == [] then []
    else
      var init := questions[..|questions| - 1];
      var rest := QuestionsOf(init, quizId);
      var last := questions[|questions| - 1];
      assert questions == init + [last];
      if last.question.quizId == quizId then
        assert (rest + [last])[..|rest|] == rest;
        rest + [last]
      else
        assert rest != [] ==> rest[|rest| - 1] in rest;
        rest
  }

  /** Ids strictly increase along `qs`. */
  predicate IncreasingIds(qs: seq<StoredQuestion>) {
    forall i, j :: 0 <= i < j < |qs| ==> qs[i].id < qs[j].id
  }

  /** No two questions of `qs` share an id. */
  predicate DistinctIds(qs: seq<StoredQuestion>) {
    forall i, j :: 0 <= i < |qs| && 0 <= j < |qs| && i != j ==> qs[i].id != qs[j].id
  }

  /** Dropping the last question keeps the ids distinct, and none of them is the last one's. */
  lemma DistinctPrefix(qs: seq<StoredQuestion>)
    requires qs != [] && DistinctIds(qs)
    ensures DistinctIds(qs[..|qs| - 1])
    ensures forall p :: p in qs[..|qs| - 1] ==> p.id != qs[|qs| - 1].id
  {
    var init := qs[..|qs| - 1];
    forall i, j | 0 <= i < |init| && 0 <= j < |init| && i != j ensures init[i].id != init[j].id {
      assert init[i] == qs[i] && init[j] == qs[j];
    }
    forall p | p in init ensures p.id != qs[|qs| - 1].id {
      var i :| 0 <= i < |init| && init[i] == p;
      assert qs[i] == p;
    }
  }

  /** Selecting one quiz's questions keeps the ids increasing, and so distinct. */
  lemma {:induction false} QuestionsOfIncreasing(questions: seq<StoredQuestion>, quizId: nat)
    requires IncreasingIds(questions)
    ensures IncreasingIds(QuestionsOf(questions, quizId))
    ensures DistinctIds(QuestionsOf(questions, quizId))
  {
    var r := QuestionsOf(questions, quizId);
    if questions != [] {
      var init := questions[..|questions| - 1];
      var last := questions[|questions| - 1];
      assert IncreasingIds(init) by {
        forall i, j | 0 <= i < j < |init| ensures init[i].id < init[j].id {
          assert init[i] == questions[i] && init[j] == questions[j];
        }
      }
      QuestionsOfIncreasing(init, quizId);
      var rest := QuestionsOf(init, quizId);
      if last.question.quizId == quizId {
        assert r == rest + [last];
        forall i, j | 0 <= i < j < |r| ensures r[i].id < r[j].id {
          if j < |rest| {
            assert r[i] == rest[i] && r[j] == rest[j];
          } else {
            assert r[i] == rest[i] && rest[i] in init;
            var k :| 0 <= k < |init| && init[k] == rest[i];
            assert questions[k] == rest[i];
          }
        }
      } else {
        assert r == rest;
      }
    }
    IncreasingDistinct(r);
  }

  /** Increasing ids are distinct. */
  lemma IncreasingDistinct(qs: seq<StoredQuestion>)
    requires IncreasingIds(qs)
    ensures DistinctIds(qs)
  {
    forall i, j | 0 <= i < |qs| && 0 <= j < |qs| && i != j ensures qs[i].id != qs[j].id {
      if i < j { assert qs[i].id < qs[j].id; } else { assert qs[j].id < qs[i].id; }
    }
  }

  /** The attempts of one learner, in store order (`Score.query.filter_by(user_id=...)`). */
  function AttemptsOf(scores: seq<Score>, userId: nat): (r: seq<Score>)
    ensures forall s :: s in r <==> s in scores && s.userId == userId
    ensures |r| <= |scores|
    ensures IsSubsequence(r, scores)
  {
    if scores == [] then []
    else
      var init := scores[..|scores| - 1];
      var rest := AttemptsOf(init, userId);
      var last := scores[|scores| - 1];
      assert scores == init + [last];
      if last.userId == userId then
        assert (rest + [last])[..|rest|] == rest;
        rest + [last]
      else
        assert rest != [] ==> rest[|rest| - 1] in rest;
        rest
  }

  /** The database session: committed questions and attempts, and the questions added to
      the session since the last commit or rollback. */
  class Database {
    var questions: seq<StoredQuestion>
    var pending: seq<Question>
    var nextQuestionId: nat
    var scores: seq<Score>
    var nextScoreId: nat

    /** Ids are handed out in increasing order and never reused. */
    ghost predicate Valid()
      reads this`questions, this`nextQuestionId, this`scores, this`nextScoreId
    {
      IncreasingIds(questions)
      && (forall i :: 0 <= i < |questions| ==> questions[i].id < nextQuestionId)
      && (forall i, j :: 0 <= i < j < |scores| ==> scores[i].id < scores[j].id)
      && (forall i :: 0 <= i < |scores| ==> scores[i].id < nextScoreId)
    }

    constructor ()
      ensures Valid()
      ensures questions == [] && pending == [] && scores == []
    {
      questions := [];
      pending := [];
      nextQuestionId := 1;
      scores := [];
      nextScoreId := 1;
    }

    /** `db.session.add(question)` */
    method Add(q: Question)
      modifies this`pending
      ensures pending == old(pending) + [q]
    {
      pending := pending + [q];
    }

    /** `db.session.commit()`: the pending questions are stored, with fresh ids, in order. */
    method Commit()
      requires Valid()
      modifies this`questions, this`pending, this`nextQuestionId
      ensures Valid()
      ensures questions == old(questions) + Numbered(old(pending), old(nextQuestionId))
      ensures pending == []
      ensures nextQuestionId == old(nextQuestionId) + |old(pending)|
    {
      var added := Numbered(pending, nextQuestionId);
      questions := questions + added;
      nextQuestionId := nextQuestionId + |pending|;
      pending := [];
    }

    /** `db.session.rollback()`: whatever was added since the last commit is dropped. */
    method Rollback()
      modifies this`pending
      ensures pending == []
    {
      pending := [];
    }

    /** `db.session.add(score); db.session.commit()`: the attempt is stored under a fresh id. */
    method InsertScore(quizId: nat, userId: nat, totalScored: int, now: int) returns (s: Score)
      requires Valid()
      modifies this`scores, this`nextScoreId
      ensures Valid()
      ensures s == Score(old(nextScoreId), quizId, userId, totalScored, now)
      ensures scores == old(scores) + [s]
      ensures nextScoreId == old(nextScoreId) + 1
      ensures forall t :: t in old(scores) ==> t.id != s.id
    {
      s := Score(nextScoreId, quizId, userId, totalScored, now);
      scores := scores + [s];
      nextScoreId := nextScoreId + 1;
    }

    /** `Score.query.get(score_id)` */
    function FindScore(scoreId: nat): (r: Option<Score>)
      reads this
      ensures r.Some? ==> r.value in scores && r.value.id == scoreId
      ensures r.None? ==> forall s :: s in scores ==> s.id != scoreId
    {
      FindScoreIn(scores, scoreId)
    }
  }

  /** The last attempt of `scores` with id `scoreId`, if any. */
  function FindScoreIn(scores: seq<Score>, scoreId: nat): (r: Option<Score>)
    ensures r.Some? ==> r.value in scores && r.value.id == scoreId
    ensures r.None? ==> forall s :: s in scores ==> s.id != scoreId
  {
    if scores == [] then None
    else if scores[|scores| - 1].id == scoreId then Some(scores[|scores| - 1])
    else
      var r := FindScoreIn(scores[..|scores| - 1], scoreId);
      assert scores == scores[..|scores| - 1] + [scores[|scores| - 1]];
      r
  }
}
