/** Grading an attempt (`submit_quiz`, app.py) and the per-question breakdown shared by
    the result and review pages (`view_score`, `review_quiz`). */
module Scoring {
  import opened Base
  import opened PyText
  import opened Records

  // ---------------------------------------------------------------- rounding

  /** Python's `round(n / d)` for a positive `d`, on the exact quotient: the nearest
      whole number, a tie going to the even neighbour. */
  function RoundHalfEven(n: int, d: int): (r: int)
    requires d > 0
    ensures 2 * (n - r * d) <= d && 2 * (r * d - n) <= d
    ensures 2 * (n - r * d) == d || 2 * (r * d - n) == d ==> r % 2 == 0
  {
    var q := n / d;
    var rest := n % d;
    assert n == q * d + rest && 0 <= rest < d;
    assert (q + 1) * d == q * d + d;
    if 2 * rest < d then q
    else if 2 * rest > d then q + 1
    else if q % 2 == 0 then q
    else q + 1
  }

  /** Multiplying by a non-negative number keeps the order. */
  lemma MulMonotone(a: int, b: int, d: int)
    requires a <= b && d >= 0
    ensures a * d <= b * d
  {
    assert b * d - a * d == (b - a) * d;
  }
  /** Two whole numbers within half of `d` of the same `n`, scaled by `d`, are neighbours. */
  lemma NearNeighbours(n: int, d: int, x: int, y: int)
    requires d > 0
    requires 2 * (n - x * d) <= d && 2 * (x * d - n) <= d
    requires 2 * (n - y * d) <= d && 2 * (y * d - n) <= d
    ensures -1 <= x - y <= 1
    ensures x == y + 1 ==> 2 * (x * d - n) == d && 2 * (n - y * d) == d
  {
    var k := x - y;
    assert x * d - y * d == k * d;
    if k >= 2 {
      MulMonotone(2, k, d);
    } else if k <= -2 {
      MulMonotone(k, -2, d);
    }
    if k == 1 {
      assert x * d == y * d + d;
    }
  }
  /** Nearest with ties to even determines the result: no other whole number meets both. */
  lemma RoundHalfEvenUnique(n: int, d: int, other: int)
    requires d > 0
    requires 2 * (n - other * d) <= d && 2 * (other * d - n) <= d
    requires 2 * (n - other * d) == d || 2 * (other * d - n) == d ==> other % 2 == 0
    ensures other == RoundHalfEven(n, d)
  {
    var r := RoundHalfEven(n, d);
    NearNeighbours(n, d, r, other);
    NearNeighbours(n, d, other, r);
  }
  /** `round(part / whole * 100)`, and 0 for an empty whole. */
  function Percent(part: nat, whole: nat): int {
    if whole > 0 then RoundHalfEven(100 * part, whole) else 0
  }

  /** A share of a whole is a percentage from 0 to 100; nothing of it is 0 and all of it 100. */
  lemma PercentBounds(part: nat, whole: nat)
    requires part <= whole
    ensures 0 <= Percent(part, whole) <= 100
    ensures part == 0 ==> Percent(part, whole) == 0
    ensures whole > 0 && part == whole ==> Percent(part, whole) == 100
  {
    if whole > 0 {
      var r := Percent(part, whole);
      if r < 0 {
        MulMonotone(r, -1, whole);
      } else if r > 100 {
        MulMonotone(101, r, whole);
      }
      if part == 0 {
        RoundHalfEvenUnique(0, whole, 0);
      }
      if part == whole {
        RoundHalfEvenUnique(100 * whole, whole, 100);
      }
    }
  }

  /** Halves go to the even neighbour: 1 of 8 is 12 percent, 3 of 8 is 38, and 2 of 3 is 67. */
  lemma PercentExamples()
    ensures Percent(1, 8) == 12
    ensures Percent(3, 8) == 38
    ensures Percent(2, 3) == 67
  {
    RoundHalfEvenUnique(100, 8, 12);
    RoundHalfEvenUnique(300, 8, 38);
    RoundHalfEvenUnique(200, 3, 67);
  }

  // ---------------------------------------------------------------- answers

  /** A key of the answers dictionary: an integer question id while the request runs, the
      same id as text once the dictionary has passed through the session's JSON. */
  datatype Key = IntKey(n: int) | StrKey(s: string)

  /** The answers of one attempt: chosen option by question key. */
  type Answers = map<Key, int>

  /** The form field of a question's radio buttons. */
  function FormKey(id: nat): string {
    "question_" + Str(id)
  }

  /** Whether the submitted form holds a non-empty answer for question `id` (`if user_answer:`). */
  predicate Answered(form: map<string, string>, id: nat) {
    FormKey(id) in form && form[FormKey(id)] != []
  }

  /** The answer `int()` reads from the form for question `id`, if it reads one. */
  function FormAnswer(form: map<string, string>, id: nat): Option<int>
    requires Answered(form, id)
  {
    ParseInt(form[FormKey(id)])
  }

  /** `int(user_answer)` refused the submitted text. */
  datatype SubmitError = UnparsableAnswer(questionId: nat, text: string)

  /** The ids of `qs` that the form answers. */
  function AnsweredKeys(qs: seq<StoredQuestion>, form: map<string, string>): set<Key> {
    set q | q in qs && Answered(form, q.id) :: IntKey(q.id)
  }

  /** Answers as `submit_quiz` builds them: keyed by integer question ids. */
  predicate IntKeyed(a: Answers) {
    forall k :: k in a ==> k.IntKey?
  }

  /** The `user_answers` dictionary `submit_quiz` builds (app.py:755-766): every answered
      question's option by its id, or the first answer `int()` refuses. */
  function CollectAnswers(qs: seq<StoredQuestion>, form: map<string, string>): Result<Answers, SubmitError> {
    if qs == [] then Ok(map[])
    else
      var q := qs[|qs| - 1];
      match CollectAnswers(qs[..|qs| - 1], form)
      case Err(e) => Err(e)
      case Ok(answers) =>
        if !Answered(form, q.id) then Ok(answers)
        else
          match FormAnswer(form, q.id)
          case None => Err(UnparsableAnswer(q.id, form[FormKey(q.id)]))
          case Some(v) => Ok(answers[IntKey(q.id) := v])
  }

  /** The answers are keyed by exactly the ids of the questions the form answers. */
  lemma {:induction false} CollectAnswersKeys(qs: seq<StoredQuestion>, form: map<string, string>)
    requires CollectAnswers(qs, form).Ok?
    ensures CollectAnswers(qs, form).value.Keys == AnsweredKeys(qs, form)
  {
    if qs != [] {
      var init := qs[..|qs| - 1];
      var q := qs[|qs| - 1];
      assert qs == init + [q];
      CollectAnswersKeys(init, form);
      forall k | k in AnsweredKeys(qs, form) ensures k in CollectAnswers(qs, form).value {
        var p :| p in qs && Answered(form, p.id) && k == IntKey(p.id);
        if p != q {
          assert p in init;
        }
      }
      forall k | k in CollectAnswers(qs, form).value ensures k in AnsweredKeys(qs, form) {
        if k != IntKey(q.id) || !Answered(form, q.id) {
          assert k in AnsweredKeys(init, form);
          var p :| p in init && Answered(form, p.id) && k == IntKey(p.id);
          assert p in qs;
        }
      }
    }
  }

  /** Each answer is the option `int()` reads from its question's field. */
  lemma {:induction false} CollectAnswersValues(qs: seq<StoredQuestion>, form: map<string, string>)
    requires CollectAnswers(qs, form).Ok?
    ensures IntKeyed(CollectAnswers(qs, form).value)
    ensures var answers := CollectAnswers(qs, form).value;
      forall k :: k in answers ==>
        k.IntKey? && k.n >= 0 && Answered(form, k.n) && FormAnswer(form, k.n) == Some(answers[k])
  {
    if qs != [] {
      CollectAnswersValues(qs[..|qs| - 1], form);
    }
  }

  /** The answers are collected exactly when `int()` reads every answered field. */
  lemma {:induction false} CollectAnswersOkIff(qs: seq<StoredQuestion>, form: map<string, string>)
    ensures CollectAnswers(qs, form).Ok? <==>
      forall q :: q in qs && Answered(form, q.id) ==> FormAnswer(form, q.id).Some?
  {
    if qs != [] {
      var init := qs[..|qs| - 1];
      var q := qs[|qs| - 1];
      assert qs == init + [q];
      CollectAnswersOkIff(init, form);
    }
  }

  /** A refused submission names a question whose answer `int()` cannot read. */
  lemma {:induction false} CollectAnswersErr(qs: seq<StoredQuestion>, form: map<string, string>)
    ensures var r := CollectAnswers(qs, form);
      r.Err? ==> exists q :: q in qs && Answered(form, q.id) && FormAnswer(form, q.id).None?
                              && r.error == UnparsableAnswer(q.id, form[FormKey(q.id)])
  {
    if qs != [] {
      var init := qs[..|qs| - 1];
      var q := qs[|qs| - 1];
      assert qs == init + [q];
      if CollectAnswers(init, form).Err? {
        CollectAnswersErr(init, form);
        var p :| p in init && Answered(form, p.id) && FormAnswer(form, p.id).None?
                 && CollectAnswers(init, form).error == UnparsableAnswer(p.id, form[FormKey(p.id)]);
        assert p in qs;
      } else if CollectAnswers(qs, form).Err? {
        assert q in qs && Answered(form, q.id) && FormAnswer(form, q.id).None?;
        assert CollectAnswers(qs, form).error == UnparsableAnswer(q.id, form[FormKey(q.id)]);
      }
    }
  }

  // ---------------------------------------------------------------- breakdown

  /** How the questions of a quiz fared in one attempt. */
  datatype Counts = Counts(correct: nat, wrong: nat, notAttempted: nat)

  /** Whether `answers` holds an answer under question `q`'s id. */
  predicate Attempted(q: StoredQuestion, answers: Answers) {
    IntKey(q.id) in answers
  }

  /** Whether `answers` holds the right option for `q`. */
  predicate AnsweredCorrectly(q: StoredQuestion, answers: Answers) {
    Attempted(q, answers) && answers[IntKey(q.id)] == q.question.correctOption
  }

  /** The tally of `view_score` and `review_quiz` (app.py:237-246, 290-299): each question
      is correct, wrong or not attempted, looked up by its integer id. */
  function Breakdown(qs: seq<StoredQuestion>, answers: Answers): (c: Counts)
    ensures c.correct + c.wrong + c.notAttempted == |qs|
  {
    if qs == [] then Counts(0, 0, 0)
    else
      var c := Breakdown(qs[..|qs| - 1], answers);
      var q := qs[|qs| - 1];
      if !Attempted(q, answers) then Counts(c.correct, c.wrong, c.notAttempted + 1)
      else if AnsweredCorrectly(q, answers) then Counts(c.correct + 1, c.wrong, c.notAttempted)
      else Counts(c.correct, c.wrong + 1, c.notAttempted)
  }

  /** The tally only looks at the entries under the questions' own integer ids. */
  lemma {:induction false} BreakdownAgree(qs: seq<StoredQuestion>, a: Answers, b: Answers)
    requires forall q :: q in qs ==> (Attempted(q, a) <==> Attempted(q, b))
    requires forall q :: q in qs && Attempted(q, a) && Attempted(q, b) ==> a[IntKey(q.id)] == b[IntKey(q.id)]
    ensures Breakdown(qs, a) == Breakdown(qs, b)
  {
    if qs != [] {
      var init := qs[..|qs| - 1];
      assert forall q :: q in init ==> q in qs;
      BreakdownAgree(init, a, b);
      assert qs[|qs| - 1] in qs;
    }
  }

  /** With no answers, every question is not attempted. */
  lemma {:induction false} BreakdownNoAnswers(qs: seq<StoredQuestion>)
    ensures Breakdown(qs, map[]) == Counts(0, 0, |qs|)
  {
    if qs != [] {
      BreakdownNoAnswers(qs[..|qs| - 1]);
    }
  }

  /** The answers' keys that belong to questions of `qs`, each key once. */
  function AttemptedKeys(qs: seq<StoredQuestion>, answers: Answers): set<Key> {
    set q | q in qs && Attempted(q, answers) :: IntKey(q.id)
  }

  /** Over questions with distinct ids, correct and wrong together are exactly the
      answered questions: one per key of the answers that belongs to a question. */
  lemma {:induction false} BreakdownAttempted(qs: seq<StoredQuestion>, answers: Answers)
    requires DistinctIds(qs)
    ensures Breakdown(qs, answers).correct + Breakdown(qs, answers).wrong == |AttemptedKeys(qs, answers)|
  {
    if qs != [] {
      var init := qs[..|qs| - 1];
      DistinctPrefix(qs);
      BreakdownAttempted(init, answers);
      AttemptedKeysStep(qs, answers);
    }
  }

  /** One more question adds its own key to the attempted keys when it is attempted, and
      that key is new when the ids are distinct. */
  lemma AttemptedKeysStep(qs: seq<StoredQuestion>, answers: Answers)
    requires qs != [] && DistinctIds(qs)
    ensures var q := qs[|qs| - 1];
      var before := AttemptedKeys(qs[..|qs| - 1], answers);
      && IntKey(q.id) !in before
      && AttemptedKeys(qs, answers) == if Attempted(q, answers) then before + {IntKey(q.id)} else before
  {
    var init := qs[..|qs| - 1];
    var q := qs[|qs| - 1];
    var before := AttemptedKeys(init, answers);
    var after := if Attempted(q, answers) then before + {IntKey(q.id)} else before;
    DistinctPrefix(qs);
    forall k | k in AttemptedKeys(qs, answers) ensures k in after {
      var p :| p in qs && Attempted(p, answers) && k == IntKey(p.id);
      if p != q {
        var i :| 0 <= i < |qs| && qs[i] == p;
        assert i < |qs| - 1 && init[i] == p;
      }
    }
    forall k | k in after ensures k in AttemptedKeys(qs, answers) {
      if k in before {
        var p :| p in init && Attempted(p, answers) && k == IntKey(p.id);
        var i :| 0 <= i < |init| && init[i] == p;
        assert qs[i] == p;
      } else {
        assert q in qs;
      }
    }
  }

  // ---------------------------------------------------------------- grading

  /** What grading an attempt yields: the answers by question id and how many are right. */
  datatype Tally = Tally(answers: Answers, correct: nat)

  /** How many questions of `qs` the form answers with their correct option, question by
      question as the grading loop meets them. */
  function CorrectCount(qs: seq<StoredQuestion>, form: map<string, string>): nat {
    if qs == [] then 0
    else
      var q := qs[|qs| - 1];
      CorrectCount(qs[..|qs| - 1], form)
        + (if Answered(form, q.id) && FormAnswer(form, q.id) == Some(q.question.correctOption) then 1 else 0)
  }

  /** On questions with distinct ids, counting right answers in the form agrees with the
      breakdown of the collected answers. */
  lemma {:induction false} CorrectCountIsBreakdown(qs: seq<StoredQuestion>, form: map<string, string>)
    requires DistinctIds(qs)
    requires CollectAnswers(qs, form).Ok?
    ensures CorrectCount(qs, form) == Breakdown(qs, CollectAnswers(qs, form).value).correct
  {
    if qs != [] {
      var init := qs[..|qs| - 1];
      var q := qs[|qs| - 1];
      DistinctPrefix(qs);
      var before := CollectAnswers(init, form).value;
      var after := CollectAnswers(qs, form).value;
      CorrectCountIsBreakdown(init, form);
      CollectAnswersKeys(init, form);
      assert IntKey(q.id) !in before;
      BreakdownAgree(init, before, after);
    }
  }

  /** The grading loop of `submit_quiz` (app.py:751-761): the answers by question id and the
      number of right ones, or the first answer `int()` refuses. */
  method GradeAnswers(qs: seq<StoredQuestion>, form: map<string, string>) returns (r: Result<Tally, SubmitError>)
    ensures CollectAnswers(qs, form).Err? ==> r == Err(CollectAnswers(qs, form).error)
    ensures CollectAnswers(qs, form).Ok? ==>
      r == Ok(Tally(CollectAnswers(qs, form).value, CorrectCount(qs, form)))
  {
    var answers: Answers := map[];
    var correct := 0;
    for i := 0 to |qs|
      invariant CollectAnswers(qs[..i], form) == Ok(answers)
      invariant correct == CorrectCount(qs[..i], form)
    {
      var q := qs[i];
      GradeStep(qs, form, i);
      var key := FormKey(q.id);
      if key in form && form[key] != [] {
        var parsed := ParseInt(form[key]);
        if parsed.None? {
          CollectPrefixErr(qs, form, i + 1);
          return Err(UnparsableAnswer(q.id, form[key]));
        }
        answers := answers[IntKey(q.id) := parsed.value];
        if parsed.value == q.question.correctOption {
          correct := correct + 1;
        }
      }
    }
    assert qs[..|qs|] == qs;
    return Ok(Tally(answers, correct));
  }

  /** One more question graded: its answer is added when the form holds one, and counted
      when it is the correct option. */
  lemma GradeStep(qs: seq<StoredQuestion>, form: map<string, string>, i: nat)
    requires i < |qs|
    ensures var q := qs[i];
      CorrectCount(qs[..i + 1], form) == CorrectCount(qs[..i], form)
        + (if Answered(form, q.id) && FormAnswer(form, q.id) == Some(q.question.correctOption) then 1 else 0)
    ensures var q := qs[i];
      CollectAnswers(qs[..i], form).Ok? ==>
      CollectAnswers(qs[..i + 1], form) ==
        if !Answered(form, q.id) then CollectAnswers(qs[..i], form)
        else if FormAnswer(form, q.id).None? then Err(UnparsableAnswer(q.id, form[FormKey(q.id)]))
        else Ok(CollectAnswers(qs[..i], form).value[IntKey(q.id) := FormAnswer(form, q.id).value])
  {
    assert qs[..i + 1][..i] == qs[..i];
    assert qs[..i + 1][i] == qs[i];
  }

  /** Once the answers of a prefix of the questions cannot be read, none of them can. */
  lemma {:induction false} CollectPrefixErr(qs: seq<StoredQuestion>, form: map<string, string>, k: nat)
    requires k <= |qs|
    requires CollectAnswers(qs[..k], form).Err?
    ensures CollectAnswers(qs, form) == CollectAnswers(qs[..k], form)
    decreases |qs| - k
  {
    if k < |qs| {
      assert qs[..k + 1][..k] == qs[..k];
      CollectPrefixErr(qs, form, k + 1);
    } else {
      assert qs[..k] == qs;
    }
  }

  /** The figures `submit_quiz` shows after grading (app.py:767-785). */
  datatype Summary = Summary(totalScored: int, correct: nat, wrong: nat, notAttempted: int, accuracy: int)

  /** `total_scored`, `wrong_answers`, `not_attempted` and `accuracy` from the answers. */
  function Summarize(qs: seq<StoredQuestion>, answers: Answers, correct: nat): Summary {
    Summary(
      Percent(correct, |qs|),
      correct,
      Breakdown(qs, answers).wrong,
      |qs| - |answers|,
      Percent(correct, |answers|))
  }

  /** For a quiz whose questions have distinct ids, the figures of the submit page agree
      with the breakdown: not attempted is what the breakdown counts, the score and the
      accuracy are percentages, and correct, wrong and not attempted add up to the quiz. */
  lemma SummaryAgrees(qs: seq<StoredQuestion>, form: map<string, string>)
    requires DistinctIds(qs)
    requires CollectAnswers(qs, form).Ok?
    ensures var answers := CollectAnswers(qs, form).value;
      var s := Summarize(qs, answers, Breakdown(qs, answers).correct);
      && s.notAttempted == Breakdown(qs, answers).notAttempted
      && s.correct + s.wrong + s.notAttempted == |qs|
      && 0 <= s.totalScored <= 100
      && 0 <= s.accuracy <= 100
  {
    var answers := CollectAnswers(qs, form).value;
    CollectAnswersKeys(qs, form);
    BreakdownAttempted(qs, answers);
    assert AttemptedKeys(qs, answers) == answers.Keys by {
      assert answers.Keys == AnsweredKeys(qs, form);
      forall k | k in answers.Keys ensures k in AttemptedKeys(qs, answers) {
        var q :| q in qs && Answered(form, q.id) && k == IntKey(q.id);
        assert Attempted(q, answers);
      }
    }
    var c := Breakdown(qs, answers);
    PercentBounds(c.correct, |qs|);
    PercentBounds(c.correct, |answers|);
  }
}
