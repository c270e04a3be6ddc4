/** Reading an attempt back and the learner-facing routes around it: `submit_quiz`, the
    session snapshot of its answers, the result and review pages (`view_score`,
    `review_quiz`), and the score trends and statistics of `user_detail` and
    `user_dashboard` (app.py). */
module Results {
  import opened Base
  import opened PyText
  import opened Records
  import opened Scoring

  /** Why a route answers with a redirect or an error page instead of its own page. */
  datatype Refusal =
    | AdminRedirect     // the administrator is sent to the admin dashboard
    | AccessDenied      // a learner asked for an admin page
    | NotFound          // `get_or_404` found no such attempt
    | NotOwner          // the attempt belongs to someone else

  // ---------------------------------------------------------------- session snapshot

  /** The session entry that holds an attempt's answers. */
  function SnapshotName(scoreId: nat): string {
    "user_answers_" + Str(scoreId)
  }

  /** Answers as they come back from the session's JSON: each key is the decimal text of
      an integer. */
  predicate TextKeyed(a: Answers) {
    forall k :: k in a ==> k.StrKey? && ParseInt(k.s).Some? && Str(ParseInt(k.s).value) == k.s
  }

  /** Distinct integers have distinct decimal texts. */
  lemma StrIsInjective()
    ensures forall a, b :: Str(a) == Str(b) ==> a == b
  {
    forall a, b | Str(a) == Str(b) ensures a == b {
      StrInjective(a, b);
    }
  }

  /** Every integer reads back from its decimal text. */
  lemma ParseIntStrAll()
    ensures forall n :: ParseInt(Str(n)) == Some(n)
  {
    forall n ensures ParseInt(Str(n)) == Some(n) {
      ParseIntStr(n);
    }
  }

  /** `session[name] = user_answers` as the next request reads it back: JSON writes every
      integer question id as its decimal text. (The answers `submit_quiz` stores have no
      other keys; see `CollectAnswersValues`.) */
  function Persist(a: Answers): (r: Answers)
    ensures TextKeyed(r)
    ensures forall n :: IntKey(n) in a <==> StrKey(Str(n)) in r
    ensures forall n :: IntKey(n) in a ==> r[StrKey(Str(n))] == a[IntKey(n)]
  {
    StrIsInjective();
    var r := map k | k in a && k.IntKey? :: StrKey(Str(k.n)) := a[k];
    forall k | k in r ensures k.StrKey? && ParseInt(k.s).Some? && Str(ParseInt(k.s).value) == k.s {
      var j :| j in a && j.IntKey? && k == StrKey(Str(j.n));
      ParseIntStr(j.n);
    }
    r
  }

  /** `{int(k): v for k, v in session_answers.items()} if session_answers else {}`
      (app.py:285-287): the snapshot with its keys read back as integers. */
  function RestoreKeys(a: Answers): (r: Answers)
    requires TextKeyed(a)
    ensures IntKeyed(r)
  {
    ParseIntStrAll();
    if a == map[] then map[]
    else map k | k in a :: IntKey(ParseInt(k.s).value) := a[k]
  }

  /** The converted snapshot holds question id `n` exactly when the snapshot holds its
      decimal text, with the same answer. */
  lemma RestoreKeysSpec(a: Answers)
    requires TextKeyed(a)
    ensures forall n :: IntKey(n) in RestoreKeys(a) <==> StrKey(Str(n)) in a
    ensures forall n :: IntKey(n) in RestoreKeys(a) ==> RestoreKeys(a)[IntKey(n)] == a[StrKey(Str(n))]
  {
    forall n ensures IntKey(n) in RestoreKeys(a) <==> StrKey(Str(n)) in a {
      RestoredKey(a, n);
    }
    forall n | IntKey(n) in RestoreKeys(a) ensures RestoreKeys(a)[IntKey(n)] == a[StrKey(Str(n))] {
      RestoredKey(a, n);
    }
  }

  /** The entry of one question id in the converted snapshot. */
  lemma RestoredKey(a: Answers, n: int)
    requires TextKeyed(a)
    ensures IntKey(n) in RestoreKeys(a) <==> StrKey(Str(n)) in a
    ensures IntKey(n) in RestoreKeys(a) ==> RestoreKeys(a)[IntKey(n)] == a[StrKey(Str(n))]
  {
    ParseIntStr(n);
    var key := StrKey(Str(n));
    if IntKey(n) in RestoreKeys(a) {
      var k := RestoredOnlyFrom(a, IntKey(n));
      assert k.s == Str(ParseInt(k.s).value);
      assert k == key;
    }
    if key in a {
      RestoredFrom(a, key);
    }
  }

  /** Each text key of the snapshot comes back as the integer it reads as, with its answer. */
  lemma RestoredFrom(a: Answers, k: Key)
    requires TextKeyed(a) && k in a
    ensures IntKey(ParseInt(k.s).value) in RestoreKeys(a)
    ensures RestoreKeys(a)[IntKey(ParseInt(k.s).value)] == a[k]
  {
    assert a != map[];
  }

  /** Each key of the converted snapshot comes from a text key of the snapshot. */
  lemma RestoredOnlyFrom(a: Answers, x: Key) returns (k: Key)
    requires TextKeyed(a) && x in RestoreKeys(a)
    ensures k in a && x == IntKey(ParseInt(k.s).value)
  {
    assert a != map[];
    k :| k in a && x == IntKey(ParseInt(k.s).value);
  }

  /** Every answer kept comes back under its question's id. */
  lemma RestoreKeepsAnswers(a: Answers)
    requires IntKeyed(a)
    ensures forall k :: k in a ==> k in RestoreKeys(Persist(a)) && RestoreKeys(Persist(a))[k] == a[k]
  {
    var p := Persist(a);
    RestoreKeysSpec(p);
    forall k | k in a ensures k in RestoreKeys(p) && RestoreKeys(p)[k] == a[k] {
      assert StrKey(Str(k.n)) in p;
    }
  }

  /** Nothing comes back that was not kept. */
  lemma RestoreAddsNothing(a: Answers)
    requires IntKeyed(a)
    ensures forall k :: k in RestoreKeys(Persist(a)) ==> k in a
  {
    var p := Persist(a);
    RestoreKeysSpec(p);
    forall k | k in RestoreKeys(p) ensures k in a {
      assert StrKey(Str(k.n)) in p;
    }
  }

  /** The answers `submit_quiz` keeps come back from the session unchanged once their keys
      are converted, as `review_quiz` does. */
  lemma RestoreAfterPersist(a: Answers)
    requires IntKeyed(a)
    ensures RestoreKeys(Persist(a)) == a
  {
    RestoreKeepsAnswers(a);
    RestoreAddsNothing(a);
    SameEntries(RestoreKeys(Persist(a)), a);
  }

  /** Two maps with the same entries are equal. */
  lemma SameEntries<K, V>(m: map<K, V>, n: map<K, V>)
    requires forall k :: k in m ==> k in n
    requires forall k :: k in n ==> k in m && m[k] == n[k]
    ensures m == n
  {
  }

  /** Without the conversion nothing of the snapshot is found under a question's integer id:
      every question counts as not attempted. */
  lemma PersistedAnswersUnseen(qs: seq<StoredQuestion>, a: Answers)
    ensures Breakdown(qs, Persist(a)) == Counts(0, 0, |qs|)
  {
    BreakdownAgree(qs, Persist(a), map[]);
    BreakdownNoAnswers(qs);
  }

  /** The session: answer snapshots by entry name, as later requests read them. */
  class Session {
    var snapshots: map<string, Answers>

    /** Every snapshot has passed through JSON. */
    ghost predicate Valid()
      reads this
    {
      forall name :: name in snapshots ==> TextKeyed(snapshots[name])
    }

    constructor ()
      ensures Valid() && snapshots == map[]
    {
      snapshots := map[];
    }

    /** `session[name] = answers` */
    method Save(name: string, answers: Answers)
      requires Valid()
      modifies this
      ensures Valid()
      ensures snapshots == old(snapshots)[name := Persist(answers)]
    {
      snapshots := snapshots[name := Persist(answers)];
    }

    /** `session.get(name, {})` */
    function Load(name: string): (r: Answers)
      reads this
      ensures Valid() ==> TextKeyed(r)
      ensures name !in snapshots ==> r == map[]
      ensures name in snapshots ==> r == snapshots[name]
    {
      if name in snapshots then snapshots[name] else map[]
    }
  }

  // ---------------------------------------------------------------- breakdown loop

  /** The counting loop of `view_score` and `review_quiz` (app.py:237-246, 290-299). */
  method CountBreakdown(qs: seq<StoredQuestion>, answers: Answers) returns (c: Counts)
    ensures c == Breakdown(qs, answers)
  {
    var correct, wrong, notAttempted := 0, 0, 0;
    for i := 0 to |qs|
      invariant Counts(correct, wrong, notAttempted) == Breakdown(qs[..i], answers)
    {
      var q := qs[i];
      assert qs[..i + 1][..i] == qs[..i];
      if IntKey(q.id) in answers {
        if answers[IntKey(q.id)] == q.question.correctOption {
          correct := correct + 1;
        } else {
          wrong := wrong + 1;
        }
      } else {
        notAttempted := notAttempted + 1;
      }
    }
    assert qs[..|qs|] == qs;
    c := Counts(correct, wrong, notAttempted);
  }

  // ---------------------------------------------------------------- trends

  /** The first `k` entries of `s`, or all of it (`s[:k]`, `.limit(k)`). */
  function Take<T>(s: seq<T>, k: nat): (r: seq<T>)
    ensures |r| == if k < |s| then k else |s|
    ensures r == s[..|r|]
  {
    if k < |s| then s[..k] else s
  }

  /** The last `k` entries of `s`, or all of it. */
  function Last<T>(s: seq<T>, k: nat): (r: seq<T>)
    ensures |r| == if k < |s| then k else |s|
    ensures r == s[|s| - |r|..]
  {
    if k < |s| then s[|s| - k..] else s
  }

  /** `s` back to front. */
  function Reversed<T>(s: seq<T>): (r: seq<T>)
    ensures |r| == |s|
    ensures forall i :: 0 <= i < |s| ==> r[i] == s[|s| - 1 - i]
  {
    if s == [] then [] else [s[|s| - 1]] + Reversed(s[..|s| - 1])
  }

  /** The points of a progress chart: attempt times (the labels) and scores (the data). */
  datatype Trend = Trend(labels: seq<int>, data: seq<int>)

  /** The chart of `scores`, in the order given. */
  function TrendOf(scores: seq<Score>): (t: Trend)
    ensures |t.labels| == |scores| && |t.data| == |scores|
    ensures forall i :: 0 <= i < |scores| ==> t.labels[i] == scores[i].timestamp && t.data[i] == scores[i].totalScored
  {
    Trend(seq(|scores|, i requires 0 <= i < |scores| => scores[i].timestamp),
          seq(|scores|, i requires 0 <= i < |scores| => scores[i].totalScored))
  }

  /** The newest first: `order_by(Score.time_stamp_of_attempt.desc())` over attempts kept in
      the order they were made. */
  function NewestFirst(attempts: seq<Score>): seq<Score> {
    Reversed(attempts)
  }

  /** `list.reverse()` on one of a chart's lists. */
  method ReverseInPlace<T>(a: array<T>)
    modifies a
    ensures a[..] == Reversed(old(a[..]))
  {
    var i := 0;
    while i < a.Length / 2
      invariant 0 <= i <= a.Length / 2
      invariant forall k :: 0 <= k < i ==> a[k] == old(a[a.Length - 1 - k]) && a[a.Length - 1 - k] == old(a[k])
      invariant forall k :: i <= k < a.Length - i ==> a[k] == old(a[k])
    {
      a[i], a[a.Length - 1 - i] := a[a.Length - 1 - i], a[i];
      i := i + 1;
    }
  }

  /** The chart of `user_detail` and `user_dashboard` (app.py:657-662, 711-720): the first
      `limit` of the newest-first attempts, each list then reversed in place. */
  method ChronologicalTrend(newestFirst: seq<Score>, limit: nat) returns (t: Trend)
    ensures t == TrendOf(Reversed(Take(newestFirst, limit)))
  {
    var top := Take(newestFirst, limit);
    var labels := new int[|top|](i requires 0 <= i < |top| => top[i].timestamp);
    var data := new int[|top|](i requires 0 <= i < |top| => top[i].totalScored);
    assert labels[..] == TrendOf(top).labels && data[..] == TrendOf(top).data;
    ReverseInPlace(labels);
    ReverseInPlace(data);
    t := Trend(labels[..], data[..]);
    TrendOfReversed(top);
  }

  /** Reversing the attempts reverses both lists of their chart. */
  lemma TrendOfReversed(scores: seq<Score>)
    ensures TrendOf(Reversed(scores)) == Trend(Reversed(TrendOf(scores).labels), Reversed(TrendOf(scores).data))
  {
  }

  /** Taking the first `k` of the newest-first order and reversing them gives the `k` most
      recent attempts, oldest first. */
  lemma {:induction false} RecentInOrder<T>(s: seq<T>, k: nat)
    ensures Reversed(Take(Reversed(s), k)) == Last(s, k)
  {
    var l := Last(s, k);
    var r := Reversed(Take(Reversed(s), k));
    assert |r| == |l|;
    forall i | 0 <= i < |r| ensures r[i] == l[i] {
      assert Take(Reversed(s), k)[|r| - 1 - i] == Reversed(s)[|r| - 1 - i];
    }
  }

  /** The learner's chart as `view_score` and `submit_quiz` select it (app.py:251-253,
      788-790): ordered by time and limited to 10, which keeps the ten OLDEST attempts. */
  function LearnerTrendAsWritten(attempts: seq<Score>): Trend {
    TrendOf(Take(attempts, 10))
  }

  /** The learner's chart as the admin and dashboard charts select theirs: the ten most
      recent attempts, oldest first. */
  function LearnerTrend(attempts: seq<Score>): Trend {
    TrendOf(Last(attempts, 10))
  }

  /** The corrected learner chart is the admin chart's selection of the same attempts, and
      it always ends with the newest attempt. */
  lemma LearnerTrendIsRecent(attempts: seq<Score>)
    ensures LearnerTrend(attempts) == TrendOf(Reversed(Take(NewestFirst(attempts), 10)))
    ensures attempts != [] ==>
      LearnerTrend(attempts).data[|LearnerTrend(attempts).data| - 1] == attempts[|attempts| - 1].totalScored
  {
    RecentInOrder(attempts, 10);
  }

  /** After eleven attempts the chart as written leaves out the newest: ten attempts
      scoring 0 followed by one scoring 100 chart as ten zeros. */
  lemma LearnerTrendAsWrittenMissesNewest()
    ensures var attempts := seq(10, _ => Score(0, 1, 1, 0, 0)) + [Score(10, 1, 1, 100, 10)];
      && 100 !in LearnerTrendAsWritten(attempts).data
      && 100 in LearnerTrend(attempts).data
  {
    var attempts := seq(10, _ => Score(0, 1, 1, 0, 0)) + [Score(10, 1, 1, 100, 10)];
    var t := LearnerTrendAsWritten(attempts).data;
    assert forall i :: 0 <= i < |t| ==> t[i] == 0;
    assert LearnerTrend(attempts).data[9] == 100;
  }

  // ---------------------------------------------------------------- statistics

  /** `max((s.total_scored for s in scores), default=0)` */
  function Highest(scores: seq<Score>): (r: int)
    ensures scores == [] ==> r == 0
    ensures scores != [] ==> exists s :: s in scores && s.totalScored == r
    ensures forall s :: s in scores ==> s.totalScored <= r
  {
    if scores == [] then 0
    else if |scores| == 1 then scores[0].totalScored
    else
      var rest := Highest(scores[1..]);
      assert forall s :: s in scores[1..] ==> s in scores;
      if scores[0].totalScored >= rest then scores[0].totalScored else rest
  }

  /** `min((s.total_scored for s in scores), default=0)` */
  function Lowest(scores: seq<Score>): (r: int)
    ensures scores == [] ==> r == 0
    ensures scores != [] ==> exists s :: s in scores && s.totalScored == r
    ensures forall s :: s in scores ==> r <= s.totalScored
  {
    if scores == [] then 0
    else if |scores| == 1 then scores[0].totalScored
    else
      var rest := Lowest(scores[1..]);
      assert forall s :: s in scores[1..] ==> s in scores;
      if scores[0].totalScored <= rest then scores[0].totalScored else rest
  }

  /** What the admin's page about one learner shows. */
  datatype UserDetailPage = UserDetailPage(scores: seq<Score>, totalQuizzes: nat, highest: int, lowest: int, trend: Trend)

  /** `user_detail` (app.py:640-671): the learner's attempts newest first, their count,
      best and worst score, and the chart of the ten most recent. */
  method UserDetail(db: Database, who: Principal, userId: nat) returns (r: Result<UserDetailPage, Refusal>)
    ensures who.Learner? ==> r == Err(AccessDenied)
    ensures who.Admin? ==> r.Ok?
    ensures r.Ok? ==>
      var attempts := AttemptsOf(db.scores, userId);
      && r.value.scores == NewestFirst(attempts)
      && r.value.totalQuizzes == |attempts|
      && r.value.highest == Highest(attempts) && r.value.lowest == Lowest(attempts)
      && r.value.trend == TrendOf(Last(attempts, 10))
  {
    if who.Learner? {
      return Err(AccessDenied);
    }
    var attempts := AttemptsOf(db.scores, userId);
    var scores := NewestFirst(attempts);
    var trend := ChronologicalTrend(scores, 10);
    RecentInOrder(attempts, 10);
    SameScores(attempts, scores);
    r := Ok(UserDetailPage(scores, |scores|, Highest(scores), Lowest(scores), trend));
  }

  /** Best and worst score do not depend on the order of the attempts. */
  lemma SameScores(attempts: seq<Score>, scores: seq<Score>)
    requires scores == Reversed(attempts)
    ensures Highest(scores) == Highest(attempts) && Lowest(scores) == Lowest(attempts)
  {
    forall s | s in attempts ensures s in scores {
      var i :| 0 <= i < |attempts| && attempts[i] == s;
      assert scores[|attempts| - 1 - i] == s;
    }
    forall s | s in scores ensures s in attempts {
      var i :| 0 <= i < |scores| && scores[i] == s;
    }
  }

  /** `scores_for_chart = recent_scores.copy(); scores_for_chart.reverse()` and the chart
      of the copy. */
  method ChartOldestFirst(recent: seq<Score>) returns (t: Trend)
    ensures t == TrendOf(Reversed(recent))
  {
    var forChart := new Score[|recent|](i requires 0 <= i < |recent| => recent[i]);
    assert forChart[..] == recent;
    ReverseInPlace(forChart);
    t := TrendOf(forChart[..]);
  }

  /** What the learner's dashboard shows of their attempts. */
  datatype DashboardPage = DashboardPage(recent: seq<Score>, trend: Trend)

  /** `user_dashboard` (app.py:698-725): the five most recent attempts newest first, and
      their chart oldest first. */
  method UserDashboard(db: Database, who: Principal) returns (r: Result<DashboardPage, Refusal>)
    ensures who.Admin? ==> r == Err(AdminRedirect)
    ensures who.Learner? ==>
      var attempts := AttemptsOf(db.scores, who.userId);
      r == Ok(DashboardPage(Take(NewestFirst(attempts), 5), TrendOf(Last(attempts, 5))))
  {
    if who.Admin? {
      return Err(AdminRedirect);
    }
    var attempts := AttemptsOf(db.scores, who.userId);
    var recent := Take(NewestFirst(attempts), 5);
    var trend := Trend([], []);
    if recent != [] {
      trend := ChartOldestFirst(recent);
    }
    RecentInOrder(attempts, 5);
    r := Ok(DashboardPage(recent, trend));
  }

  // ---------------------------------------------------------------- result and review pages

  /** What the result page of an attempt shows. */
  datatype ResultPage = ResultPage(counts: Counts, totalQuestions: nat, accuracy: int, trend: Trend)

  /** `round(correct / (correct + wrong) * 100)`, 0 when nothing was answered (app.py:248-250). */
  function Accuracy(c: Counts): int {
    Percent(c.correct, c.correct + c.wrong)
  }

  /** `view_score` as written (app.py:214-262): the snapshot is looked up by integer
      question id while its keys are still the text the session hands back. */
  method ViewScoreAsWritten(db: Database, session: Session, who: Principal, scoreId: nat)
      returns (r: Result<ResultPage, Refusal>)
    ensures who.Admin? ==> r == Err(AdminRedirect)
    ensures who.Learner? && db.FindScore(scoreId).None? ==> r == Err(NotFound)
    ensures who.Learner? && db.FindScore(scoreId).Some? && db.FindScore(scoreId).value.userId != who.userId ==>
      r == Err(NotOwner)
    ensures who.Learner? && db.FindScore(scoreId).Some? && db.FindScore(scoreId).value.userId == who.userId ==>
      var score := db.FindScore(scoreId).value;
      var qs := QuestionsOf(db.questions, score.quizId);
      var c := Breakdown(qs, session.Load(SnapshotName(score.id)));
      r == Ok(ResultPage(c, |qs|, Accuracy(c), LearnerTrendAsWritten(AttemptsOf(db.scores, who.userId))))
  {
    if who.Admin? {
      return Err(AdminRedirect);
    }
    var found := db.FindScore(scoreId);
    if found.None? {
      return Err(NotFound);
    }
    var score := found.value;
    if score.userId != who.userId {
      return Err(NotOwner);
    }
    var qs := QuestionsOf(db.questions, score.quizId);
    var answers := session.Load(SnapshotName(score.id));
    var c := CountBreakdown(qs, answers);
    r := Ok(ResultPage(c, |qs|, Accuracy(c), LearnerTrendAsWritten(AttemptsOf(db.scores, who.userId))));
  }

  /** `view_score` with the snapshot's keys converted as `review_quiz` converts them, and
      the chart of the ten most recent attempts. */
  method ViewScore(db: Database, session: Session, who: Principal, scoreId: nat)
      returns (r: Result<ResultPage, Refusal>)
    requires session.Valid()
    ensures who.Admin? ==> r == Err(AdminRedirect)
    ensures who.Learner? && db.FindScore(scoreId).None? ==> r == Err(NotFound)
    ensures who.Learner? && db.FindScore(scoreId).Some? && db.FindScore(scoreId).value.userId != who.userId ==>
      r == Err(NotOwner)
    ensures who.Learner? && db.FindScore(scoreId).Some? && db.FindScore(scoreId).value.userId == who.userId ==>
      var score := db.FindScore(scoreId).value;
      var qs := QuestionsOf(db.questions, score.quizId);
      var c := Breakdown(qs, RestoreKeys(session.Load(SnapshotName(score.id))));
      r == Ok(ResultPage(c, |qs|, Accuracy(c), LearnerTrend(AttemptsOf(db.scores, who.userId))))
  {
    if who.Admin? {
      return Err(AdminRedirect);
    }
    var found := db.FindScore(scoreId);
    if found.None? {
      return Err(NotFound);
    }
    var score := found.value;
    if score.userId != who.userId {
      return Err(NotOwner);
    }
    var qs := QuestionsOf(db.questions, score.quizId);
    var answers := RestoreKeys(session.Load(SnapshotName(score.id)));
    var c := CountBreakdown(qs, answers);
    r := Ok(ResultPage(c, |qs|, Accuracy(c), LearnerTrend(AttemptsOf(db.scores, who.userId))));
  }

  /** `review_quiz` (app.py:264-310): the breakdown of the questions of `quizId` against
      the converted snapshot of attempt `scoreId`. */
  method ReviewQuiz(db: Database, session: Session, who: Principal, quizId: nat, scoreId: nat)
      returns (r: Result<Counts, Refusal>)
    requires session.Valid()
    ensures who.Admin? ==> r == Err(AdminRedirect)
    ensures who.Learner? && db.FindScore(scoreId).None? ==> r == Err(NotFound)
    ensures who.Learner? && db.FindScore(scoreId).Some? && db.FindScore(scoreId).value.userId != who.userId ==>
      r == Err(NotOwner)
    ensures who.Learner? && db.FindScore(scoreId).Some? && db.FindScore(scoreId).value.userId == who.userId ==>
      var score := db.FindScore(scoreId).value;
      r == Ok(Breakdown(QuestionsOf(db.questions, quizId), RestoreKeys(session.Load(SnapshotName(score.id)))))
  {
    if who.Admin? {
      return Err(AdminRedirect);
    }
    var found := db.FindScore(scoreId);
    if found.None? {
      return Err(NotFound);
    }
    var score := found.value;
    if score.userId != who.userId {
      return Err(NotOwner);
    }
    var qs := QuestionsOf(db.questions, quizId);
    var answers := RestoreKeys(session.Load(SnapshotName(score.id)));
    var c := CountBreakdown(qs, answers);
    r := Ok(c);
  }

  /** With no snapshot in the session every question of the review is not attempted. */
  lemma ReviewWithoutSnapshot(qs: seq<StoredQuestion>)
    ensures Breakdown(qs, RestoreKeys(map[])) == Counts(0, 0, |qs|)
  {
    BreakdownNoAnswers(qs);
  }

  // ---------------------------------------------------------------- submitting

  /** Why `submit_quiz` produced no result page. */
  datatype SubmitFailure = SubmitRedirect | BadAnswer(error: SubmitError)

  /** What `submit_quiz` stores and shows. */
  datatype Submission = Submission(score: Score, summary: Summary, trend: Trend)

  /** `submit_quiz` (app.py:737-800): grade the form, store the attempt and keep its answers
      in the session for the review. */
  method SubmitQuiz(db: Database, session: Session, who: Principal, quizId: nat, form: map<string, string>, now: int)
      returns (r: Result<Submission, SubmitFailure>)
    requires db.Valid() && session.Valid()
    modifies db`scores, db`nextScoreId, session
    ensures db.Valid() && session.Valid()
    ensures who.Admin? ==> r == Err(SubmitRedirect)
    ensures r.Err? ==>
      db.scores == old(db.scores) && db.nextScoreId == old(db.nextScoreId) && session.snapshots == old(session.snapshots)
    ensures who.Learner? && CollectAnswers(QuestionsOf(db.questions, quizId), form).Err? ==>
      r == Err(BadAnswer(CollectAnswers(QuestionsOf(db.questions, quizId), form).error))
    ensures who.Learner? && CollectAnswers(QuestionsOf(db.questions, quizId), form).Ok? ==>
      var qs := QuestionsOf(db.questions, quizId);
      var answers := CollectAnswers(qs, form).value;
      var correct := CorrectCount(qs, form);
      var score := Score(old(db.nextScoreId), quizId, who.userId, Percent(correct, |qs|), now);
      && db.scores == old(db.scores) + [score]
      && session.snapshots == old(session.snapshots)[SnapshotName(score.id) := Persist(answers)]
      && r == Ok(Submission(score, Summarize(qs, answers, correct), LearnerTrendAsWritten(AttemptsOf(db.scores, who.userId))))
  {
    if who.Admin? {
      return Err(SubmitRedirect);
    }
    var qs := QuestionsOf(db.questions, quizId);
    var graded := GradeAnswers(qs, form);
    if graded.Err? {
      return Err(BadAnswer(graded.error));
    }
    var answers := graded.value.answers;
    var correct := graded.value.correct;
    var score := RecordAttempt(db, session, who.userId, quizId, Percent(correct, |qs|), answers, now);
    r := Ok(Submission(score, Summarize(qs, answers, correct), LearnerTrendAsWritten(AttemptsOf(db.scores, who.userId))));
  }

  /** The storing half of `submit_quiz` (app.py:769-777): the attempt is stored with a fresh
      id and its answers kept in the session under that id. */
  method RecordAttempt(db: Database, session: Session, userId: nat, quizId: nat, totalScored: int,
                       answers: Answers, now: int)
      returns (score: Score)
    requires db.Valid() && session.Valid()
    modifies db`scores, db`nextScoreId, session
    ensures db.Valid() && session.Valid()
    ensures score == Score(old(db.nextScoreId), quizId, userId, totalScored, now)
    ensures db.scores == old(db.scores) + [score]
    ensures session.snapshots == old(session.snapshots)[SnapshotName(score.id) := Persist(answers)]
  {
    score := db.InsertScore(quizId, userId, totalScored, now);
    session.Save(SnapshotName(score.id), answers);
  }

  /** Reviewing an attempt right after submitting it reproduces the figures of the submit
      page: the stored snapshot, once converted, gives the same correct, wrong and not
      attempted counts. */
  lemma ReviewReproducesSubmit(questions: seq<StoredQuestion>, quizId: nat, form: map<string, string>)
    requires IncreasingIds(questions)
    requires CollectAnswers(QuestionsOf(questions, quizId), form).Ok?
    ensures var qs := QuestionsOf(questions, quizId);
      var answers := CollectAnswers(qs, form).value;
      var s := Summarize(qs, answers, CorrectCount(qs, form));
      var b := Breakdown(qs, RestoreKeys(Persist(answers)));
      b.correct == s.correct && b.wrong == s.wrong && b.notAttempted == s.notAttempted
  {
    var qs := QuestionsOf(questions, quizId);
    var answers := CollectAnswers(qs, form).value;
    QuestionsOfIncreasing(questions, quizId);
    CollectAnswersValues(qs, form);
    RestoreAfterPersist(answers);
    CorrectCountIsBreakdown(qs, form);
    SummaryAgrees(qs, form);
  }

  /** `view_score` as written shows a fully answered attempt as not attempted at all: one
      question answered correctly is counted as one question not attempted, where the
      review counts it as correct. */
  lemma ViewScoreLosesAnswers()
    ensures var q := StoredQuestion(1, Question(1, "Q", None, "a", "b", "c", "d", 2));
      var answers := map[IntKey(1) := 2];
      && Breakdown([q], Persist(answers)) == Counts(0, 0, 1)
      && Breakdown([q], RestoreKeys(Persist(answers))) == Counts(1, 0, 0)
  {
    var q := StoredQuestion(1, Question(1, "Q", None, "a", "b", "c", "d", 2));
    var answers := map[IntKey(1) := 2];
    PersistedAnswersUnseen([q], answers);
    RestoreAfterPersist(answers);
    assert [q][..0] == [];
  }
}
