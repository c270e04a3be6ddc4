/** The script of the quiz page (static/js/quiz.js): which question is shown, the status
    the learner has given each question, the counts and the navigator drawn from those
    statuses, the countdown, and the final submit. The page itself (cards, buttons, radio
    inputs, the progress bars) is reduced to the values the script writes into it. */
module QuizPage {
  import opened Base
  import opened PyText

  /** The status of a visited question; a question without one has not been visited. */
  datatype Status = NotAnswered | Answered | MarkedForReview

  /** The colour class of a navigator button. */
  datatype ButtonStyle =
    | Primary            // the current question
    | Success            // answered
    | Warning            // marked for review
    | Danger             // visited, not answered
    | OutlineSecondary   // not visited

  /** The three counts beside the progress bar. */
  datatype Progress = Progress(answered: nat, review: nat, unanswered: int)

  // ---------------------------------------------------------------- counts

  /** How many questions have status `s` (`Object.values(questionStatus).filter(...).length`). */
  function CountOf(statuses: map<int, Status>, s: Status): nat {
    |set k | k in statuses && statuses[k] == s|
  }

  /** `updateProgressBar`'s counts: unanswered is what is neither answered nor marked. */
  function ProgressOf(statuses: map<int, Status>, total: nat): Progress {
    var answered := CountOf(statuses, Answered);
    var review := CountOf(statuses, MarkedForReview);
    Progress(answered, review, total - answered - review)
  }

  /** `submitQuiz`'s count of unanswered questions: the visited ones not answered, plus the
      ones never visited. */
  function UnansweredAtSubmit(statuses: map<int, Status>, total: nat): int {
    CountOf(statuses, NotAnswered) + (total - |statuses.Keys|)
  }

  /** Every visited question has exactly one of the three statuses. */
  lemma StatusesPartition(statuses: map<int, Status>)
    ensures |statuses.Keys| == CountOf(statuses, Answered) + CountOf(statuses, MarkedForReview) + CountOf(statuses, NotAnswered)
  {
    var a := set k | k in statuses && statuses[k] == Answered;
    var r := set k | k in statuses && statuses[k] == MarkedForReview;
    var n := set k | k in statuses && statuses[k] == NotAnswered;
    var ar := a + r;
    assert a !! r;
    assert |ar| == |a| + |r|;
    assert ar !! n;
    assert |ar + n| == |ar| + |n|;
    forall k | k in statuses.Keys ensures k in ar + n {
      match statuses[k]
      case Answered => assert k in a;
      case MarkedForReview => assert k in r;
      case NotAnswered => assert k in n;
    }
    assert statuses.Keys == ar + n;
  }

  /** The progress bar and the submit warning agree on how many questions are unanswered. */
  lemma UnansweredAgree(statuses: map<int, Status>, total: nat)
    ensures ProgressOf(statuses, total).unanswered == UnansweredAtSubmit(statuses, total)
  {
    StatusesPartition(statuses);
  }

  /** The numbers 1 to `n`. */
  function Numbers(n: nat): (r: set<int>)
    ensures forall k :: k in r <==> 1 <= k <= n
    ensures |r| == n
  {
    if n == 0 then {} else
      var r := Numbers(n - 1);
      assert n !in r;
      r + {n}
  }

  /** A set holds no more elements than a set containing it. */
  lemma SubsetNoLarger(a: set<int>, b: set<int>)
    requires a <= b
    ensures |a| <= |b|
  {
    assert b == a + (b - a);
    assert a * (b - a) == {};
  }

  /** When only questions of the page have a status, the counts beside the progress bar
      are within the number of questions. */
  lemma ProgressBounds(statuses: map<int, Status>, total: nat)
    requires forall k :: k in statuses ==> 1 <= k <= total
    ensures var p := ProgressOf(statuses, total);
      && p.answered + p.review <= total
      && 0 <= p.unanswered <= total
      && p.answered + p.review + p.unanswered == total
  {
    StatusesPartition(statuses);
    SubsetNoLarger(statuses.Keys, Numbers(total));
  }

  // ---------------------------------------------------------------- navigator

  /** The class `updateQuestionNavigator` gives the button of question `num`: the current
      question first, then answered, marked for review, not answered, not visited. */
  function NavigatorStyle(statuses: map<int, Status>, current: int, num: int): ButtonStyle {
    if num == current then Primary
    else if num in statuses && statuses[num] == Answered then Success
    else if num in statuses && statuses[num] == MarkedForReview then Warning
    else if num in statuses && statuses[num] == NotAnswered then Danger
    else OutlineSecondary
  }

  /** The status a button's colour tells about a question other than the current one. */
  function StatusShown(b: ButtonStyle): Option<Status> {
    match b
    case Success => Some(Answered)
    case Warning => Some(MarkedForReview)
    case Danger => Some(NotAnswered)
    case _ => None
  }

  /** The navigator marks exactly the current question as current, and every other button
      tells its question's status, or that it was not visited. */
  lemma NavigatorShowsStatus(statuses: map<int, Status>, current: int, num: int)
    ensures NavigatorStyle(statuses, current, num) == Primary <==> num == current
    ensures num != current ==>
      StatusShown(NavigatorStyle(statuses, current, num)) == (if num in statuses then Some(statuses[num]) else None)
  {
  }

  /** The buttons of questions 1 to `total`, in order. */
  function NavigatorOf(statuses: map<int, Status>, current: int, total: nat): (r: seq<ButtonStyle>)
    ensures |r| == total
    ensures forall i :: 0 <= i < total ==> r[i] == NavigatorStyle(statuses, current, i + 1)
  {
    seq(total, i requires 0 <= i < total => NavigatorStyle(statuses, current, i + 1))
  }

  // ---------------------------------------------------------------- timer display

  /** `s.padStart(2, '0')` */
  function Pad2(s: string): (r: string)
    ensures |r| == if |s| >= 2 then |s| else 2
    ensures r[|r| - |s|..] == s
    ensures forall i :: 0 <= i < |r| - |s| ==> r[i] == '0'
  {
    if |s| >= 2 then s else seq(2 - |s|, _ => '0') + s
  }

  /** The minutes and seconds shown for `t` seconds left (`Math.floor(t / 60)`, `t % 60`). */
  function ClockFace(t: nat): (r: (nat, nat))
    ensures r.0 * 60 + r.1 == t && r.1 < 60
  {
    (t / 60, t % 60)
  }

  /** The text of the timer: minutes and seconds, each padded to two digits. */
  function TimerText(t: nat): string {
    Pad2(NatStr(ClockFace(t).0)) + ":" + Pad2(NatStr(ClockFace(t).1))
  }

  /** A leading zero does not change the number a run of digits denotes. */
  lemma {:induction false} LeadingZero(s: string)
    ensures DigitsValue("0" + s) == DigitsValue(s)
  {
    if s != [] {
      assert ("0" + s)[..|"0" + s| - 1] == "0" + s[..|s| - 1];
      LeadingZero(s[..|s| - 1]);
    }
  }

  /** A number below 100 is written with at most two digits, and padding it keeps its value. */
  lemma TwoDigits(n: nat)
    requires n < 100
    ensures |Pad2(NatStr(n))| == 2
    ensures DigitsValue(Pad2(NatStr(n))) == n
  {
    DigitsValueOfNatStr(n);
    if n < 10 {
      assert Pad2(NatStr(n)) == "0" + NatStr(n);
      LeadingZero(NatStr(n));
    } else {
      assert |NatStr(n / 10)| == 1;
    }
  }

  /** Below 100 minutes the timer reads "MM:SS", and the two numbers give back the
      seconds left. */
  lemma TimerTextReadsBack(t: nat)
    requires t < 6000
    ensures var r := TimerText(t);
      && |r| == 5 && r[2] == ':'
      && DigitsValue(r[..2]) * 60 + DigitsValue(r[3..]) == t
  {
    var (m, s) := ClockFace(t);
    assert m < 100 && s < 60;
    TwoDigits(m);
    TwoDigits(s);
    var a, b := Pad2(NatStr(m)), Pad2(NatStr(s));
    assert TimerText(t) == a + ":" + b;
    TimerParts(a, b);
  }

  /** Two two-character parts around a ':' are found at positions 0-1 and 3-4. */
  lemma TimerParts(a: string, b: string)
    requires |a| == 2 && |b| == 2
    ensures var r := a + ":" + b; |r| == 5 && r[..2] == a && r[2] == ':' && r[3..] == b
  {
    var r := a + ":" + b;
    assert r[..2] == a;
    assert r[3..] == b;
  }

  // ---------------------------------------------------------------- the page

  /** The script's module-level state, and what it last wrote into the page. */
  class Quiz {
    var currentQuestion: int
    var totalQuestions: nat
    var questionStatus: map<int, Status>
    var totalTime: int
    var remainingTime: int
    var timerRunning: bool
    var isTimeUp: bool
    var isSubmitting: bool
    var quizEnded: bool
    var formSubmitted: bool
    /** The counts beside the progress bar, the navigator's classes and the timer's text. */
    var shownProgress: Progress
    var shownNavigator: seq<ButtonStyle>
    var timerText: string

    /** The largest number a question can have here: the current question starts at 1
        even on a page without questions. */
    function LastNumber(): nat
      reads this
    {
      if totalQuestions == 0 then 1 else totalQuestions
    }

    /** Only numbers of questions on the page are current or carry a status. */
    ghost predicate InRange()
      reads this
    {
      && 1 <= currentQuestion <= LastNumber()
      && forall k :: k in questionStatus ==> 1 <= k <= LastNumber()
    }

    /** The counts and the navigator on the page show the current state. */
    ghost predicate Shown()
      reads this
    {
      && shownProgress == ProgressOf(questionStatus, totalQuestions)
      && shownNavigator == NavigatorOf(questionStatus, currentQuestion, totalQuestions)
    }

    ghost predicate Valid()
      reads this
    {
      InRange() && Shown()
    }

    /** The `DOMContentLoaded` handler: `total` question cards, the first one shown, and
        the countdown started when the quiz has a duration. */
    constructor (total: nat, duration: Option<int>)
      ensures Valid()
      ensures totalQuestions == total
      ensures currentQuestion == 1
      ensures total > 0 ==> questionStatus == map[1 := NotAnswered]
      ensures total == 0 ==> questionStatus == map[]
      ensures duration.Some? ==> timerRunning && remainingTime == totalTime == duration.value * 60
      ensures duration.None? ==> !timerRunning
      ensures !isTimeUp && !isSubmitting && !quizEnded && !formSubmitted
    {
      currentQuestion := 1;
      totalQuestions := total;
      questionStatus := map[];
      totalTime := 0;
      remainingTime := 0;
      timerRunning := false;
      isTimeUp := false;
      isSubmitting := false;
      quizEnded := false;
      formSubmitted := false;
      timerText := "";
      shownProgress := ProgressOf(map[], total);
      shownNavigator := NavigatorOf(map[], 1, total);
      new;
      Load(duration);
    }

    /** The body of the `DOMContentLoaded` handler, on a page whose questions are all
        unvisited: the first question is shown, the countdown started when the quiz has a
        duration, and the navigator redrawn. */
    method Load(duration: Option<int>)
      requires Valid() && currentQuestion == 1 && questionStatus == map[] && !timerRunning
      modifies this`currentQuestion, this`questionStatus, this`shownProgress, this`shownNavigator,
               this`totalTime, this`remainingTime, this`timerRunning
      ensures Valid()
      ensures currentQuestion == 1
      ensures totalQuestions > 0 ==> questionStatus == map[1 := NotAnswered]
      ensures totalQuestions == 0 ==> questionStatus == map[]
      ensures duration.Some? ==> timerRunning && remainingTime == totalTime == duration.value * 60
      ensures duration.None? ==> !timerRunning
    {
      if totalQuestions > 0 {
        ShowQuestion(1);
      }
      ghost var status := questionStatus;
      if duration.Some? {
        StartTimer(duration.value);
      }
      assert currentQuestion == 1 && questionStatus == status;
      UpdateQuestionNavigator();
    }

    /** `updateProgressBar`: the counts are written into the page. */
    method UpdateProgressBar()
      modifies this`shownProgress
      ensures shownProgress == ProgressOf(questionStatus, totalQuestions)
    {
      var answered := CountOf(questionStatus, Answered);
      var review := CountOf(questionStatus, MarkedForReview);
      shownProgress := Progress(answered, review, totalQuestions - answered - review);
    }

    /** `updateQuestionNavigator`: every button of the navigator gets its class. */
    method UpdateQuestionNavigator()
      modifies this`shownNavigator
      ensures shownNavigator == NavigatorOf(questionStatus, currentQuestion, totalQuestions)
    {
      var styles := [];
      for i := 0 to totalQuestions
        invariant |styles| == i
        invariant forall j :: 0 <= j < i ==> styles[j] == NavigatorStyle(questionStatus, currentQuestion, j + 1)
      {
        var num := i + 1;
        var style;
        if num == currentQuestion {
          style := Primary;
        } else if num in questionStatus && questionStatus[num] == Answered {
          style := Success;
        } else if num in questionStatus && questionStatus[num] == MarkedForReview {
          style := Warning;
        } else if num in questionStatus && questionStatus[num] == NotAnswered {
          style := Danger;
        } else {
          style := OutlineSecondary;
        }
        styles := styles + [style];
      }
      shownNavigator := styles;
    }

    /** `showQuestion(n)`: a question that exists becomes current, and is marked as not
        answered only on its first visit; a number without a card changes nothing. */
    method ShowQuestion(n: int)
      requires Valid()
      modifies this`currentQuestion, this`questionStatus, this`shownProgress, this`shownNavigator
      ensures Valid()
      ensures 1 <= n <= totalQuestions ==> currentQuestion == n
      ensures 1 <= n <= totalQuestions && n !in old(questionStatus) ==>
        questionStatus == old(questionStatus)[n := NotAnswered]
      ensures 1 <= n <= totalQuestions && n in old(questionStatus) ==> questionStatus == old(questionStatus)
      ensures !(1 <= n <= totalQuestions) ==>
        currentQuestion == old(currentQuestion) && questionStatus == old(questionStatus)
    {
      if 1 <= n <= totalQuestions {
        currentQuestion := n;
        if n !in questionStatus {
          questionStatus := questionStatus[n := NotAnswered];
        }
        UpdateProgressBar();
        UpdateQuestionNavigator();
      }
    }

    /** `updateQuestionStatus(n, status)`: only question `n`'s status changes. */
    method UpdateQuestionStatus(n: int, status: Status)
      requires Valid() && 1 <= n <= LastNumber()
      modifies this`questionStatus, this`shownProgress, this`shownNavigator
      ensures Valid()
      ensures questionStatus == old(questionStatus)[n := status]
    {
      questionStatus := questionStatus[n := status];
      UpdateProgressBar();
      UpdateQuestionNavigator();
    }

    /** `navigateQuestion(direction)`: moves only when the target is a question of the page. */
    method NavigateQuestion(direction: int)
      requires Valid()
      modifies this`currentQuestion, this`questionStatus, this`shownProgress, this`shownNavigator
      ensures Valid()
      ensures var target := old(currentQuestion) + direction;
        && (1 <= target <= totalQuestions ==> currentQuestion == target)
        && (!(1 <= target <= totalQuestions) ==> currentQuestion == old(currentQuestion) && questionStatus == old(questionStatus))
      ensures var target := old(currentQuestion) + direction;
        1 <= target <= totalQuestions && target !in old(questionStatus) ==>
          questionStatus == old(questionStatus)[target := NotAnswered]
      ensures var target := old(currentQuestion) + direction;
        1 <= target <= totalQuestions && target in old(questionStatus) ==> questionStatus == old(questionStatus)
    {
      var target := currentQuestion + direction;
      if 1 <= target <= totalQuestions {
        ShowQuestion(target);
      }
    }

    /** `clearAnswer`: the current question is not answered again. The radio inputs it
        unchecks belong to the current question's card, which must exist. */
    method ClearAnswer()
      requires Valid() && currentQuestion <= totalQuestions
      modifies this`questionStatus, this`shownProgress, this`shownNavigator
      ensures Valid()
      ensures questionStatus == old(questionStatus)[currentQuestion := NotAnswered]
    {
      UpdateQuestionStatus(currentQuestion, NotAnswered);
    }

    /** The `change` handler of every radio input: the CURRENT question becomes answered. */
    method SelectOption()
      requires Valid()
      modifies this`questionStatus, this`shownProgress, this`shownNavigator
      ensures Valid()
      ensures questionStatus == old(questionStatus)[currentQuestion := Answered]
    {
      UpdateQuestionStatus(currentQuestion, Answered);
    }

    /** `markForReview`: the current question is marked, then the next one is shown if
        there is one. */
    method MarkForReview()
      requires Valid()
      modifies this`currentQuestion, this`questionStatus, this`shownProgress, this`shownNavigator
      ensures Valid()
      ensures old(currentQuestion) + 1 <= totalQuestions ==> currentQuestion == old(currentQuestion) + 1
      ensures old(currentQuestion) + 1 > totalQuestions ==> currentQuestion == old(currentQuestion)
      ensures var marked := old(questionStatus)[old(currentQuestion) := MarkedForReview];
        var next := old(currentQuestion) + 1;
        next <= totalQuestions && next !in marked ==> questionStatus == marked[next := NotAnswered]
      ensures var marked := old(questionStatus)[old(currentQuestion) := MarkedForReview];
        var next := old(currentQuestion) + 1;
        next > totalQuestions || next in marked ==> questionStatus == marked
    {
      var marked := currentQuestion;
      UpdateQuestionStatus(currentQuestion, MarkedForReview);
      NavigateQuestion(1);
    }

    /** `submitQuiz`: unless time is up, a warning with the number of unanswered questions
        is shown when there are any, and `confirms` is the learner's answer to it; the
        form is sent unless the learner declined. `asked` is the count the warning showed. */
    method SubmitQuiz(confirms: bool) returns (asked: Option<int>)
      modifies this`isSubmitting, this`quizEnded, this`timerRunning, this`formSubmitted
      ensures asked == (if !isTimeUp && UnansweredAtSubmit(questionStatus, totalQuestions) > 0
                        then Some(UnansweredAtSubmit(questionStatus, totalQuestions)) else None)
      ensures asked.Some? && !confirms ==>
        && isSubmitting == old(isSubmitting) && quizEnded == old(quizEnded)
        && timerRunning == old(timerRunning) && formSubmitted == old(formSubmitted)
      ensures asked.None? || confirms ==> isSubmitting && quizEnded && !timerRunning && formSubmitted
    {
      asked := None;
      if !isTimeUp {
        var notAnswered := CountOf(questionStatus, NotAnswered);
        var notVisited := totalQuestions - |questionStatus.Keys|;
        var unanswered := notAnswered + notVisited;
        if unanswered > 0 {
          asked := Some(unanswered);
          if !confirms {
            return;
          }
        }
      }
      isSubmitting := true;
      quizEnded := true;
      timerRunning := false;
      formSubmitted := true;
    }

    /** Whether leaving the page asks for confirmation (the `beforeunload` handler). */
    function WarnsOnLeave(): bool
      reads this
    {
      !quizEnded && !isSubmitting
    }

    /** `startTimer(minutes)`: the countdown starts from `minutes` minutes. */
    method StartTimer(minutes: int)
      requires Valid()
      modifies this`totalTime, this`remainingTime, this`timerRunning
      ensures Valid()
      ensures totalTime == minutes * 60 && remainingTime == totalTime && timerRunning
    {
      totalTime := minutes * 60;
      remainingTime := totalTime;
      timerRunning := true;
    }

    /** One tick of the countdown: a second less; at zero the timer stops, time is up and
        the quiz is submitted without asking; otherwise the timer shows the time left. */
    method Tick()
      requires timerRunning
      modifies this`remainingTime, this`timerRunning, this`isTimeUp, this`timerText,
               this`isSubmitting, this`quizEnded, this`formSubmitted
      ensures remainingTime == old(remainingTime) - 1
      ensures remainingTime <= 0 ==>
        && isTimeUp && !timerRunning && isSubmitting && quizEnded && formSubmitted && !WarnsOnLeave()
        && timerText == old(timerText)
      ensures remainingTime > 0 ==>
        && timerRunning && timerText == TimerText(remainingTime)
        && isTimeUp == old(isTimeUp) && isSubmitting == old(isSubmitting)
        && quizEnded == old(quizEnded) && formSubmitted == old(formSubmitted)
    {
      remainingTime := remainingTime - 1;
      if remainingTime <= 0 {
        timerRunning := false;
        isTimeUp := true;
        var asked := SubmitQuiz(false);
        return;
      }
      timerText := TimerText(remainingTime);
    }
  }
}
