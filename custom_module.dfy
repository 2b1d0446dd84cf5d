/** The page that plays a saved module (src/assets/js/custom-module.js):
    one problem at a time, an answer box, a check and a next button, running
    counters and a completion panel. The page's module-level variables and
    the parts of the DOM the handlers read back are the fields of one
    `Page`. */
module CustomModule {

  import opened Wrappers
  import opened JsText
  import opened Storage
  import opened Lesson
  import ModuleManager
  import BaseGame

  const ActiveModuleKey := "activeModule"

  /** The text of the feedback line. */
  datatype Feedback = Blank | EnterAnAnswer | Correct | NotQuite

  /** The progress line: `index/total`. */
  datatype Progress = Progress(index: nat, total: nat)

  /** The stats panel: answered, correct and the accuracy in percent. */
  datatype StatsView = StatsView(completed: nat, correct: nat, accuracy: int)

  /** The width of the progress bar in percent; `None` when the module has
      no problems and the division gives NaN or Infinity. */
  function ProgressPercent(p: Progress): (r: Option<real>)
    ensures r.None? <==> p.total == 0
    ensures r.Some? && p.index <= p.total ==> 0.0 <= r.value <= 100.0
  {
    if p.total == 0 then None
    else
      var x := p.index as real / p.total as real;
      assert p.index <= p.total ==> x <= 1.0;
      Some(x * 100.0)
  }

  /** What `updateStats` shows for the counters. */
  function ShownStats(answered: nat, correct: nat): (v: StatsView)
    requires correct <= answered
    ensures v.completed == answered && v.correct == correct
    ensures 0 <= v.accuracy <= 100
    ensures answered == 0 ==> v.accuracy == 0
    ensures correct == answered && answered > 0 ==> v.accuracy == 100
  {
    BaseGame.AccuracyBounds(correct, answered);
    StatsView(answered, correct, BaseGame.Accuracy(correct, answered))
  }

  /** Everything the page shows or remembers: the module, the counters,
      the answer box, the feedback and explanation, the two buttons, the
      completion and error panels, the progress line and the stats panel. */
  datatype Screen = Screen(
    current: Option<Module>, currentProblemIndex: nat, correctAnswers: nat, answeredProblems: nat,
    input: string, feedback: Feedback, explanation: Option<string>,
    checkShown: bool, nextShown: bool, completed: bool, failed: bool,
    progress: Option<Progress>, stats: StatsView)

  predicate Playable(s: Screen)
  {
    s.current.Some? && s.current.value.problems.Some?
  }

  /** `displayProblem`: nothing without problems; past the last problem the
      completion panel; otherwise a cleared box, feedback and explanation,
      Check instead of Next, and the progress line. */
  function Displayed(s: Screen): Screen
  {
    if !Playable(s) then s
    else
      var problems := s.current.value.problems.value;
      if s.currentProblemIndex >= |problems| then s.(completed := true)
      else
        s.(input := "", feedback := Blank, explanation := None, checkShown := true, nextShown := false,
           progress := Some(Progress(s.currentProblemIndex, |problems|)))
  }

  /** The answer to `problem` was judged: counted, the verdict and the
      explanation (if the problem has one) shown, Next instead of Check, and
      the stats panel refreshed. */
  function Recorded(s: Screen, problem: Problem, isCorrect: bool): Screen
    requires s.correctAnswers <= s.answeredProblems
  {
    var answered := s.answeredProblems + 1;
    var correct := s.correctAnswers + (if isCorrect then 1 else 0);
    s.(answeredProblems := answered, correctAnswers := correct,
       feedback := if isCorrect then Correct else NotQuite,
       explanation := if problem.explanation != "" then Some(problem.explanation) else s.explanation,
       checkShown := false, nextShown := true, stats := ShownStats(answered, correct))
  }

  /** The part of `checkAnswer` after the blank check: past the last problem
      reading the problem's answer throws and nothing changes. */
  function Judged(s: Screen, answer: string): Screen
    requires Playable(s) && s.correctAnswers <= s.answeredProblems
  {
    var problems := s.current.value.problems.value;
    if s.currentProblemIndex >= |problems| then s
    else
      var problem := problems[s.currentProblemIndex];
      Recorded(s, problem, IsAnswerCorrect(problem.answer, answer))
  }

  /** `checkAnswer` with the trimmed `answer`: nothing without problems, a
      request for an answer when it is blank, otherwise the judgement. */
  function AfterCheck(s: Screen, answer: string): Screen
    requires s.correctAnswers <= s.answeredProblems
  {
    if !Playable(s) then s
    else if answer == [] then s.(feedback := EnterAnAnswer)
    else Judged(s, answer)
  }

  /** The Next button: one problem on, then `displayProblem`. */
  function Advanced(s: Screen): Screen
  {
    Displayed(s.(currentProblemIndex := s.currentProblemIndex + 1))
  }

  /** Enter in the answer box: Check while it is up, else Next while it is
      up, else nothing. */
  function Entered(s: Screen): Screen
    requires s.correctAnswers <= s.answeredProblems
  {
    if s.checkShown then AfterCheck(s, Trim(s.input))
    else if s.nextShown then Advanced(s)
    else s
  }

  /** The restart button: index and counters at zero, the completion panel
      hidden, zero stats, then `displayProblem`. */
  function Restarted(s: Screen): Screen
  {
    Displayed(s.(currentProblemIndex := 0, correctAnswers := 0, answeredProblems := 0,
                 completed := false, stats := ShownStats(0, 0)))
  }

  class Page {
    /** `currentModule`. */
    var current: Option<Module>
    var currentProblemIndex: nat
    var correctAnswers: nat
    var answeredProblems: nat
    /** The answer box. */
    var input: string
    var feedback: Feedback
    /** The explanation panel, when shown. */
    var explanation: Option<string>
    /** The inline display of the check and next buttons is not `none`;
        before the first problem is shown neither is set. */
    var checkShown: bool
    var nextShown: bool
    /** The completion panel is shown. */
    var completed: bool
    /** The error panel ("No module data found") is shown. */
    var failed: bool
    var progress: Option<Progress>
    var stats: StatsView

    /** The counters never disagree, the stats panel shows them, and the
        completion panel is up only past the last problem. */
    predicate Valid()
      reads this
    {
      && correctAnswers <= answeredProblems
      && stats == ShownStats(answeredProblems, correctAnswers)
      && (completed ==> current.Some? && current.value.problems.Some? && currentProblemIndex >= |current.value.problems.value|)
    }

    function State(): Screen
      reads this
    {
      Screen(current, currentProblemIndex, correctAnswers, answeredProblems, input, feedback, explanation,
             checkShown, nextShown, completed, failed, progress, stats)
    }

    predicate HasProblems()
      reads this
    {
      current.Some? && current.value.problems.Some?
    }

    function Problems(): seq<Problem>
      reads this
      requires HasProblems()
    {
      current.value.problems.value
    }

    /** The page before its module is loaded. */
    constructor()
      ensures Valid()
      ensures State() == Screen(None, 0, 0, 0, "", Blank, None, true, true, false, false, None, ShownStats(0, 0))
    {
      current := None;
      currentProblemIndex := 0;
      correctAnswers := 0;
      answeredProblems := 0;
      input := "";
      feedback := Blank;
      explanation := None;
      checkShown := true;
      nextShown := true;
      completed := false;
      failed := false;
      progress := None;
      stats := ShownStats(0, 0);
    }

    /** `loadModuleData`: the module named by the `id` parameter of the
        address, else the active module, else the error panel. Each lookup
        is a read of the cache, which evicts an expired entry. */
    method Load(saved: StorageWithTtl<seq<Module>>, active: StorageWithTtl<Module>, moduleId: Option<string>, now: int)
      requires Valid() && current == None
      modifies this, saved, active
      ensures Valid()
      ensures var asked := moduleId.Some? && moduleId.value != "";
        var byId := if asked then ModuleManager.Find(ModuleManager.AllModules(old(saved.backend), now), moduleId.value) else None;
        && current == (if byId.Some? then byId else Read(old(active.backend), ActiveModuleKey, now).result)
        && saved.backend == (if asked then Read(old(saved.backend), ModuleManager.StorageKey, now).backend else old(saved.backend))
        && active.backend == (if byId.Some? then old(active.backend) else Read(old(active.backend), ActiveModuleKey, now).backend)
      ensures failed == (old(failed) || current.None?)
      ensures progress == if HasProblems() then Some(Progress(currentProblemIndex, |Problems()|)) else old(progress)
      ensures currentProblemIndex == old(currentProblemIndex) && correctAnswers == old(correctAnswers)
      ensures answeredProblems == old(answeredProblems) && completed == old(completed)
      ensures input == old(input) && feedback == old(feedback) && explanation == old(explanation)
      ensures checkShown == old(checkShown) && nextShown == old(nextShown) && stats == old(stats)
    {
      if moduleId.Some? && moduleId.value != "" {
        current := ModuleManager.LoadModule(saved, moduleId.value, now);
      }
      if current.None? {
        current := active.GetWithTtl(ActiveModuleKey, now);
      }
      if current.None? {
        failed := true;
        return;
      }
      UpdateProgress();
    }

    /** `updateProgress`. */
    method UpdateProgress()
      requires Valid()
      modifies this
      ensures Valid()
      ensures State() == if HasProblems() then old(State()).(progress := Some(Progress(currentProblemIndex, |Problems()|))) else old(State())
    {
      if current.None? || current.value.problems.None? {
        return;
      }
      progress := Some(Progress(currentProblemIndex, |current.value.problems.value|));
    }

    /** `updateStats`. */
    method UpdateStats()
      requires correctAnswers <= answeredProblems
      modifies this
      ensures State() == old(State()).(stats := ShownStats(old(answeredProblems), old(correctAnswers)))
    {
      var accuracy := if answeredProblems > 0 then RoundHalfUpPercent(correctAnswers, answeredProblems) else 0;
      stats := StatsView(answeredProblems, correctAnswers, accuracy);
    }

    /** `displayProblem`. */
    method DisplayProblem()
      requires Valid()
      modifies this
      ensures Valid() && State() == Displayed(old(State()))
    {
      if current.None? || current.value.problems.None? {
        return;
      }
      if currentProblemIndex >= |current.value.problems.value| {
        completed := true;
        return;
      }
      input := "";
      feedback := Blank;
      explanation := None;
      checkShown := true;
      nextShown := false;
      UpdateProgress();
    }

    /** `checkAnswer`: the answer is the trimmed content of the box. */
    method CheckAnswer()
      requires Valid()
      modifies this
      ensures Valid() && State() == AfterCheck(old(State()), Trim(old(input)))
    {
      var answer := Trim(input);
      CheckTrimmed(answer);
    }

    method CheckTrimmed(answer: string)
      requires Valid()
      modifies this
      ensures Valid() && State() == AfterCheck(old(State()), answer)
    {
      if current.None? || current.value.problems.None? {
        return;
      }
      if answer == [] {
        feedback := EnterAnAnswer;
        return;
      }
      Judge(answer);
    }

    /** The part of `checkAnswer` after the blank check. */
    method Judge(answer: string)
      requires Valid() && HasProblems()
      modifies this
      ensures Valid() && State() == Judged(old(State()), answer)
    {
      if currentProblemIndex >= |current.value.problems.value| {
        return;
      }
      var problem := current.value.problems.value[currentProblemIndex];
      var isCorrect := IsAnswerCorrect(problem.answer, answer);
      Record(problem, isCorrect);
    }

    /** Counting, showing the feedback and the explanation, and swapping
        the buttons, once the answer is judged. */
    method Record(problem: Problem, isCorrect: bool)
      requires Valid()
      modifies this
      ensures Valid() && State() == Recorded(old(State()), problem, isCorrect)
    {
      answeredProblems := answeredProblems + 1;
      if isCorrect {
        correctAnswers := correctAnswers + 1;
      }
      feedback := if isCorrect then Correct else NotQuite;
      if problem.explanation != "" {
        explanation := Some(problem.explanation);
      }
      checkShown := false;
      nextShown := true;
      UpdateStats();
    }

    /** The next button. */
    method ClickNext()
      requires Valid()
      modifies this
      ensures Valid() && State() == Advanced(old(State()))
    {
      currentProblemIndex := currentProblemIndex + 1;
      DisplayProblem();
    }

    /** Enter in the answer box. */
    method PressEnter()
      requires Valid()
      modifies this
      ensures Valid() && State() == Entered(old(State()))
    {
      if checkShown {
        CheckAnswer();
      } else if nextShown {
        ClickNext();
      }
    }

    /** The restart button. */
    method Restart()
      requires Valid()
      modifies this
      ensures Valid() && State() == Restarted(old(State()))
    {
      currentProblemIndex := 0;
      correctAnswers := 0;
      answeredProblems := 0;
      completed := false;
      UpdateStats();
      DisplayProblem();
    }
  }

  /** Showing the current problem twice shows the same page as once. */
  lemma DisplayIsIdempotent(s: Screen)
    ensures Displayed(Displayed(s)) == Displayed(s)
  {
  }

  /** Next shows the following problem with an empty box, no feedback or
      explanation, Check instead of Next and the progress line moved on, and
      leaves the counters alone; after the last problem it shows the
      completion panel instead. */
  lemma AdvanceShowsNext(s: Screen)
    requires Playable(s)
    ensures var n := |s.current.value.problems.value|;
      var t := Advanced(s);
      && t.currentProblemIndex == s.currentProblemIndex + 1
      && t.answeredProblems == s.answeredProblems && t.correctAnswers == s.correctAnswers
      && (t.currentProblemIndex < n ==>
            && t.input == "" && t.feedback == Blank && t.explanation == None
            && t.checkShown && !t.nextShown && t.completed == s.completed
            && t.progress == Some(Progress(t.currentProblemIndex, n)))
      && (t.currentProblemIndex >= n ==> t == s.(currentProblemIndex := s.currentProblemIndex + 1, completed := true))
  {
  }

  /** A blank box (nothing but white space) is never counted: it only asks
      for an answer. */
  lemma BlankAnswerNotCounted(s: Screen)
    requires s.correctAnswers <= s.answeredProblems && Playable(s) && AllSpace(s.input)
    ensures AfterCheck(s, Trim(s.input)) == s.(feedback := EnterAnAnswer)
  {
    BlankAnswerIsAllSpace(s.input);
  }

  /** Checking a non-blank answer to a problem on screen counts it once and
      swaps Check for Next, so a second Enter moves on instead of counting
      the same problem again. */
  lemma CheckedOnceThenNext(s: Screen, answer: string)
    requires s.correctAnswers <= s.answeredProblems && Playable(s)
    requires s.currentProblemIndex < |s.current.value.problems.value| && answer != []
    ensures var t := AfterCheck(s, answer);
      && t.answeredProblems == s.answeredProblems + 1
      && t.correctAnswers <= t.answeredProblems
      && !t.checkShown && t.nextShown
      && Entered(t) == Advanced(t)
      && Entered(t).answeredProblems == t.answeredProblems
  {
  }

  /** Restart on a module with problems shows the first one with both
      counters and the stats panel at zero and the completion panel hidden. */
  lemma RestartShowsFirst(s: Screen)
    requires Playable(s) && |s.current.value.problems.value| > 0
    ensures var t := Restarted(s);
      && t.currentProblemIndex == 0 && t.correctAnswers == 0 && t.answeredProblems == 0
      && t.stats == StatsView(0, 0, 0) && !t.completed
      && t.input == "" && t.feedback == Blank && t.explanation == None
      && t.checkShown && !t.nextShown
      && t.progress == Some(Progress(0, |s.current.value.problems.value|))
  {
  }

  /** The answer counts as blank, and only asks for an answer, exactly
      when the box holds nothing but white space. */
  lemma BlankAnswerIsAllSpace(s: string)
    ensures Trim(s) == [] <==> AllSpace(s)
  {
    var t := TrimStart(s);
    if Trim(s) == [] {
      TrailingSpace(t);
      LeadingSpace(s);
    }
  }

  /** `Math.round(correct / answered * 100)` for `answered > 0`. */
  function RoundHalfUpPercent(correct: nat, answered: nat): (p: int)
    requires answered > 0
    ensures p == BaseGame.Accuracy(correct, answered)
  {
    JsNumber.RoundHalfUp(correct as real / answered as real * 100.0)
  }
}
