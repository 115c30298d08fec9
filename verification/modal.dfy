/** The intervention modal (components/EngagementChallengeModal.tsx): the
    counting, joke and fun-fact interactions, the loading state and the
    dispatch on the challenge type. A completion is the value handed to
    `onComplete`, which is the coordinator's close handler. The answer typed
    into the counting form is given already parsed: `None` stands for the
    NaN that `parseInt` yields on text that is not a number. */
module ChallengeModal {
  import opened Common
  import opened Types

  // ---------------------------------------------------------------------------
  // Counting

  datatype SubmitOutcome = SubmitOutcome(isCorrect: Option<bool>, completion: Option<bool>)

  /** CountingUI.handleSubmit: the first submit records whether the answer is
      right and completes with that value; later submits are ignored. */
  function AfterSubmit(isCorrect: Option<bool>, answer: Option<int>, correctAnswer: int): (o: SubmitOutcome)
    ensures isCorrect.Some? ==> o == SubmitOutcome(isCorrect, None)
    ensures isCorrect.None? ==> o.isCorrect == Some(answer == Some(correctAnswer))
    ensures isCorrect.None? ==> o.completion == o.isCorrect
  {
    if isCorrect.Some? then SubmitOutcome(isCorrect, None)
    else
      var success := answer == Some(correctAnswer);
      SubmitOutcome(Some(success), Some(success))
  }

  datatype SubmitRun = SubmitRun(isCorrect: Option<bool>, completions: seq<bool>)

  /** A series of submits, in order. */
  function RunSubmits(isCorrect: Option<bool>, answers: seq<Option<int>>, correctAnswer: int): SubmitRun
    decreases |answers|
  {
    if answers == [] then SubmitRun(isCorrect, [])
    else
      var o := AfterSubmit(isCorrect, answers[0], correctAnswer);
      var rest := RunSubmits(o.isCorrect, answers[1..], correctAnswer);
      SubmitRun(rest.isCorrect, (if o.completion.Some? then [o.completion.value] else []) + rest.completions)
  }

  /** Once answered, nothing a later submit does changes the outcome. */
  lemma {:induction false} AnsweredStaysAnswered(isCorrect: Option<bool>, answers: seq<Option<int>>, correctAnswer: int)
    requires isCorrect.Some?
    ensures RunSubmits(isCorrect, answers, correctAnswer) == SubmitRun(isCorrect, [])
    decreases |answers|
  {
    if answers != [] {
      AnsweredStaysAnswered(isCorrect, answers[1..], correctAnswer);
    }
  }

  /** However often the form is submitted, the challenge completes exactly
      once, with the verdict on the first answer, and that verdict is what
      stays recorded. */
  lemma CountingCompletesOnce(answers: seq<Option<int>>, correctAnswer: int)
    requires answers != []
    ensures RunSubmits(None, answers, correctAnswer) ==
      SubmitRun(Some(answers[0] == Some(correctAnswer)), [answers[0] == Some(correctAnswer)])
  {
    AnsweredStaysAnswered(Some(answers[0] == Some(correctAnswer)), answers[1..], correctAnswer);
  }

  class CountingUI {
    const correctAnswer: int
    var isCorrect: Option<bool>

    constructor (correctAnswer: int)
      ensures this.correctAnswer == correctAnswer && isCorrect.None?
    {
      this.correctAnswer := correctAnswer;
      isCorrect := None;
    }

    method HandleSubmit(answer: Option<int>) returns (completion: Option<bool>)
      modifies this
      ensures SubmitOutcome(isCorrect, completion) == AfterSubmit(old(isCorrect), answer, correctAnswer)
    {
      if isCorrect.Some? {
        return None;
      }
      var success := answer == Some(correctAnswer);
      isCorrect := Some(success);
      completion := Some(success);
    }
  }

  // ---------------------------------------------------------------------------
  // Joke and fun fact

  datatype ClickOutcome = ClickOutcome(showPunchline: bool, completion: Option<bool>)

  /** JokeUI's button: the first click reveals the punchline, the next completes. */
  function AfterJokeClick(showPunchline: bool): (o: ClickOutcome)
    ensures o.showPunchline
    ensures !showPunchline ==> o.completion.None?
    ensures showPunchline ==> o.completion == Some(true)
  {
    if !showPunchline then ClickOutcome(true, None) else ClickOutcome(true, Some(true))
  }

  /** The completions of a series of clicks on the joke. */
  function RunJokeClicks(showPunchline: bool, clicks: nat): seq<bool>
    decreases clicks
  {
    if clicks == 0 then []
    else
      var o := AfterJokeClick(showPunchline);
      (if o.completion.Some? then [o.completion.value] else []) + RunJokeClicks(o.showPunchline, clicks - 1)
  }

  /** From a fresh joke, the first click completes nothing and every later click
      completes with success: a joke cannot be failed. */
  lemma {:induction false} JokeNeverFails(showPunchline: bool, clicks: nat)
    ensures var r := RunJokeClicks(showPunchline, clicks);
      |r| == (if showPunchline || clicks == 0 then clicks else clicks - 1) &&
      forall i :: 0 <= i < |r| ==> r[i]
    decreases clicks
  {
    if clicks > 0 {
      JokeNeverFails(true, clicks - 1);
    }
  }

  class JokeUI {
    var showPunchline: bool

    constructor ()
      ensures !showPunchline
    {
      showPunchline := false;
    }

    method Click() returns (completion: Option<bool>)
      modifies this
      ensures ClickOutcome(showPunchline, completion) == AfterJokeClick(old(showPunchline))
    {
      if !showPunchline {
        showPunchline := true;
        completion := None;
      } else {
        completion := Some(true);
      }
    }
  }

  /** FunFactUI's button completes with success. */
  function FunFactClick(): (completion: Option<bool>)
    ensures completion == Some(true)
  {
    Some(true)
  }

  // ---------------------------------------------------------------------------
  // The modal

  /** What the modal shows. */
  datatype View =
    | Nothing
    | Spinner
    | EmptyBody
    | CountingView(counting: Challenge)
    | JokeView(joke: Challenge)
    | FunFactView(funFact: Challenge)
    | ErrorMessage

  function RenderBody(challenge: Option<Challenge>): View
  {
    match challenge
    case None => EmptyBody
    case Some(c) =>
      match c
      case Counting(_, _, _) => CountingView(c)
      case Joke(_, _) => JokeView(c)
      case FunFact(_) => FunFactView(c)
      case Unrecognized(_) => ErrorMessage
  }

  /** The modal's rendering: nothing while closed, a spinner while loading,
      then the interaction matching the challenge's type. */
  function Render(isOpen: bool, isLoading: bool, challenge: Option<Challenge>): (v: View)
    ensures !isOpen <==> v == Nothing
    ensures isOpen && isLoading <==> v == Spinner
    ensures v.CountingView? ==> challenge == Some(v.counting) && v.counting.Counting?
    ensures v.JokeView? ==> challenge == Some(v.joke) && v.joke.Joke?
    ensures v.FunFactView? ==> challenge == Some(v.funFact) && v.funFact.FunFact?
    ensures isOpen && !isLoading ==>
      match challenge
      case None => v == EmptyBody
      case Some(c) =>
        (c.Counting? <==> v.CountingView?) && (c.Joke? <==> v.JokeView?) &&
        (c.FunFact? <==> v.FunFactView?) && (c.Unrecognized? <==> v == ErrorMessage)
  {
    if !isOpen then Nothing
    else if isLoading then Spinner
    else RenderBody(challenge)
  }

  datatype Icon = EyeIcon | SparkleIcon | LightbulbIcon

  /** getIcon: no icon for a challenge of an unknown type. */
  function GetIcon(challenge: Option<Challenge>): (i: Option<Icon>)
    ensures challenge.None? ==> i == Some(EyeIcon)
    ensures challenge.Some? && challenge.value.Counting? ==> i == Some(EyeIcon)
    ensures challenge.Some? && challenge.value.Joke? ==> i == Some(SparkleIcon)
    ensures challenge.Some? && challenge.value.FunFact? ==> i == Some(LightbulbIcon)
    ensures i.None? <==> challenge.Some? && challenge.value.Unrecognized?
  {
    match challenge
    case None => Some(EyeIcon)
    case Some(c) =>
      match c
      case Counting(_, _, _) => Some(EyeIcon)
      case Joke(_, _) => Some(SparkleIcon)
      case FunFact(_) => Some(LightbulbIcon)
      case Unrecognized(_) => None
  }

  class EngagementChallengeModal {
    var isLoading: bool
    var challenge: Option<Challenge>

    constructor ()
      ensures isLoading && challenge.None?
    {
      isLoading := true;
      challenge := None;
    }

    /** The effect run when the modal opens: loading until the provider answers. */
    method Open()
      modifies this
      ensures isLoading && challenge == old(challenge)
    {
      isLoading := true;
    }

    /** The provider's answer arrives. */
    method Resolve(result: Challenge)
      modifies this
      ensures !isLoading && challenge == Some(result)
    {
      challenge := Some(result);
      isLoading := false;
    }
  }
}
