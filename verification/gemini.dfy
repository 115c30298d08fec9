/** The challenge provider and the idle-penalty backend (services/geminiService.ts).
    The remote calls are not modelled; what they return is a parameter. */
module Gemini {
  import opened Common
  import opened Types

  /** The idle penalty in thousandths (0.02). */
  const IdlePenalty: int := 20

  /** The backend's idle penalty: the score lowered by 0.02, never below zero. */
  function CalculateIdlePenalty(currentScore: int): (r: int)
    ensures r >= 0 && r >= currentScore - IdlePenalty
    ensures r == 0 || r == currentScore - IdlePenalty
    ensures currentScore >= 0 ==> r <= currentScore
  {
    Max(0, currentScore - IdlePenalty)
  }

  const MockFact: string :=
    "The AI is napping! Did you know honey never spoils? Archaeologists found pots of honey in ancient Egyptian tombs over 3,000 years old that were still edible."

  /** The fixed fallback challenge. */
  function MockChallenge(): (c: Challenge)
    ensures c.FunFact? && c.fact == MockFact
  {
    FunFact(MockFact)
  }

  /** Where the provider runs: whether an API key is configured and whether
      the code runs in a browser (where the SDK must not be loaded). */
  datatype Environment = Environment(hasApiKey: bool, inBrowser: bool)

  /** The parsed JSON of the text generation call. */
  datatype ChallengeJson =
    | JokeJson(question: string, punchline: string)
    | FunFactJson(fact: string)
    | CountingJson(imagePrompt: string, question: string, correctAnswer: int)
    | OtherJson(kind: string)

  /** What the two remote calls produced. `None` stands for a call that threw
      (network, parse, a missing image): either makes the provider fall back. */
  datatype RemoteOutcome = RemoteOutcome(text: Option<ChallengeJson>, imageBytes: Option<string>)

  const ImageUrlPrefix: string := "data:image/png;base64,"

  /** The challenge the provider resolves to. */
  function GetEngagementChallenge(env: Environment, remote: RemoteOutcome): (c: Challenge)
    // without a key, or in a browser, the mock is returned and nothing is called
    ensures !env.hasApiKey || env.inBrowser ==> c == MockChallenge()
    // a failed text call falls back
    ensures remote.text.None? ==> c == MockChallenge()
    // a counting challenge is never returned without its image
    ensures c.Counting? ==> remote.imageBytes.Some? && c.imageUrl == ImageUrlPrefix + remote.imageBytes.value
    // otherwise the generated content is passed through
    ensures env.hasApiKey && !env.inBrowser && remote.text.Some? ==>
      match remote.text.value
      case JokeJson(q, p) => c == Joke(q, p)
      case FunFactJson(f) => c == FunFact(f)
      case CountingJson(_, q, n) =>
        c == if remote.imageBytes.Some? then Counting(q, n, ImageUrlPrefix + remote.imageBytes.value) else MockChallenge()
      case OtherJson(k) => c == Unrecognized(k)
  {
    if !env.hasApiKey || env.inBrowser then MockChallenge()
    else match remote.text
      case None => MockChallenge()
      case Some(json) =>
        match json
        case CountingJson(_, question, correctAnswer) =>
          (match remote.imageBytes
           case None => MockChallenge()
           case Some(bytes) => Counting(question, correctAnswer, ImageUrlPrefix + bytes))
        case JokeJson(q, p) => Joke(q, p)
        case FunFactJson(f) => FunFact(f)
        case OtherJson(k) => Unrecognized(k)
  }

  /** Without credentials the provider always yields the fun-fact fallback,
      whatever the remote calls would have done. */
  lemma NoCredentialsAlwaysMock(inBrowser: bool, remote: RemoteOutcome)
    ensures GetEngagementChallenge(Environment(false, inBrowser), remote).FunFact?
    ensures GetEngagementChallenge(Environment(false, inBrowser), remote).fact == MockFact
  {
  }
}
