/** The data types shared by the components (types.ts). Scores are integers
    in thousandths: 1000 stands for an engagement of 1.0. */
module Types {

  /** The phase the session timer reports to its parent. */
  datatype PomodoroState = Stopped | Focus | Break | Paused

  /** One sample of the engagement history: a time in milliseconds and a score in thousandths. */
  datatype EngagementRecord = EngagementRecord(time: int, score: int)

  /** The unlock test of an achievement over (points, completed sessions).
      Every catalog entry tests one of the two counters against a minimum. */
  datatype Condition = PointsAtLeast(minPoints: nat) | SessionsAtLeast(minSessions: nat)

  /** An achievement without its icon, which is view code. */
  datatype Achievement = Achievement(id: string, name: string, description: string, condition: Condition)

  /** The challenge shown when engagement drops. `Unrecognized` stands for a
      generated object whose type tag is none of the three: the provider returns
      it unchecked and the modal has a fallback branch for it. */
  datatype Challenge =
    | Joke(question: string, punchline: string)
    | FunFact(fact: string)
    | Counting(question: string, correctAnswer: int, imageUrl: string)
    | Unrecognized(kind: string)
}
