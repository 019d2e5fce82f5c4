/**
  The quiz session: the state `QuestionScreen` keeps (remaining pool, current
  question, score, progress index, answer text, game-over flag) and its
  transitions `createQuestions` + `pickQuestion` on appearance, `pickQuestion`
  alone, and `didSubmit`. Randomness is a parameter: `order` for the display
  coin flips and `draws` for the shuffle.
 */
module Sessions {
  import opened IntParse
  import opened Shuffling
  import opened Questions

  datatype Session = Session(
    pool: seq<Question>,
    current: Question,
    score: int,
    index: int,
    answer: string,
    gameOver: bool)

  /** A transition either completes or hits the runtime trap of `removeFirst` on an empty pool. */
  datatype Outcome = Running(session: Session) | Trapped

  /** `removeFirst`: the front question and the rest; defined only on a non-empty pool. */
  function Draw(pool: seq<Question>): (r: (Question, seq<Question>))
    requires |pool| > 0
    ensures [r.0] + r.1 == pool
  {
    (pool[0], pool[1..])
  }

  /** `pickQuestion`: shuffle the remaining pool, then move its first question into `current`. */
  function Pick(s: Session, draws: seq<nat>): (r: Outcome)
    ensures r.Trapped? <==> |s.pool| == 0
    ensures r.Running? ==>
      && r.session.score == s.score
      && r.session.index == s.index
      && r.session.answer == s.answer
      && r.session.gameOver == s.gameOver
      && |r.session.pool| == |s.pool| - 1
      && r.session.current in s.pool
      && multiset([r.session.current] + r.session.pool) == multiset(s.pool)
  {
    var shuffled := Shuffle(s.pool, draws);
    ShufflePermutes(s.pool, draws);
    if |shuffled| == 0 then
      Trapped
    else
      var (q, rest) := Draw(shuffled);
      Running(s.(current := q, pool := rest))
  }

  /**
    The screen's initial state (empty pool, placeholder question 1 x 1, score 0,
    index 1, empty text) followed by the appearance sequence
    `createQuestions()`, `pickQuestion()`. The `1...tablesUpTo` range needs
    `tablesUpTo >= 1`; with it the pool is never empty, so the first draw
    succeeds.
   */
  function Start(tablesUpTo: int, order: (int, int) -> bool, draws: seq<nat>): (s: Session)
    requires tablesUpTo >= 1
    ensures s.score == 0 && s.index == 1 && s.answer == "" && !s.gameOver
    ensures |s.pool| == tablesUpTo * 12 - 1
    ensures multiset([s.current] + s.pool) == multiset(Grid(tablesUpTo, order))
  {
    var initial := Session([], Question(1, 1, order(1, 1)), 0, 1, "", false);
    var created := initial.(pool := CreateQuestions([], tablesUpTo, order));
    assert created.pool == Grid(tablesUpTo, order);
    var picked := Pick(created, draws);
    picked.session
  }

  /**
    `didSubmit`: ignore text that is not an integer; otherwise grade it against
    the current question, draw the next question, clear the text, advance the
    index and raise game over exactly when the new index equals
    `numberOfQuestions`.
   */
  function Submit(s: Session, numberOfQuestions: int, draws: seq<nat>): (r: Outcome)
    ensures ParseInt(s.answer).None? ==> r == Running(s)
    ensures ParseInt(s.answer).Some? ==> (r.Trapped? <==> |s.pool| == 0)
    ensures ParseInt(s.answer).Some? && r.Running? ==>
      && r.session.score == (if ParseInt(s.answer).value == s.current.Answer() then s.score + 1 else s.score - 1)
      && r.session.index == s.index + 1
      && r.session.answer == ""
      && (r.session.gameOver <==> r.session.index == numberOfQuestions)
      && r.session.current in s.pool
      && |r.session.pool| == |s.pool| - 1
      && multiset([r.session.current] + r.session.pool) == multiset(s.pool)
  {
    match ParseInt(s.answer)
    case None => Running(s)
    case Some(given) =>
      var graded := s.(score := if given == s.current.Answer() then s.score + 1 else s.score - 1);
      match Pick(graded, draws)
      case Trapped => Trapped
      case Running(next) =>
        var index := next.index + 1;
        Running(next.(answer := "", index := index, gameOver := numberOfQuestions == index))
  }

  /** Typing the rendered answer into the field and submitting scores exactly one point. */
  lemma CorrectAnswerScores(s: Session, numberOfQuestions: int, draws: seq<nat>)
    requires |s.pool| > 0
    ensures Submit(s.(answer := Render(s.current.Answer())), numberOfQuestions, draws).Running?
      && Submit(s.(answer := Render(s.current.Answer())), numberOfQuestions, draws).session.score == s.score + 1
  {
    ParseRender(s.current.Answer());
  }

  /** Submitting any other integer costs exactly one point, however low the score already is. */
  lemma WrongAnswerCosts(s: Session, numberOfQuestions: int, draws: seq<nat>, given: int)
    requires |s.pool| > 0 && given != s.current.Answer()
    ensures Submit(s.(answer := Render(given)), numberOfQuestions, draws).Running?
      && Submit(s.(answer := Render(given)), numberOfQuestions, draws).session.score == s.score - 1
  {
    ParseRender(given);
  }
}
