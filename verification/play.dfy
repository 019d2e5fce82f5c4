/**
  Whole sessions: a sequence of user attempts (type text, tap Submit) applied
  to the session from `Start`. The "Game over!" alert is modal and its only
  button closes the screen, so a run stops at the first game-over state.
 */
module Play {
  import opened IntParse
  import opened Questions
  import opened Sessions

  /** Type `text` into the answer field, then tap Submit; `draws` feed that submission's shuffle. */
  datatype Attempt = Attempt(text: string, draws: seq<nat>)

  /** The outcome of a run and the questions its submissions drew, in order. */
  datatype Trace = Trace(outcome: Outcome, drawn: seq<Question>)

  /** An attempt whose text is an integer, so `didSubmit` acts on it. */
  predicate Valid(a: Attempt) {
    ParseInt(a.text).Some?
  }

  /** The number of attempts whose text is an integer. */
  function CountValid(attempts: seq<Attempt>): nat
    decreases |attempts|
  {
    if |attempts| == 0 then 0
    else (if Valid(attempts[0]) then 1 else 0) + CountValid(attempts[1..])
  }

  function Min(a: int, b: int): int {
    if a <= b then a else b
  }

  /**
    One attempt: the text lands in the answer field, then Submit calls
    `didSubmit`. Text that is not an integer only stays in the field; an
    integer is graded and, unless the pool is empty, advances the session by
    one question.
   */
  function Step(s: Session, numberOfQuestions: int, a: Attempt): (r: Outcome)
    ensures !Valid(a) ==> r == Running(s.(answer := a.text))
    ensures Valid(a) ==> (r.Trapped? <==> |s.pool| == 0)
    ensures Valid(a) && r.Running? ==>
      && r.session.index == s.index + 1
      && r.session.answer == ""
      && (r.session.gameOver <==> r.session.index == numberOfQuestions)
      && |r.session.pool| == |s.pool| - 1
  {
    Submit(s.(answer := a.text), numberOfQuestions, a.draws)
  }

  /**
    Attempts applied one after another. The run stops at the first game-over
    state: the alert is modal and its only button closes the screen, so no
    submission follows it. Every valid submission draws one question and
    advances the index by one; an invalid one does neither.
   */
  function Run(s: Session, numberOfQuestions: int, attempts: seq<Attempt>): (r: Trace)
    ensures s.gameOver ==> r.outcome == Running(s) && r.drawn == []
    ensures |r.drawn| <= CountValid(attempts)
    ensures r.outcome.Running? ==> r.outcome.session.index == s.index + |r.drawn|
    ensures r.outcome.Running? && !r.outcome.session.gameOver ==> |r.drawn| == CountValid(attempts)
    decreases |attempts|
  {
    if |attempts| == 0 || s.gameOver then
      Trace(Running(s), [])
    else
      var a := attempts[0];
      match Step(s, numberOfQuestions, a)
      case Trapped => Trace(Trapped, [])
      case Running(next) =>
        var rest := Run(next, numberOfQuestions, attempts[1..]);
        Trace(rest.outcome, (if Valid(a) then [next.current] else []) + rest.drawn)
  }

  /**
    A whole session opened from the main screen with `tablesUpTo` tables and
    `numberOfQuestions` questions: every question it draws is one the nested
    loops created, and the index counts the questions shown so far.
   */
  function FromStart(
    tablesUpTo: int, numberOfQuestions: int, order: (int, int) -> bool, draws: seq<nat>, attempts: seq<Attempt>): (r: Trace)
    requires tablesUpTo >= 1
    ensures forall q :: q in r.drawn ==> InGrid(q, tablesUpTo, order)
    ensures r.outcome.Running? ==> r.outcome.session.index == 1 + |r.drawn|
  {
    var s := Start(tablesUpTo, order, draws);
    var r := Run(s, numberOfQuestions, attempts);
    DrawnFromPool(s, numberOfQuestions, attempts);
    DrawnWithinGrid(s, tablesUpTo, order, r);
    r
  }

  /** The questions a session shows: the first one `onAppear` drew, then one per valid submission. */
  function Asked(
    tablesUpTo: int, numberOfQuestions: int, order: (int, int) -> bool, draws: seq<nat>, attempts: seq<Attempt>): seq<Question>
    requires tablesUpTo >= 1
  {
    [Start(tablesUpTo, order, draws).current] + FromStart(tablesUpTo, numberOfQuestions, order, draws, attempts).drawn
  }

  /** How many submissions the valid attempts make from `s` before game over stops the run. */
  function Submissions(s: Session, numberOfQuestions: int, attempts: seq<Attempt>): int {
    Min(CountValid(attempts), numberOfQuestions - s.index)
  }

  /**
    What holds between submissions of a session configured with `tablesUpTo`
    and `numberOfQuestions`: the index is within `1..numberOfQuestions`, game
    over is flagged exactly at the last index, every index step consumed one
    question of the `tablesUpTo * 12` created, and each step moved the score
    by one.
   */
  ghost predicate Inv(s: Session, tablesUpTo: int, numberOfQuestions: int) {
    && 1 <= s.index <= numberOfQuestions
    && (s.gameOver <==> s.index == numberOfQuestions)
    && s.index + |s.pool| == tablesUpTo * 12
    && -(s.index - 1) <= s.score <= s.index - 1
  }

  lemma StartEstablishesInv(tablesUpTo: int, numberOfQuestions: int, order: (int, int) -> bool, draws: seq<nat>)
    requires tablesUpTo >= 1 && numberOfQuestions >= 2
    ensures Inv(Start(tablesUpTo, order, draws), tablesUpTo, numberOfQuestions)
  {
  }

  /** While the pool is large enough for the configuration, a submission before game over never traps. */
  lemma SubmitKeepsInv(s: Session, tablesUpTo: int, numberOfQuestions: int, draws: seq<nat>)
    requires Inv(s, tablesUpTo, numberOfQuestions) && !s.gameOver
    requires numberOfQuestions <= tablesUpTo * 12
    ensures Submit(s, numberOfQuestions, draws).Running?
      && Inv(Submit(s, numberOfQuestions, draws).session, tablesUpTo, numberOfQuestions)
  {
  }

  lemma {:induction false} RunKeepsInv(s: Session, tablesUpTo: int, numberOfQuestions: int, attempts: seq<Attempt>)
    requires Inv(s, tablesUpTo, numberOfQuestions)
    requires numberOfQuestions <= tablesUpTo * 12
    ensures Run(s, numberOfQuestions, attempts).outcome.Running?
      && Inv(Run(s, numberOfQuestions, attempts).outcome.session, tablesUpTo, numberOfQuestions)
    decreases |attempts|
  {
    if |attempts| > 0 && !s.gameOver {
      var a := attempts[0];
      SubmitKeepsInv(s.(answer := a.text), tablesUpTo, numberOfQuestions, a.draws);
      RunKeepsInv(Step(s, numberOfQuestions, a).session, tablesUpTo, numberOfQuestions, attempts[1..]);
    }
  }

  /**
    With `numberOfQuestions <= tablesUpTo * 12` no draw made before game over
    finds an empty pool, whatever the user types and however the pool is
    shuffled; the final score is at most one point per submission.
   */
  lemma NeverTrapsWhenPoolSuffices(
    tablesUpTo: int, numberOfQuestions: int, order: (int, int) -> bool, draws: seq<nat>, attempts: seq<Attempt>)
    requires 1 <= tablesUpTo && 2 <= numberOfQuestions <= tablesUpTo * 12
    ensures FromStart(tablesUpTo, numberOfQuestions, order, draws, attempts).outcome.Running?
      && (FromStart(tablesUpTo, numberOfQuestions, order, draws, attempts).outcome.session.gameOver ==>
          FromStart(tablesUpTo, numberOfQuestions, order, draws, attempts).outcome.session.score <= numberOfQuestions - 1)
  {
    StartEstablishesInv(tablesUpTo, numberOfQuestions, order, draws);
    RunKeepsInv(Start(tablesUpTo, order, draws), tablesUpTo, numberOfQuestions, attempts);
  }

  /** Of the configurations the main screen offers, only one table with 20 questions can trap. */
  lemma MenuConfigurationsNeverTrap(
    tablesUpTo: int, numberOfQuestions: int, order: (int, int) -> bool, draws: seq<nat>, attempts: seq<Attempt>)
    requires 1 <= tablesUpTo <= 12
    requires numberOfQuestions == 5 || numberOfQuestions == 10 || numberOfQuestions == 20
    requires !(tablesUpTo == 1 && numberOfQuestions == 20)
    ensures FromStart(tablesUpTo, numberOfQuestions, order, draws, attempts).outcome.Running?
  {
    NeverTrapsWhenPoolSuffices(tablesUpTo, numberOfQuestions, order, draws, attempts);
  }

  /** One step of a run that does not end it: the run continues from the state `next` the submission left. */
  lemma RunStep(s: Session, numberOfQuestions: int, attempts: seq<Attempt>, next: Session)
    requires |attempts| > 0 && !s.gameOver
    requires Step(s, numberOfQuestions, attempts[0]) == Running(next)
    ensures Run(s, numberOfQuestions, attempts)
         == Trace(Run(next, numberOfQuestions, attempts[1..]).outcome,
                  (if Valid(attempts[0]) then [next.current] else []) + Run(next, numberOfQuestions, attempts[1..]).drawn)
  {
  }

  /**
    Attempts from a state before game over: the valid ones make
    `Submissions` submissions, stopping at game over; the invalid ones change
    nothing. When the remaining pool holds that many questions, none traps,
    the index and the pool move by that many, as many questions were drawn,
    and game over holds exactly when the valid attempts reached the
    configured count.
   */
  lemma {:induction false} RunProgress(s: Session, numberOfQuestions: int, attempts: seq<Attempt>)
    requires !s.gameOver && s.index < numberOfQuestions
    requires Submissions(s, numberOfQuestions, attempts) <= |s.pool|
    ensures Run(s, numberOfQuestions, attempts).outcome.Running?
      && Run(s, numberOfQuestions, attempts).outcome.session.index
         == s.index + Submissions(s, numberOfQuestions, attempts)
      && |Run(s, numberOfQuestions, attempts).outcome.session.pool|
         == |s.pool| - Submissions(s, numberOfQuestions, attempts)
      && (Run(s, numberOfQuestions, attempts).outcome.session.gameOver
          <==> s.index + CountValid(attempts) >= numberOfQuestions)
    ensures |Run(s, numberOfQuestions, attempts).drawn| == Submissions(s, numberOfQuestions, attempts)
    decreases |attempts|
  {
    if |attempts| > 0 {
      var o := Step(s, numberOfQuestions, attempts[0]);
      assert o.Running?;
      RunStep(s, numberOfQuestions, attempts, o.session);
      if !o.session.gameOver {
        RunProgress(o.session, numberOfQuestions, attempts[1..]);
      }
    }
  }

  /** Valid submissions that need more questions than the pool holds, before game over, end in the trap. */
  lemma {:induction false} RunTraps(s: Session, numberOfQuestions: int, attempts: seq<Attempt>)
    requires !s.gameOver && s.index < numberOfQuestions
    requires Submissions(s, numberOfQuestions, attempts) > |s.pool|
    ensures Run(s, numberOfQuestions, attempts).outcome.Trapped?
    decreases |attempts|
  {
    var o := Step(s, numberOfQuestions, attempts[0]);
    if o.Running? {
      RunStep(s, numberOfQuestions, attempts, o.session);
      RunTraps(o.session, numberOfQuestions, attempts[1..]);
    }
  }

  /** The state `Start` leaves: index 1, no game over, `tablesUpTo * 12 - 1` questions left. */
  ghost predicate Fresh(s: Session, tablesUpTo: int) {
    s.index == 1 && !s.gameOver && |s.pool| == tablesUpTo * 12 - 1
  }

  lemma StartIsFresh(tablesUpTo: int, order: (int, int) -> bool, draws: seq<nat>)
    requires tablesUpTo >= 1
    ensures Fresh(Start(tablesUpTo, order, draws), tablesUpTo)
  {
  }

  lemma FreshGameOverAfterOneFewer(s: Session, tablesUpTo: int, numberOfQuestions: int, attempts: seq<Attempt>)
    requires Fresh(s, tablesUpTo) && 2 <= numberOfQuestions <= tablesUpTo * 12
    ensures Run(s, numberOfQuestions, attempts).outcome.Running?
      && (Run(s, numberOfQuestions, attempts).outcome.session.gameOver
          <==> CountValid(attempts) >= numberOfQuestions - 1)
      && Run(s, numberOfQuestions, attempts).outcome.session.index
         == Min(1 + CountValid(attempts), numberOfQuestions)
  {
    RunProgress(s, numberOfQuestions, attempts);
  }

  /**
    From the start, with enough questions in the pool, game over is raised
    after `numberOfQuestions - 1` valid submissions, not after
    `numberOfQuestions`: the index starts at 1 and is tested after it is
    incremented. Attempts whose text is not an integer do not count.
   */
  lemma GameOverAfterOneFewer(
    tablesUpTo: int, numberOfQuestions: int, order: (int, int) -> bool, draws: seq<nat>, attempts: seq<Attempt>)
    requires 1 <= tablesUpTo && 2 <= numberOfQuestions <= tablesUpTo * 12
    ensures FromStart(tablesUpTo, numberOfQuestions, order, draws, attempts).outcome.Running?
      && (FromStart(tablesUpTo, numberOfQuestions, order, draws, attempts).outcome.session.gameOver
          <==> CountValid(attempts) >= numberOfQuestions - 1)
      && FromStart(tablesUpTo, numberOfQuestions, order, draws, attempts).outcome.session.index
         == Min(1 + CountValid(attempts), numberOfQuestions)
  {
    StartIsFresh(tablesUpTo, order, draws);
    FreshGameOverAfterOneFewer(Start(tablesUpTo, order, draws), tablesUpTo, numberOfQuestions, attempts);
  }

  /**
    One table and twenty questions: eleven valid submissions empty the pool
    without ending the game, and the twelfth traps in `removeFirst`.
   */
  lemma OneTableTwentyQuestionsTraps(order: (int, int) -> bool, draws: seq<nat>, attempts: seq<Attempt>)
    ensures CountValid(attempts) == 11 ==>
      && FromStart(1, 20, order, draws, attempts).outcome.Running?
      && FromStart(1, 20, order, draws, attempts).outcome.session.pool == []
      && !FromStart(1, 20, order, draws, attempts).outcome.session.gameOver
    ensures CountValid(attempts) >= 12 ==> FromStart(1, 20, order, draws, attempts).outcome.Trapped?
  {
    StartIsFresh(1, order, draws);
    FreshOneTableTwentyQuestions(Start(1, order, draws), attempts);
  }

  lemma FreshOneTableTwentyQuestions(s: Session, attempts: seq<Attempt>)
    requires Fresh(s, 1)
    ensures CountValid(attempts) == 11 ==>
      && Run(s, 20, attempts).outcome.Running?
      && Run(s, 20, attempts).outcome.session.pool == []
      && !Run(s, 20, attempts).outcome.session.gameOver
    ensures CountValid(attempts) >= 12 ==> Run(s, 20, attempts).outcome.Trapped?
  {
    if CountValid(attempts) == 11 {
      RunProgress(s, 20, attempts);
    } else if CountValid(attempts) >= 12 {
      RunTraps(s, 20, attempts);
    }
  }

  lemma ConsFromPool<T>(x: T, drawn: seq<T>, rest: seq<T>, left: seq<T>, pool: seq<T>)
    requires multiset([x] + rest) == multiset(pool)
    requires multiset(drawn) <= multiset(rest)
    ensures multiset([x] + drawn) <= multiset(pool)
    ensures multiset(drawn) + multiset(left) == multiset(rest) ==>
      multiset([x] + drawn) + multiset(left) == multiset(pool)
  {
    assert multiset([x] + rest) == multiset{x} + multiset(rest);
    assert multiset([x] + drawn) == multiset{x} + multiset(drawn);
  }

  /** A run's draws against its starting pool: none drawn twice more than it was there, the rest left over. */
  ghost predicate DrawnWithin(s: Session, r: Trace) {
    && multiset(r.drawn) <= multiset(s.pool)
    && (r.outcome.Running? ==> multiset(r.drawn) + multiset(r.outcome.session.pool) == multiset(s.pool))
  }

  lemma DrawnAfterValid(s: Session, next: Session, rest: Trace, r: Trace)
    requires multiset([next.current] + next.pool) == multiset(s.pool)
    requires DrawnWithin(next, rest)
    requires r == Trace(rest.outcome, [next.current] + rest.drawn)
    ensures DrawnWithin(s, r)
  {
    ConsFromPool(next.current, rest.drawn, next.pool,
      if rest.outcome.Running? then rest.outcome.session.pool else [], s.pool);
  }

  lemma DrawnAfterInvalid(s: Session, next: Session, rest: Trace, r: Trace)
    requires next.pool == s.pool
    requires DrawnWithin(next, rest)
    requires r == Trace(rest.outcome, [] + rest.drawn)
    ensures DrawnWithin(s, r)
  {
    assert [] + rest.drawn == rest.drawn;
  }

  lemma DrawnStep(s: Session, numberOfQuestions: int, attempts: seq<Attempt>, next: Session)
    requires |attempts| > 0 && !s.gameOver
    requires Step(s, numberOfQuestions, attempts[0]) == Running(next)
    requires DrawnWithin(next, Run(next, numberOfQuestions, attempts[1..]))
    ensures DrawnWithin(s, Run(s, numberOfQuestions, attempts))
  {
    RunStep(s, numberOfQuestions, attempts, next);
    var rest := Run(next, numberOfQuestions, attempts[1..]);
    if Valid(attempts[0]) {
      DrawnAfterValid(s, next, rest, Run(s, numberOfQuestions, attempts));
    } else {
      DrawnAfterInvalid(s, next, rest, Run(s, numberOfQuestions, attempts));
    }
  }

  /** Every question a run draws came out of the pool it started with, each at most as often as it was there. */
  lemma {:induction false} DrawnFromPool(s: Session, numberOfQuestions: int, attempts: seq<Attempt>)
    ensures DrawnWithin(s, Run(s, numberOfQuestions, attempts))
    decreases |attempts|
  {
    if |attempts| > 0 && !s.gameOver {
      var o := Step(s, numberOfQuestions, attempts[0]);
      if o.Running? {
        DrawnFromPool(o.session, numberOfQuestions, attempts[1..]);
        DrawnStep(s, numberOfQuestions, attempts, o.session);
      }
    }
  }

  /** Questions drawn from a pool that held exactly the created questions are questions of the grid. */
  lemma DrawnWithinGrid(s: Session, tablesUpTo: nat, order: (int, int) -> bool, r: Trace)
    requires multiset([s.current] + s.pool) == multiset(Grid(tablesUpTo, order))
    requires DrawnWithin(s, r)
    ensures forall q :: q in r.drawn ==> InGrid(q, tablesUpTo, order)
  {
    forall q | q in r.drawn
      ensures InGrid(q, tablesUpTo, order)
    {
      assert q in multiset(r.drawn);
      assert q in multiset(s.pool);
      assert q in multiset([s.current] + s.pool);
      assert q in multiset(Grid(tablesUpTo, order));
    }
  }

  /** A question on screen is never drawn again: the questions shown in a run are pairwise distinct. */
  lemma NoQuestionRepeats(s: Session, numberOfQuestions: int, attempts: seq<Attempt>)
    requires NoDuplicates([s.current] + s.pool)
    ensures NoDuplicates([s.current] + Run(s, numberOfQuestions, attempts).drawn)
  {
    var drawn := Run(s, numberOfQuestions, attempts).drawn;
    DrawnFromPool(s, numberOfQuestions, attempts);
    assert multiset([s.current] + drawn) == multiset{s.current} + multiset(drawn);
    assert multiset([s.current] + s.pool) == multiset{s.current} + multiset(s.pool);
    forall q
      ensures multiset([s.current] + drawn)[q] <= 1
    {
      assert multiset([s.current] + drawn)[q] <= multiset([s.current] + s.pool)[q];
    }
  }

  /** Within a session started on the main screen, no question is asked twice. */
  lemma SessionNeverRepeats(
    tablesUpTo: int, numberOfQuestions: int, order: (int, int) -> bool, draws: seq<nat>, attempts: seq<Attempt>)
    requires tablesUpTo >= 1
    ensures NoDuplicates(Asked(tablesUpTo, numberOfQuestions, order, draws, attempts))
  {
    StartHasNoDuplicates(tablesUpTo, order, draws);
    NoQuestionRepeats(Start(tablesUpTo, order, draws), numberOfQuestions, attempts);
  }

  /**
    Never asked again, as the user sees it: no two questions of a session
    pair the same table with the same multiplier, whichever order their
    operands are shown in.
   */
  lemma AskedPairsDistinct(
    tablesUpTo: int, numberOfQuestions: int, order: (int, int) -> bool, draws: seq<nat>, attempts: seq<Attempt>)
    requires tablesUpTo >= 1
    ensures forall i, j :: 0 <= i < j < |Asked(tablesUpTo, numberOfQuestions, order, draws, attempts)| ==>
      (Asked(tablesUpTo, numberOfQuestions, order, draws, attempts)[i].number,
       Asked(tablesUpTo, numberOfQuestions, order, draws, attempts)[i].multiplyBy)
      != (Asked(tablesUpTo, numberOfQuestions, order, draws, attempts)[j].number,
          Asked(tablesUpTo, numberOfQuestions, order, draws, attempts)[j].multiplyBy)
  {
    var xs := Asked(tablesUpTo, numberOfQuestions, order, draws, attempts);
    var s := Start(tablesUpTo, order, draws);
    SessionNeverRepeats(tablesUpTo, numberOfQuestions, order, draws, attempts);
    assert s.current in multiset([s.current] + s.pool);
    assert s.current in Grid(tablesUpTo, order);
    forall i, j | 0 <= i < j < |xs|
      ensures (xs[i].number, xs[i].multiplyBy) != (xs[j].number, xs[j].multiplyBy)
    {
      assert InGrid(xs[i], tablesUpTo, order) && InGrid(xs[j], tablesUpTo, order);
      NoDuplicatesDistinct(xs, i, j);
    }
  }

  /** The current question and the pool after `Start` are the created questions, so none occurs twice. */
  lemma StartHasNoDuplicates(tablesUpTo: int, order: (int, int) -> bool, draws: seq<nat>)
    requires tablesUpTo >= 1
    ensures NoDuplicates([Start(tablesUpTo, order, draws).current] + Start(tablesUpTo, order, draws).pool)
  {
    OrderedHasNoDuplicates(Grid(tablesUpTo, order));
  }

  /**
    Twelve tables, twenty questions, at least nineteen answers that are
    integers: the pool of 144 never runs dry, the game ends after the
    nineteenth, and the
    twenty questions shown (nineteen answered, the last one under the alert)
    are pairwise distinct.
   */
  lemma TwelveTablesTwentyQuestions(order: (int, int) -> bool, draws: seq<nat>, attempts: seq<Attempt>)
    requires CountValid(attempts) >= 19
    ensures FromStart(12, 20, order, draws, attempts).outcome.Running?
      && FromStart(12, 20, order, draws, attempts).outcome.session.gameOver
    ensures |FromStart(12, 20, order, draws, attempts).drawn| == 19
    ensures NoDuplicates([Start(12, order, draws).current] + FromStart(12, 20, order, draws, attempts).drawn)
  {
    StartIsFresh(12, order, draws);
    StartHasNoDuplicates(12, order, draws);
    FreshTwelveTablesTwentyQuestions(Start(12, order, draws), attempts);
  }

  lemma FreshTwelveTablesTwentyQuestions(s: Session, attempts: seq<Attempt>)
    requires Fresh(s, 12) && NoDuplicates([s.current] + s.pool)
    requires CountValid(attempts) >= 19
    ensures Run(s, 20, attempts).outcome.Running? && Run(s, 20, attempts).outcome.session.gameOver
    ensures |Run(s, 20, attempts).drawn| == 19
    ensures NoDuplicates([s.current] + Run(s, 20, attempts).drawn)
  {
    RunProgress(s, 20, attempts);
    NoQuestionRepeats(s, 20, attempts);
  }
}
