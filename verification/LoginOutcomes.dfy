/** What the login command returns, traced back to what happened to the login loop. */
module LoginOutcomes {
  import opened Common
  import opened LoginCallback
  import opened LoginCallbackSafety
  import opened LoginCallbackTheorems

  /** The happenings that decide a login. */
  datatype Turn =
    | TimerFired
    | ContextCancelled
    | ServerFailed
    | CallbackRefused
    | ExchangeFailed
    | ExchangeCancelled
    | TokenRejected
    | NotSaved
    | Saved

  /** The turn that a move takes, read off where the loop stands and how its wait or call ends. */
  function TurnOf(s: State, m: Move): Option<Turn>
    requires Enabled(s, m)
  {
    if !m.LoginMove? then None
    else
      match s.login
      case Select =>
        (match m.choice
         case Timeout => Some(TimerFired)
         case CancelContext => Some(ContextCancelled)
         case TakeFailure => Some(ServerFailed)
         case TakeEvent => if s.events[0].None? then Some(CallbackRefused) else None
         case TakeBrowserResult(_) => None)
      case Exchange(_) =>
        if m.choice.CallFails? then Some(ExchangeFailed)
        else if m.choice.CancelContext? then Some(ExchangeCancelled) else None
      case ParseToken => if m.choice.CallFails? then Some(TokenRejected) else None
      case SaveConfig => if m.choice.CallFails? then Some(NotSaved) else Some(Saved)
      case _ => None
  }

  /** The turns of a run, in order. */
  ghost function Turns(expectedState: string, s: State, moves: seq<Move>): seq<Turn>
    decreases |moves|
  {
    if moves == [] || !Enabled(s, moves[0]) then []
    else
      var turn := TurnOf(s, moves[0]);
      (if turn.Some? then [turn.value] else []) + Turns(expectedState, Next(expectedState, s, moves[0]), moves[1..])
  }

  /** A write to the terminal returned an error in this run. */
  ghost predicate WriteFailed(expectedState: string, s: State, moves: seq<Move>)
    decreases |moves|
  {
    && moves != [] && Enabled(s, moves[0])
    && (|| (moves[0] == LoginMove(TakeBrowserResult(true)) && (s.login.Select? || s.login.Report?))
        || (moves[0] == LoginMove(CallFails) && s.login.Announce?)
        || WriteFailed(expectedState, Next(expectedState, s, moves[0]), moves[1..]))
  }

  // ---------------------------------------------------------------- the loop and its turns

  predicate Waiting(pc: LoginPc) {
    pc.Select? || HasCode(pc)
  }

  /** What the loop carries after these turns. */
  predicate Carries(turns: seq<Turn>, outcome: Outcome) {
    match outcome
    case TimedOut => turns == [TimerFired]
    case Cancelled => turns == [ContextCancelled] || turns == [ExchangeCancelled]
    case ServerStopped => turns == [ServerFailed]
    case AuthenticationFailed => turns == [CallbackRefused] || turns == [ExchangeFailed] || turns == [TokenRejected]
    case SaveFailed => turns == [NotSaved]
    case LoggedIn => turns == [Saved]
    case OutputFailed => turns == [Saved]
  }

  /** After the timer or a cancellation of the wait, the browser's result is not awaited. */
  predicate Silent(turns: seq<Turn>) {
    turns == [TimerFired] || turns == [ContextCancelled]
  }

  ghost predicate TurnsFit(s: State, turns: seq<Turn>) {
    match s.login
    case Completing(_, _, outcome, reports) => Carries(turns, outcome) && (reports <==> !Silent(turns))
    case Report(outcome) => Carries(turns, outcome) && !Silent(turns)
    case Announce => turns == [Saved]
    case ShutdownCompleting(_, outcome) => Carries(turns, outcome)
    case StopServer(outcome) => Carries(turns, outcome)
    case AwaitServer(outcome) => Carries(turns, outcome)
    case Ended(outcome) => Carries(turns, outcome)
    case _ => turns == []
  }

  function Extended(turns: seq<Turn>, turn: Option<Turn>): seq<Turn> {
    if turn.Some? then turns + [turn.value] else turns
  }

  lemma WaitingStepFits(s: State, choice: Choice)
    requires LoginEnabled(s, choice) && Waiting(s.login)
    ensures TurnsFit(LoginStep(s, choice), Extended([], TurnOf(s, LoginMove(choice))))
  {
    var turn := TurnOf(s, LoginMove(choice));
    if turn.Some? {
      assert Extended([], turn) == [turn.value];
    }
    if HasCode(s.login) {
      assert LoginStep(s, choice) == CallStep(s, choice);
    }
  }

  lemma LoginStepFits(s: State, choice: Choice, turns: seq<Turn>)
    requires LoginEnabled(s, choice) && TurnsFit(s, turns)
    ensures TurnsFit(LoginStep(s, choice), Extended(turns, TurnOf(s, LoginMove(choice))))
  {
    if Waiting(s.login) {
      WaitingStepFits(s, choice);
    } else if s.login.Completing? || s.login.ShutdownCompleting? {
      CompletingStepFits(s, choice, turns);
    }
  }

  lemma CompletingStepFits(s: State, choice: Choice, turns: seq<Turn>)
    requires LoginEnabled(s, choice) && TurnsFit(s, turns) && (s.login.Completing? || s.login.ShutdownCompleting?)
    ensures TurnsFit(LoginStep(s, choice), turns)
  {
  }

  lemma StepFits(expectedState: string, s: State, m: Move, turns: seq<Turn>)
    requires Enabled(s, m) && TurnsFit(s, turns)
    ensures TurnsFit(Next(expectedState, s, m), Extended(turns, TurnOf(s, m)))
  {
    match m
    case Arrive(_) =>
    case HandlerMove(i) => HandlerStepFrame(expectedState, s, i);
    case ServerMove(failed) => ServerLeavesLogin(s, failed);
    case LoginMove(choice) => LoginStepFits(s, choice, turns);
  }

  lemma ServerLeavesLogin(s: State, failed: bool)
    requires ServerEnabled(s, failed)
    ensures ServerStep(s, failed).login == s.login && ServerStep(s, failed).effects == s.effects
  {
  }

  lemma {:induction false} TurnsFitFrom(expectedState: string, s: State, moves: seq<Move>, t: State, before: seq<Turn>)
    requires TurnsFit(s, before) && Reaches(expectedState, s, moves, t)
    ensures TurnsFit(t, before + Turns(expectedState, s, moves))
    decreases |moves|
  {
    if moves == [] {
      assert before + [] == before;
    } else {
      StepFits(expectedState, s, moves[0], before);
      TurnsOfFirst(expectedState, s, moves, before);
      TurnsFitFrom(expectedState, Next(expectedState, s, moves[0]), moves[1..], t, Extended(before, TurnOf(s, moves[0])));
    }
  }

  /** Each outcome of a finished command, by the one turn that decided the login. */
  lemma OutcomeIsDecidedByTurn(expectedState: string, moves: seq<Move>, s: State)
    requires Reaches(expectedState, Initial(), moves, s) && s.login.Ended?
    ensures var turns, outcome := Turns(expectedState, Initial(), moves), s.login.outcome;
      && (outcome == TimedOut <==> turns == [TimerFired])
      && (outcome == Cancelled <==> turns == [ContextCancelled] || turns == [ExchangeCancelled])
      && (outcome == ServerStopped <==> turns == [ServerFailed])
      && (outcome == AuthenticationFailed <==>
            turns == [CallbackRefused] || turns == [ExchangeFailed] || turns == [TokenRejected])
      && (outcome == SaveFailed <==> turns == [NotSaved])
      && (outcome in {LoggedIn, OutputFailed} <==> turns == [Saved])
  {
    TurnsFitFrom(expectedState, Initial(), moves, s, []);
    assert [] + Turns(expectedState, Initial(), moves) == Turns(expectedState, Initial(), moves);
  }

  // ---------------------------------------------------------------- who waits for the browser

  /** The loop awaited the result of opening the browser in this run. */
  ghost predicate Awaited(expectedState: string, s: State, moves: seq<Move>)
    decreases |moves|
  {
    && moves != [] && Enabled(s, moves[0])
    && ((moves[0].LoginMove? && s.login.Report?) || Awaited(expectedState, Next(expectedState, s, moves[0]), moves[1..]))
  }

  /** `awaited` records whether the loop has been through its report. */
  predicate AwaitKnown(s: State, turns: seq<Turn>, awaited: bool) {
    if Waiting(s.login) || s.login.Completing? || s.login.Report? then !awaited
    else awaited <==> !Silent(turns)
  }

  lemma LoginAwaits(s: State, choice: Choice, turns: seq<Turn>, awaited: bool)
    requires LoginEnabled(s, choice) && TurnsFit(s, turns) && AwaitKnown(s, turns, awaited)
    ensures AwaitKnown(LoginStep(s, choice), Extended(turns, TurnOf(s, LoginMove(choice))), awaited || s.login.Report?)
  {
    if Waiting(s.login) {
      WaitingGoesOn(s, choice);
    }
  }

  lemma WaitingGoesOn(s: State, choice: Choice)
    requires LoginEnabled(s, choice) && Waiting(s.login)
    ensures var t := LoginStep(s, choice); Waiting(t.login) || t.login.Completing? || t.login.Report?
  {
    if HasCode(s.login) {
      assert LoginStep(s, choice) == CallStep(s, choice);
    }
  }

  lemma StepAwaits(expectedState: string, s: State, m: Move, turns: seq<Turn>, awaited: bool)
    requires Enabled(s, m) && TurnsFit(s, turns) && AwaitKnown(s, turns, awaited)
    ensures AwaitKnown(Next(expectedState, s, m), Extended(turns, TurnOf(s, m)), awaited || (m.LoginMove? && s.login.Report?))
  {
    match m
    case Arrive(_) =>
    case HandlerMove(i) => HandlerStepFrame(expectedState, s, i);
    case ServerMove(failed) => ServerLeavesLogin(s, failed);
    case LoginMove(choice) => LoginAwaits(s, choice, turns, awaited);
  }

  lemma {:induction false} AwaitedFrom(
      expectedState: string, s: State, moves: seq<Move>, t: State, before: seq<Turn>, awaited: bool)
    requires TurnsFit(s, before) && AwaitKnown(s, before, awaited) && Reaches(expectedState, s, moves, t)
    ensures AwaitKnown(t, before + Turns(expectedState, s, moves), awaited || Awaited(expectedState, s, moves))
    decreases |moves|
  {
    if moves == [] {
      assert before + [] == before;
    } else {
      StepFits(expectedState, s, moves[0], before);
      StepAwaits(expectedState, s, moves[0], before, awaited);
      TurnsOfFirst(expectedState, s, moves, before);
      AwaitedFrom(expectedState, Next(expectedState, s, moves[0]), moves[1..], t, Extended(before, TurnOf(s, moves[0])),
                  awaited || (moves[0].LoginMove? && s.login.Report?));
    }
  }

  /** The command awaits the browser's result exactly when something other than the timer or a
      cancelled wait decided the login. */
  lemma BrowserIsAwaitedIff(expectedState: string, moves: seq<Move>, s: State)
    requires Reaches(expectedState, Initial(), moves, s) && s.login.Ended?
    ensures Awaited(expectedState, Initial(), moves) <==>
      Turns(expectedState, Initial(), moves) != [TimerFired] && Turns(expectedState, Initial(), moves) != [ContextCancelled]
  {
    AwaitedFrom(expectedState, Initial(), moves, s, [], false);
    assert [] + Turns(expectedState, Initial(), moves) == Turns(expectedState, Initial(), moves);
  }

  // ---------------------------------------------------------------- who caused it

  /** Who must have claimed the callback for this turn to be taken, and with what. */
  predicate Blames(s: State, turn: Turn) {
    match turn
    case TimerFired => true
    case ContextCancelled => true
    case ServerFailed => s.winner == Some(Server)
    case CallbackRefused => HandlerWon(s) && WinnerCallback(s).None?
    case _ => HandlerWon(s) && WinnerCallback(s).Some?
  }

  predicate BlameRight(s: State, turns: seq<Turn>) {
    forall turn | turn in turns :: Blames(s, turn)
  }

  lemma TurnBlames(expectedState: string, s: State, m: Move)
    requires Inv(expectedState, s) && Enabled(s, m) && TurnOf(s, m).Some?
    ensures Blames(s, TurnOf(s, m).value)
  {
  }

  /** The claim on the callback is never given up. */
  lemma WinnerStays(expectedState: string, s: State, m: Move)
    requires Inv(expectedState, s) && Enabled(s, m) && s.winner.Some?
    ensures var t := Next(expectedState, s, m);
      t.winner == s.winner && (HandlerWon(s) ==> HandlerWon(t) && WinnerCallback(t) == WinnerCallback(s))
  {
    match m
    case Arrive(_) =>
    case HandlerMove(i) => HandlerKeepsWinner(expectedState, s, i);
    case ServerMove(failed) => ServerKeepsWinner(s, failed);
    case LoginMove(choice) => LoginKeepsWinner(s, choice);
  }

  lemma HandlerKeepsWinner(expectedState: string, s: State, i: nat)
    requires Inv(expectedState, s) && i < |s.handlers| && HandlerEnabled(s, i) && s.winner.Some?
    ensures var t := HandlerStep(expectedState, s, i);
      && t.winner == s.winner && |t.handlers| == |s.handlers|
      && forall j | 0 <= j < |s.handlers| :: t.handlers[j].request == s.handlers[j].request
  {
    assert s.accepted;
  }

  lemma ServerKeepsWinner(s: State, failed: bool)
    requires ServerEnabled(s, failed) && s.winner.Some? && (s.accepted <==> s.winner.Some?)
    ensures ServerStep(s, failed).winner == s.winner && ServerStep(s, failed).handlers == s.handlers
  {
  }

  lemma LoginKeepsWinner(s: State, choice: Choice)
    requires LoginEnabled(s, choice)
    ensures LoginStep(s, choice).winner == s.winner && LoginStep(s, choice).handlers == s.handlers
  {
    LoginLeaves(s, choice);
  }

  predicate WritesFailing(s: State, choice: Choice) {
    || (choice == TakeBrowserResult(true) && (s.login.Select? || s.login.Report?))
    || (choice == CallFails && s.login.Announce?)
  }

  /** What a step of the loop leaves alone, and when it notes a failed write. */
  ghost predicate Leaves(s: State, choice: Choice, t: State) {
    && t.winner == s.winner && t.handlers == s.handlers
    && (t.effects.outputFailed <==> s.effects.outputFailed || WritesFailing(s, choice))
  }

  lemma CompleteLeaves(s: State, pc: CompletePc, success: bool)
    requires CompleteEnabled(s, Login, pc)
    ensures var (t, _) := CompleteStep(s, Login, pc, success);
      t.winner == s.winner && t.handlers == s.handlers && t.effects == s.effects
  {
  }

  lemma CompletingLeaves(s: State, choice: Choice)
    requires LoginEnabled(s, choice) && (s.login.Completing? || s.login.ShutdownCompleting?)
    ensures Leaves(s, choice, LoginStep(s, choice))
  {
    if s.login.complete != Return {
      CompleteLeaves(s, s.login.complete, s.login.Completing? && s.login.success);
    }
  }

  lemma ReportingLeaves(s: State, choice: Choice)
    requires LoginEnabled(s, choice) && Reporting(s.login)
    ensures Leaves(s, choice, LoginStep(s, choice))
  {
    if s.login.Report? {
      assert LoginStep(s, choice) == ReportStep(s, choice);
    }
  }

  lemma WaitingLeaves(s: State, choice: Choice)
    requires LoginEnabled(s, choice) && Waiting(s.login)
    ensures Leaves(s, choice, LoginStep(s, choice))
  {
    if s.login.Select? {
      assert LoginStep(s, choice) == SelectStep(s, choice);
    } else {
      assert LoginStep(s, choice) == CallStep(s, choice);
    }
  }

  lemma StoppingLeaves(s: State, choice: Choice)
    requires LoginEnabled(s, choice) && (s.login.StopServer? || s.login.AwaitServer?)
    ensures Leaves(s, choice, LoginStep(s, choice))
  {
  }

  lemma LoginLeaves(s: State, choice: Choice)
    requires LoginEnabled(s, choice)
    ensures Leaves(s, choice, LoginStep(s, choice))
  {
    if Waiting(s.login) {
      WaitingLeaves(s, choice);
    } else if Reporting(s.login) {
      ReportingLeaves(s, choice);
    } else if s.login.Completing? || s.login.ShutdownCompleting? {
      CompletingLeaves(s, choice);
    } else {
      StoppingLeaves(s, choice);
    }
  }

  lemma BlameStays(expectedState: string, s: State, m: Move, turn: Turn)
    requires Inv(expectedState, s) && Enabled(s, m) && Blames(s, turn)
    ensures Blames(Next(expectedState, s, m), turn)
  {
    if s.winner.Some? {
      WinnerStays(expectedState, s, m);
    }
  }

  lemma BlameStep(expectedState: string, s: State, m: Move, before: seq<Turn>)
    requires Inv(expectedState, s) && Enabled(s, m) && BlameRight(s, before)
    ensures BlameRight(Next(expectedState, s, m), Extended(before, TurnOf(s, m)))
  {
    forall turn | turn in Extended(before, TurnOf(s, m)) ensures Blames(Next(expectedState, s, m), turn) {
      if turn !in before {
        TurnBlames(expectedState, s, m);
      }
      BlameStays(expectedState, s, m, turn);
    }
  }

  lemma TurnsOfFirst(expectedState: string, s: State, moves: seq<Move>, before: seq<Turn>)
    requires moves != [] && Enabled(s, moves[0])
    ensures Extended(before, TurnOf(s, moves[0])) + Turns(expectedState, Next(expectedState, s, moves[0]), moves[1..])
         == before + Turns(expectedState, s, moves)
  {
  }

  lemma {:induction false} BlameFrom(expectedState: string, s: State, moves: seq<Move>, t: State, before: seq<Turn>)
    requires Inv(expectedState, s) && BlameRight(s, before) && Reaches(expectedState, s, moves, t)
    ensures BlameRight(t, before + Turns(expectedState, s, moves))
    decreases |moves|
  {
    if moves == [] {
      assert before + [] == before;
    } else {
      NextKeeps(expectedState, s, moves[0]);
      BlameStep(expectedState, s, moves[0], before);
      TurnsOfFirst(expectedState, s, moves, before);
      BlameFrom(expectedState, Next(expectedState, s, moves[0]), moves[1..], t, Extended(before, TurnOf(s, moves[0])));
    }
  }

  lemma EndedKnows(expectedState: string, moves: seq<Move>, s: State)
    requires Reaches(expectedState, Initial(), moves, s) && s.login.Ended?
    ensures Carries(Turns(expectedState, Initial(), moves), s.login.outcome)
    ensures BlameRight(s, Turns(expectedState, Initial(), moves))
  {
    ReachableInv(expectedState, [], Initial());
    TurnsFitFrom(expectedState, Initial(), moves, s, []);
    BlameFrom(expectedState, Initial(), moves, s, []);
    assert [] + Turns(expectedState, Initial(), moves) == Turns(expectedState, Initial(), moves);
  }

  lemma CauseFollows(s: State, turns: seq<Turn>, outcome: Outcome)
    requires Carries(turns, outcome) && BlameRight(s, turns)
    ensures outcome == ServerStopped ==> s.winner == Some(Server)
    ensures s.winner == Some(Server) ==> outcome in {ServerStopped, TimedOut, Cancelled}
    ensures turns == [CallbackRefused] ==> HandlerWon(s) && WinnerCallback(s).None?
    ensures outcome in {SaveFailed, LoggedIn, OutputFailed} ==> HandlerWon(s) && WinnerCallback(s).Some?
  {
    assert |turns| == 1 && turns[0] in turns;
    assert Blames(s, turns[0]);
  }

  /** A server that stopped had claimed the callback before any browser did. A refused callback
      carried an error or no code; everything later needs a callback with a code. */
  lemma OutcomeHasItsCause(expectedState: string, moves: seq<Move>, s: State)
    requires Reaches(expectedState, Initial(), moves, s) && s.login.Ended?
    ensures s.login.outcome == ServerStopped ==> s.winner == Some(Server)
    ensures s.winner == Some(Server) ==> s.login.outcome in {ServerStopped, TimedOut, Cancelled}
    ensures Turns(expectedState, Initial(), moves) == [CallbackRefused] ==>
      && HandlerWon(s)
      && var request := s.handlers[s.winner.value.id].request; request.error != "" || request.code == ""
    ensures s.login.outcome in {SaveFailed, LoggedIn, OutputFailed} ==>
      && HandlerWon(s)
      && var request := s.handlers[s.winner.value.id].request; request.error == "" && request.code != ""
  {
    EndedKnows(expectedState, moves, s);
    CauseFollows(s, Turns(expectedState, Initial(), moves), s.login.outcome);
  }

  // ---------------------------------------------------------------- failed writes

  lemma WriteFailsStep(expectedState: string, s: State, m: Move)
    requires Enabled(s, m)
    ensures Next(expectedState, s, m).effects.outputFailed <==>
      || s.effects.outputFailed
      || (m == LoginMove(TakeBrowserResult(true)) && (s.login.Select? || s.login.Report?))
      || (m == LoginMove(CallFails) && s.login.Announce?)
  {
    match m
    case Arrive(_) =>
    case HandlerMove(i) => HandlerKeepsEffects(expectedState, s, i);
    case ServerMove(failed) => ServerLeavesLogin(s, failed);
    case LoginMove(choice) => LoginLeaves(s, choice);
  }

  lemma HandlerKeepsEffects(expectedState: string, s: State, i: nat)
    requires i < |s.handlers| && HandlerEnabled(s, i)
    ensures HandlerStep(expectedState, s, i).effects == s.effects
  {
  }

  lemma {:induction false} WriteFailedFrom(expectedState: string, s: State, moves: seq<Move>, t: State)
    requires Reaches(expectedState, s, moves, t)
    ensures t.effects.outputFailed <==> s.effects.outputFailed || WriteFailed(expectedState, s, moves)
    decreases |moves|
  {
    if moves != [] {
      WriteFailsStep(expectedState, s, moves[0]);
      WriteFailedFrom(expectedState, Next(expectedState, s, moves[0]), moves[1..], t);
    }
  }

  /** Success and the one error of a saved login, told apart by the terminal. */
  lemma SavedOutcomeIff(expectedState: string, moves: seq<Move>, s: State)
    requires Reaches(expectedState, Initial(), moves, s) && s.login.Ended?
    ensures var saved, failed := Turns(expectedState, Initial(), moves) == [Saved], WriteFailed(expectedState, Initial(), moves);
      && (s.login.outcome == LoggedIn <==> saved && !failed)
      && (s.login.outcome == OutputFailed <==> saved && failed)
  {
    OutcomeIsDecidedByTurn(expectedState, moves, s);
    WriteFailedFrom(expectedState, Initial(), moves, s);
    ReturnsSuccessIff(expectedState, moves, s);
  }
}
