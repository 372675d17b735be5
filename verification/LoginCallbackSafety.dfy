/** What every interleaving of browser callbacks, server failure, timeout and cancellation keeps. */
module LoginCallbackSafety {
  import opened Common
  import opened LoginCallback

  // ---------------------------------------------------------------- positions

  predicate HandlerInside(pc: HandlerPc) {
    pc.Check? || pc.RefuseUnlock? || pc.Send? || pc.AcceptUnlock? || pc.ReadResult? || pc.ResultUnlock?
  }

  predicate HandlerClaimed(pc: HandlerPc) {
    pc.Send? || pc.AcceptUnlock? || pc.Wait? || HandlerReleased(pc)
  }

  predicate HandlerReleased(pc: HandlerPc) {
    pc.AwaitResultLock? || pc.ReadResult? || pc.ResultUnlock?
  }

  predicate CompleteInside(pc: CompletePc) {
    pc.Store? || pc.Unlock?
  }

  predicate InOnce(pc: CompletePc) {
    pc.Lock? || pc.Store? || pc.Unlock? || pc.Close?
  }

  predicate Stored(pc: CompletePc) {
    pc.Unlock? || pc.Close?
  }

  predicate ServerInside(pc: ServerPc) {
    pc.FailCheck? || pc.YieldUnlock? || pc.ClaimUnlock? || (pc.FailCompleting? && CompleteInside(pc.complete))
  }

  predicate LoginInside(pc: LoginPc) {
    (pc.Completing? || pc.ShutdownCompleting?) && CompleteInside(pc.complete)
  }

  /** The login loop has not called `complete` yet. */
  predicate Undecided(pc: LoginPc) {
    pc.Select? || HasCode(pc) || (pc.Completing? && pc.complete.Enter?)
  }

  /** The loop has returned; what follows is the deferred shutdown. */
  predicate Returned(pc: LoginPc) {
    pc.ShutdownCompleting? || pc.StopServer? || pc.AwaitServer? || pc.Ended?
  }

  /** The loop is past `complete` and reports to the terminal. */
  predicate Reporting(pc: LoginPc) {
    pc.Report? || pc.Announce?
  }

  // ---------------------------------------------------------------- the invariant

  ghost predicate MutexHeldRight(s: State) {
    && (forall i: nat | i < |s.handlers| :: HandlerInside(s.handlers[i].pc) <==> s.mutex == Some(Handler(i)))
    && (s.mutex.Some? && s.mutex.value.Handler? ==> s.mutex.value.id < |s.handlers|)
    && (s.mutex == Some(Server) <==> ServerInside(s.server))
    && (s.mutex == Some(Login) <==> LoginInside(s.login))
  }

  ghost predicate WonBy(s: State, i: nat) {
    s.winner == Some(Handler(i))
  }

  /** At most one goroutine claims the callback, and it is known where it stands. */
  ghost predicate WinnerKnown(expectedState: string, s: State) {
    && (s.accepted <==> s.winner.Some?)
    && s.winner != Some(Login)
    && (s.winner.Some? && s.winner.value.Handler? ==> s.winner.value.id < |s.handlers|)
    && (forall i: nat | i < |s.handlers| :: HandlerKnown(expectedState, s, i))
    && (s.winner == Some(Server) <==>
          s.server.ClaimUnlock? || s.server.FailCompleting? || s.server.SendFailure?
          || (s.server.Closed? && s.failuresSent == 1))
  }

  ghost predicate HandlerKnown(expectedState: string, s: State, i: nat)
    requires i < |s.handlers|
  {
    var pc, request := s.handlers[i].pc, s.handlers[i].request;
    && (HandlerClaimed(pc) ==> WonBy(s, i))
    && (WonBy(s, i) ==> HandlerClaimed(pc) || pc.Responded?)
    && (pc.AwaitLock? || pc.Check? || pc.RefuseUnlock? || WonBy(s, i) ==> Refusal(request, expectedState).None?)
    && (HandlerReleased(pc) ==> s.done)
    && (pc.ResultUnlock? ==> pc.success == s.effects.saved)
    && (pc.Responded? && WonBy(s, i) ==> s.done && pc.status == if s.effects.saved then 200 else 400)
    && (pc.Responded? && !WonBy(s, i) ==>
          pc.status == if Refusal(request, expectedState).Some? then Refusal(request, expectedState).value else 409)
    && (pc.RefuseUnlock? || (pc.Responded? && Refusal(request, expectedState).None?) ==> s.winner.Some?)
  }

  predicate HandlerWon(s: State) {
    s.winner.Some? && s.winner.value.Handler? && s.winner.value.id < |s.handlers|
  }

  /** What the winning handler has to pass on. */
  function WinnerCallback(s: State): Callback
    requires HandlerWon(s)
  {
    CallbackOf(s.handlers[s.winner.value.id].request)
  }

  /** The winner's one message, where it is, and what the loop may have made of it. */
  ghost predicate MessagesCounted(s: State) {
    && s.eventsSent == (if HandlerWon(s) && !s.handlers[s.winner.value.id].pc.Send? then 1 else 0)
    && s.failuresSent == (if s.winner == Some(Server) && s.server.Closed? then 1 else 0)
    && |s.events| <= s.eventsSent && s.failures <= s.failuresSent
    && (s.events != [] ==> HandlerWon(s) && s.events[0] == WinnerCallback(s))
    && (HasCode(s.login) ==> s.eventsSent == 1 && s.events == [] && HandlerWon(s) && WinnerCallback(s).Some?)
    && (s.login.Exchange? ==> HandlerWon(s) && WinnerCallback(s) == Some(s.login.code))
  }

  ghost predicate OnceRight(s: State) {
    && (s.done <==> s.once == Ran)
    && (s.once == Running(Server) <==> s.server.FailCompleting? && InOnce(s.server.complete))
    && (s.once == Running(Login) <==> s.login.Completing? && InOnce(s.login.complete))
    && (s.once.Running? ==> s.once.actor == Server || s.once.actor == Login)
    && (s.login.ShutdownCompleting? ==> s.login.complete.Enter? || s.login.complete.Return?)
    && (s.server.FailCompleting? && s.server.complete.Return? ==> s.done)
    && (s.server.SendFailure? || s.failuresSent == 1 ==> s.done)
    && ((s.login.Completing? && s.login.complete.Return?) || Reporting(s.login) || Returned(s.login) ==> s.done)
    && (Undecided(s.login) && s.once != Idle ==> s.winner == Some(Server))
  }

  /** What the command will return, given what has been saved and printed. */
  ghost predicate OutcomeRight(s: State) {
    match s.login
    case Completing(_, _, outcome, reports) =>
      (outcome == LoggedIn <==> s.effects.saved) && outcome != OutputFailed && (s.effects.saved ==> reports)
    case Report(outcome) => (outcome == LoggedIn <==> s.effects.saved) && outcome != OutputFailed
    case Announce => s.effects.saved && !s.effects.outputFailed
    case ShutdownCompleting(_, outcome) => ReturnRight(s, outcome)
    case StopServer(outcome) => ReturnRight(s, outcome)
    case AwaitServer(outcome) => ReturnRight(s, outcome)
    case Ended(outcome) => ReturnRight(s, outcome)
    case _ => !s.effects.saved
  }

  ghost predicate ReturnRight(s: State, outcome: Outcome) {
    && (outcome == LoggedIn <==> s.effects.saved && !s.effects.outputFailed)
    && (outcome == OutputFailed <==> s.effects.saved && s.effects.outputFailed)
  }

  /** The stored result says whether the configuration was saved. */
  ghost predicate ResultRight(s: State) {
    && (s.effects.saved ==> HandlerWon(s) && WinnerCallback(s).Some?)
    && OutcomeRight(s)
    && (s.login.Completing? ==> s.login.success == s.effects.saved)
    && (s.done ==> s.result == s.effects.saved)
    && (s.login.Completing? && Stored(s.login.complete) && s.once == Running(Login) ==> s.result == s.effects.saved)
    && (s.server.FailCompleting? && Stored(s.server.complete) ==> !s.result)
    && (s.login.AwaitServer? || s.login.Ended? ==> s.stopping)
    && (s.login.Ended? ==> s.server.Closed?)
  }

  ghost predicate Inv(expectedState: string, s: State) {
    && MutexHeldRight(s)
    && WinnerKnown(expectedState, s)
    && MessagesCounted(s)
    && OnceRight(s)
    && ResultRight(s)
  }

  // ---------------------------------------------------------------- every step keeps it

  /** A step of one handler leaves the others in a known position. */
  lemma OthersStayKnown(expectedState: string, s: State, t: State, i: nat)
    requires Inv(expectedState, s) && |t.handlers| == |s.handlers|
    requires forall j: nat | j < |s.handlers| && j != i :: t.handlers[j] == s.handlers[j]
    requires t.done == s.done && t.effects.saved == s.effects.saved
    requires t.winner == s.winner || (s.winner.None? && t.winner == Some(Handler(i)))
    ensures forall j: nat | j < |t.handlers| && j != i :: HandlerKnown(expectedState, t, j)
  {
    forall j: nat | j < |t.handlers| && j != i ensures HandlerKnown(expectedState, t, j) {
      assert HandlerKnown(expectedState, s, j);
    }
  }

  /** A handler leaves the login loop and the result alone. */
  lemma HandlerStepFrame(expectedState: string, s: State, i: nat)
    requires i < |s.handlers| && HandlerEnabled(s, i)
    ensures var t := HandlerStep(expectedState, s, i);
      t.login == s.login && t.done == s.done && t.result == s.result
  {
  }

  /** The server goroutine leaves the handlers and the login loop alone, and the result too
      once it is there. */
  lemma ServerStepFrame(s: State, failed: bool)
    requires ServerEnabled(s, failed) && OnceRight(s) && s.done
    ensures var t := ServerStep(s, failed);
      && t.handlers == s.handlers && t.login == s.login && t.done && t.result == s.result
  {
  }

  lemma HandlerAsksKeeps(expectedState: string, s: State, i: nat)
    requires Inv(expectedState, s) && i < |s.handlers| && HandlerEnabled(s, i)
    requires s.handlers[i].pc.Validate? || s.handlers[i].pc.AwaitLock?
    ensures Inv(expectedState, HandlerStep(expectedState, s, i))
  {
    var t := HandlerStep(expectedState, s, i);
    assert HandlerKnown(expectedState, s, i);
    OthersStayKnown(expectedState, s, t, i);
    assert HandlerKnown(expectedState, t, i);
  }

  lemma HandlerRefusedKeeps(expectedState: string, s: State, i: nat)
    requires Inv(expectedState, s) && i < |s.handlers| && HandlerEnabled(s, i)
    requires (s.handlers[i].pc.Check? && s.accepted) || s.handlers[i].pc.RefuseUnlock?
    ensures Inv(expectedState, HandlerStep(expectedState, s, i))
  {
    var t := HandlerStep(expectedState, s, i);
    assert HandlerKnown(expectedState, s, i);
    OthersStayKnown(expectedState, s, t, i);
    assert HandlerKnown(expectedState, t, i);
  }

  lemma HandlerAcceptedKeeps(expectedState: string, s: State, i: nat)
    requires Inv(expectedState, s) && i < |s.handlers| && HandlerEnabled(s, i)
    requires s.handlers[i].pc.Check? && !s.accepted
    ensures Inv(expectedState, HandlerStep(expectedState, s, i))
  {
    var t := HandlerStep(expectedState, s, i);
    assert HandlerKnown(expectedState, s, i);
    OthersStayKnown(expectedState, s, t, i);
    assert HandlerKnown(expectedState, t, i);
  }

  lemma HandlerSendsKeeps(expectedState: string, s: State, i: nat)
    requires Inv(expectedState, s) && i < |s.handlers| && HandlerEnabled(s, i)
    requires s.handlers[i].pc.Send? || s.handlers[i].pc.AcceptUnlock?
    ensures Inv(expectedState, HandlerStep(expectedState, s, i))
  {
    var t := HandlerStep(expectedState, s, i);
    assert HandlerKnown(expectedState, s, i);
    OthersStayKnown(expectedState, s, t, i);
    assert HandlerKnown(expectedState, t, i);
  }

  lemma HandlerReleasedKeeps(expectedState: string, s: State, i: nat)
    requires Inv(expectedState, s) && i < |s.handlers| && HandlerEnabled(s, i)
    requires s.handlers[i].pc.Wait? || s.handlers[i].pc.AwaitResultLock?
    ensures Inv(expectedState, HandlerStep(expectedState, s, i))
  {
    var t := HandlerStep(expectedState, s, i);
    assert HandlerKnown(expectedState, s, i);
    OthersStayKnown(expectedState, s, t, i);
    assert HandlerKnown(expectedState, t, i);
  }

  lemma HandlerAnswersKeeps(expectedState: string, s: State, i: nat)
    requires Inv(expectedState, s) && i < |s.handlers| && HandlerEnabled(s, i)
    requires s.handlers[i].pc.ReadResult? || s.handlers[i].pc.ResultUnlock?
    ensures Inv(expectedState, HandlerStep(expectedState, s, i))
  {
    var t := HandlerStep(expectedState, s, i);
    assert HandlerKnown(expectedState, s, i);
    OthersStayKnown(expectedState, s, t, i);
    assert HandlerKnown(expectedState, t, i);
  }

  lemma HandlerKeeps(expectedState: string, s: State, i: nat)
    requires Inv(expectedState, s) && i < |s.handlers| && HandlerEnabled(s, i)
    ensures Inv(expectedState, HandlerStep(expectedState, s, i))
  {
    var pc := s.handlers[i].pc;
    if pc.Validate? || pc.AwaitLock? {
      HandlerAsksKeeps(expectedState, s, i);
    } else if (pc.Check? && s.accepted) || pc.RefuseUnlock? {
      HandlerRefusedKeeps(expectedState, s, i);
    } else if pc.Check? {
      HandlerAcceptedKeeps(expectedState, s, i);
    } else if pc.Send? || pc.AcceptUnlock? {
      HandlerSendsKeeps(expectedState, s, i);
    } else if pc.Wait? || pc.AwaitResultLock? {
      HandlerReleasedKeeps(expectedState, s, i);
    } else {
      HandlerAnswersKeeps(expectedState, s, i);
    }
  }

  /** Steps of the server and of the login loop leave every handler in a known position. */
  lemma HandlersStayKnown(expectedState: string, s: State, t: State)
    requires Inv(expectedState, s) && t.handlers == s.handlers && (s.done ==> t.done)
    requires t.winner == s.winner || (s.winner.None? && t.winner == Some(Server))
    requires t.effects.saved == s.effects.saved || !s.done
    ensures forall j: nat | j < |t.handlers| :: HandlerKnown(expectedState, t, j)
  {
    forall j: nat | j < |t.handlers| ensures HandlerKnown(expectedState, t, j) {
      assert HandlerKnown(expectedState, s, j);
    }
  }

  lemma ServerFailsKeeps(expectedState: string, s: State, failed: bool)
    requires Inv(expectedState, s) && ServerEnabled(s, failed)
    requires s.server.Serving? || s.server.FailLock? || s.server.YieldUnlock?
    ensures Inv(expectedState, ServerStep(s, failed))
  {
    var t := ServerStep(s, failed);
    HandlersStayKnown(expectedState, s, t);
  }

  lemma ServerClaimsKeeps(expectedState: string, s: State, failed: bool)
    requires Inv(expectedState, s) && ServerEnabled(s, failed)
    requires s.server.FailCheck? || s.server.ClaimUnlock? || s.server.SendFailure?
    ensures Inv(expectedState, ServerStep(s, failed))
  {
    var t := ServerStep(s, failed);
    HandlersStayKnown(expectedState, s, t);
  }

  lemma ServerEntersKeeps(expectedState: string, s: State, failed: bool)
    requires Inv(expectedState, s) && ServerEnabled(s, failed)
    requires s.server.FailCompleting?
    requires s.server.complete.Enter? || s.server.complete.Return? || s.server.complete.Lock?
    ensures Inv(expectedState, ServerStep(s, failed))
  {
    var t := ServerStep(s, failed);
    HandlersStayKnown(expectedState, s, t);
  }

  lemma ServerStoresKeeps(expectedState: string, s: State, failed: bool)
    requires Inv(expectedState, s) && ServerEnabled(s, failed)
    requires s.server.FailCompleting? && (s.server.complete.Store? || Stored(s.server.complete))
    ensures Inv(expectedState, ServerStep(s, failed))
  {
    var t := ServerStep(s, failed);
    HandlersStayKnown(expectedState, s, t);
  }

  lemma ServerKeeps(expectedState: string, s: State, failed: bool)
    requires Inv(expectedState, s) && ServerEnabled(s, failed)
    ensures Inv(expectedState, ServerStep(s, failed))
  {
    if s.server.Serving? || s.server.FailLock? || s.server.YieldUnlock? {
      ServerFailsKeeps(expectedState, s, failed);
    } else if s.server.FailCompleting? {
      if s.server.complete.Store? || Stored(s.server.complete) {
        ServerStoresKeeps(expectedState, s, failed);
      } else {
        ServerEntersKeeps(expectedState, s, failed);
      }
    } else {
      ServerClaimsKeeps(expectedState, s, failed);
    }
  }

  lemma SelectKeeps(expectedState: string, s: State, choice: Choice)
    requires Inv(expectedState, s) && LoginEnabled(s, choice)
    requires s.login.Select?
    ensures Inv(expectedState, LoginStep(s, choice))
  {
    var t := LoginStep(s, choice);
    HandlersStayKnown(expectedState, s, t);
  }

  lemma CallKeeps(expectedState: string, s: State, choice: Choice)
    requires Inv(expectedState, s) && LoginEnabled(s, choice)
    requires HasCode(s.login)
    ensures Inv(expectedState, LoginStep(s, choice))
  {
    var t := LoginStep(s, choice);
    HandlersStayKnown(expectedState, s, t);
  }

  lemma CompletingEntersKeeps(expectedState: string, s: State, choice: Choice)
    requires Inv(expectedState, s) && LoginEnabled(s, choice)
    requires s.login.Completing? && (s.login.complete.Enter? || s.login.complete.Return? || s.login.complete.Lock?)
    ensures Inv(expectedState, LoginStep(s, choice))
  {
    var t := LoginStep(s, choice);
    HandlersStayKnown(expectedState, s, t);
  }

  lemma CompletingStoresKeeps(expectedState: string, s: State, choice: Choice)
    requires Inv(expectedState, s) && LoginEnabled(s, choice)
    requires s.login.Completing? && s.login.complete.Store?
    ensures Inv(expectedState, LoginStep(s, choice))
  {
    var t := LoginStep(s, choice);
    HandlersStayKnown(expectedState, s, t);
  }

  lemma CompletingLeavesKeeps(expectedState: string, s: State, choice: Choice)
    requires Inv(expectedState, s) && LoginEnabled(s, choice)
    requires s.login.Completing? && Stored(s.login.complete)
    ensures Inv(expectedState, LoginStep(s, choice))
  {
    var t := LoginStep(s, choice);
    HandlersStayKnown(expectedState, s, t);
  }

  lemma ReportingMovesLogin(s: State, choice: Choice)
    requires OutcomeRight(s) && LoginEnabled(s, choice) && Reporting(s.login)
    ensures var t := LoginStep(s, choice);
      && t == s.(login := t.login, effects := t.effects) && t.effects.saved == s.effects.saved
      && (t.login.Announce? || (t.login.ShutdownCompleting? && t.login.complete.Enter?)) && OutcomeRight(t)
  {
  }

  lemma ReportingKeeps(expectedState: string, s: State, choice: Choice)
    requires Inv(expectedState, s) && LoginEnabled(s, choice)
    requires Reporting(s.login)
    ensures Inv(expectedState, LoginStep(s, choice))
  {
    ReportingMovesLogin(s, choice);
    HandlersStayKnown(expectedState, s, LoginStep(s, choice));
  }

  /** The deferred `complete` finds the once already run. */
  lemma ShutdownCompletesNothing(s: State, choice: Choice)
    requires OnceRight(s) && LoginEnabled(s, choice) && s.login.ShutdownCompleting?
    ensures var outcome := s.login.outcome;
      LoginStep(s, choice) ==
        s.(login := if s.login.complete.Return? then StopServer(outcome) else ShutdownCompleting(Return, outcome))
  {
  }

  lemma ShutdownMovesLogin(s: State, choice: Choice)
    requires OnceRight(s) && LoginEnabled(s, choice) && Returned(s.login)
    ensures var t := LoginStep(s, choice);
      && t == s.(login := t.login, stopping := t.stopping)
      && Returned(t.login) && t.login.outcome == s.login.outcome
      && (t.login.ShutdownCompleting? ==> t.login.complete.Return?)
      && (t.login.AwaitServer? || t.login.Ended? ==> t.stopping || s.login.AwaitServer?)
      && (t.stopping <==> s.stopping || s.login.StopServer?)
      && (t.login.Ended? ==> s.login.AwaitServer? && s.server.Closed?)
  {
    if s.login.ShutdownCompleting? {
      ShutdownCompletesNothing(s, choice);
    }
  }

  lemma ShutdownKeeps(expectedState: string, s: State, choice: Choice)
    requires Inv(expectedState, s) && LoginEnabled(s, choice)
    requires Returned(s.login)
    ensures Inv(expectedState, LoginStep(s, choice))
  {
    ShutdownMovesLogin(s, choice);
    var t := LoginStep(s, choice);
    HandlersStayKnown(expectedState, s, t);
  }

  lemma LoginKeeps(expectedState: string, s: State, choice: Choice)
    requires Inv(expectedState, s) && LoginEnabled(s, choice)
    ensures Inv(expectedState, LoginStep(s, choice))
  {
    if s.login.Select? {
      SelectKeeps(expectedState, s, choice);
    } else if HasCode(s.login) {
      CallKeeps(expectedState, s, choice);
    } else if s.login.Completing? {
      if s.login.complete.Store? {
        CompletingStoresKeeps(expectedState, s, choice);
      } else if Stored(s.login.complete) {
        CompletingLeavesKeeps(expectedState, s, choice);
      } else {
        CompletingEntersKeeps(expectedState, s, choice);
      }
    } else if Reporting(s.login) {
      ReportingKeeps(expectedState, s, choice);
    } else {
      ShutdownKeeps(expectedState, s, choice);
    }
  }

  lemma ArriveKeeps(expectedState: string, s: State, request: Request)
    requires Inv(expectedState, s)
    ensures Inv(expectedState, s.(handlers := s.handlers + [HandlerState(request, Validate)]))
  {
    var t := s.(handlers := s.handlers + [HandlerState(request, Validate)]);
    forall j: nat | j < |t.handlers| ensures HandlerKnown(expectedState, t, j) {
      if j < |s.handlers| {
        assert HandlerKnown(expectedState, s, j);
      }
    }
  }
}
