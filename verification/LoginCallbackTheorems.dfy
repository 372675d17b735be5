/** The promises of the login callback, over every interleaving. */
module LoginCallbackTheorems {
  import opened Common
  import opened LoginCallback
  import opened LoginCallbackSafety

  lemma {:induction false} ReachableFrom(expectedState: string, s: State, moves: seq<Move>, t: State)
    requires Inv(expectedState, s) && Reaches(expectedState, s, moves, t)
    ensures Inv(expectedState, t)
    decreases |moves|
  {
    if moves != [] {
      NextKeeps(expectedState, s, moves[0]);
      ReachableFrom(expectedState, Next(expectedState, s, moves[0]), moves[1..], t);
    }
  }

  lemma NextKeeps(expectedState: string, s: State, m: Move)
    requires Inv(expectedState, s) && Enabled(s, m)
    ensures Inv(expectedState, Next(expectedState, s, m))
  {
    match m
    case Arrive(request) => ArriveKeeps(expectedState, s, request);
    case HandlerMove(i) => HandlerKeeps(expectedState, s, i);
    case ServerMove(failed) => ServerKeeps(expectedState, s, failed);
    case LoginMove(choice) => LoginKeeps(expectedState, s, choice);
  }

  lemma ReachableInv(expectedState: string, moves: seq<Move>, s: State)
    requires Reaches(expectedState, Initial(), moves, s)
    ensures Inv(expectedState, s)
  {
    ReachableFrom(expectedState, Initial(), moves, s);
  }

  /** At most one message is ever sent, an event or a failure, and neither send ever waits for
      room: the one under the lock included. */
  lemma OneMessageWithoutBlocking(expectedState: string, moves: seq<Move>, s: State)
    requires Reaches(expectedState, Initial(), moves, s)
    ensures s.eventsSent + s.failuresSent <= 1
    ensures |s.events| <= CHANNEL_CAPACITY && s.failures <= CHANNEL_CAPACITY
    ensures forall i: nat | i < |s.handlers| && s.handlers[i].pc.Send? :: Enabled(s, HandlerMove(i))
    ensures s.server.SendFailure? ==> Enabled(s, ServerMove(false))
  {
    ReachableInv(expectedState, moves, s);
    forall i: nat | i < |s.handlers| && s.handlers[i].pc.Send? ensures Enabled(s, HandlerMove(i)) {
      assert HandlerKnown(expectedState, s, i);
    }
  }

  /** The browser request that was accepted is answered with success exactly when the
      configuration was saved, and no other request is ever told so. */
  lemma SuccessMeansSaved(expectedState: string, moves: seq<Move>, s: State, i: nat)
    requires Reaches(expectedState, Initial(), moves, s) && i < |s.handlers| && s.handlers[i].pc.Responded?
    ensures s.handlers[i].pc.status == 200 <==> s.winner == Some(Handler(i)) && s.effects.saved
  {
    ReachableInv(expectedState, moves, s);
    assert HandlerKnown(expectedState, s, i);
  }

  /** Every answer, by what it means: a wrong path, a wrong method, a callback that came after
      another one or after the server gave up, a saved login, and for the rest a wrong state or
      an accepted callback whose login failed. */
  lemma AnswersAreExact(expectedState: string, moves: seq<Move>, s: State, i: nat)
    requires Reaches(expectedState, Initial(), moves, s) && i < |s.handlers| && s.handlers[i].pc.Responded?
    ensures var r, status, mine := s.handlers[i].request, s.handlers[i].pc.status, s.winner == Some(Handler(i));
      var proper := r.path == "/callback" && r.verb == "GET" && r.state != "" && r.state == expectedState;
      && status in {200, 400, 404, 405, 409}
      && (status == 404 <==> r.path != "/callback")
      && (status == 405 <==> r.path == "/callback" && r.verb != "GET")
      && (status == 409 <==> proper && s.winner.Some? && !mine)
      && (status == 200 <==> proper && mine && s.effects.saved)
      && (status == 400 <==>
            || (r.path == "/callback" && r.verb == "GET" && (r.state == "" || r.state != expectedState))
            || (proper && mine && !s.effects.saved))
  {
    ReachableInv(expectedState, moves, s);
    assert HandlerKnown(expectedState, s, i);
  }

  /** A successful authorization response to the login that was started. */
  predicate MayLogIn(request: Request, expectedState: string) {
    && request.path == "/callback" && request.verb == "GET"
    && request.state == expectedState != ""
    && request.error == "" && request.code != ""
  }

  /** The command returns success exactly when the configuration was saved and no write to the
      terminal failed; when one did, a saved login still returns an error. */
  lemma ReturnsSuccessIff(expectedState: string, moves: seq<Move>, s: State)
    requires Reaches(expectedState, Initial(), moves, s) && s.login.Ended?
    ensures s.login.outcome == LoggedIn <==> s.effects.saved && !s.effects.outputFailed
    ensures s.login.outcome == OutputFailed <==> s.effects.saved && s.effects.outputFailed
    ensures s.effects.saved <==> s.login.outcome in {LoggedIn, OutputFailed}
  {
    ReachableInv(expectedState, moves, s);
  }

  /** Saving takes a request to the callback path with the expected state and a code. */
  lemma LoginNeedsExpectedState(expectedState: string, moves: seq<Move>, s: State)
    requires Reaches(expectedState, Initial(), moves, s)
    ensures s.effects.saved ==> HandlerWon(s) && MayLogIn(s.handlers[s.winner.value.id].request, expectedState)
  {
    ReachableInv(expectedState, moves, s);
    if s.effects.saved {
      assert HandlerKnown(expectedState, s, s.winner.value.id);
    }
  }

  // ---------------------------------------------------------------- a saved login that returns an error

  lemma {:induction false} ReachesThen(expectedState: string, s: State, moves: seq<Move>, t: State, m: Move)
    requires Reaches(expectedState, s, moves, t) && Enabled(t, m)
    ensures Reaches(expectedState, s, moves + [m], Next(expectedState, t, m))
    decreases |moves|
  {
    if moves == [] {
      assert moves + [m] == [m] && [m][1..] == [];
    } else {
      ReachesThen(expectedState, Next(expectedState, s, moves[0]), moves[1..], t, m);
      assert (moves + [m])[1..] == moves[1..] + [m];
    }
  }

  lemma Moves(expectedState: string, before: seq<Move>, s: State, m: Move) returns (moves: seq<Move>, t: State)
    requires Reaches(expectedState, Initial(), before, s) && Enabled(s, m)
    ensures Reaches(expectedState, Initial(), moves, t) && t == Next(expectedState, s, m)
  {
    moves, t := before + [m], Next(expectedState, s, m);
    ReachesThen(expectedState, Initial(), before, s, m);
  }

  /** The browser's request has claimed the callback and waits. */
  function Claimed(request: Request): State {
    Initial().(accepted := true, events := [CallbackOf(request)], handlers := [HandlerState(request, Wait)],
               winner := Some(Handler(0)), eventsSent := 1)
  }

  lemma RequestClaims(expectedState: string, request: Request) returns (moves: seq<Move>)
    requires Refusal(request, expectedState).None?
    ensures Reaches(expectedState, Initial(), moves, Claimed(request))
  {
    var s := Initial();
    assert Reaches(expectedState, s, [], s);
    moves, s := Moves(expectedState, [], s, Arrive(request));
    moves, s := Moves(expectedState, moves, s, HandlerMove(0));
    moves, s := Moves(expectedState, moves, s, HandlerMove(0));
    moves, s := Moves(expectedState, moves, s, HandlerMove(0));
    moves, s := Moves(expectedState, moves, s, HandlerMove(0));
    moves, s := Moves(expectedState, moves, s, HandlerMove(0));
    assert s == Claimed(request);
  }

  /** The login loop has saved the configuration. */
  function Saved(request: Request): State {
    Claimed(request).(events := [], effects := Effects(true, false, false),
                      login := Completing(Enter, true, LoggedIn, true))
  }

  lemma LoginSaves(expectedState: string, request: Request) returns (moves: seq<Move>)
    requires MayLogIn(request, expectedState)
    ensures Reaches(expectedState, Initial(), moves, Saved(request))
  {
    var s := Claimed(request);
    moves := RequestClaims(expectedState, request);
    moves, s := Moves(expectedState, moves, s, LoginMove(TakeEvent));
    moves, s := Moves(expectedState, moves, s, LoginMove(CallSucceeds));
    moves, s := Moves(expectedState, moves, s, LoginMove(CallSucceeds));
    moves, s := Moves(expectedState, moves, s, LoginMove(CallSucceeds));
    assert s == Saved(request);
  }

  /** And has released the browser's request with the successful result. */
  function Completed(request: Request): State {
    Saved(request).(once := Ran, result := true, done := true, login := Completing(Return, true, LoggedIn, true))
  }

  lemma LoginCompletes(expectedState: string, request: Request) returns (moves: seq<Move>)
    requires MayLogIn(request, expectedState)
    ensures Reaches(expectedState, Initial(), moves, Completed(request))
  {
    var s := Saved(request);
    moves := LoginSaves(expectedState, request);
    moves, s := Moves(expectedState, moves, s, LoginMove(CallSucceeds));
    moves, s := Moves(expectedState, moves, s, LoginMove(CallSucceeds));
    moves, s := Moves(expectedState, moves, s, LoginMove(CallSucceeds));
    moves, s := Moves(expectedState, moves, s, LoginMove(CallSucceeds));
    moves, s := Moves(expectedState, moves, s, LoginMove(CallSucceeds));
    assert s == Completed(request);
  }

  /** Printing the success has failed and the command shuts down. */
  function Unprinted(request: Request): State {
    Completed(request).(effects := Effects(true, false, true), login := ShutdownCompleting(Enter, OutputFailed))
  }

  lemma PrintingFails(expectedState: string, request: Request) returns (moves: seq<Move>)
    requires MayLogIn(request, expectedState)
    ensures Reaches(expectedState, Initial(), moves, Unprinted(request))
  {
    var s := Completed(request);
    moves := LoginCompletes(expectedState, request);
    moves, s := Moves(expectedState, moves, s, LoginMove(CallSucceeds));
    moves, s := Moves(expectedState, moves, s, LoginMove(NoBrowserResult));
    moves, s := Moves(expectedState, moves, s, LoginMove(CallFails));
    assert s == Unprinted(request);
  }

  /** The command has returned its error. */
  function ReturnedError(request: Request): State {
    Unprinted(request).(stopping := true, server := Closed, login := Ended(OutputFailed))
  }

  lemma CommandReturns(expectedState: string, request: Request) returns (moves: seq<Move>)
    requires MayLogIn(request, expectedState)
    ensures Reaches(expectedState, Initial(), moves, ReturnedError(request))
  {
    var s := Unprinted(request);
    moves := PrintingFails(expectedState, request);
    moves, s := Moves(expectedState, moves, s, LoginMove(CallFails));
    moves, s := Moves(expectedState, moves, s, LoginMove(CallFails));
    moves, s := Moves(expectedState, moves, s, LoginMove(CallFails));
    moves, s := Moves(expectedState, moves, s, ServerMove(false));
    moves, s := Moves(expectedState, moves, s, LoginMove(CallFails));
    assert s == ReturnedError(request);
  }

  /** Every acceptable callback has a run in which the configuration is saved, the browser is
      told so, and the command returns an error all the same. */
  lemma SavedLoginCanReturnError(expectedState: string, request: Request) returns (moves: seq<Move>, s: State)
    requires MayLogIn(request, expectedState)
    ensures Reaches(expectedState, Initial(), moves, s) && AllFinished(s)
    ensures s.effects.saved && s.login.outcome == OutputFailed && s.handlers == [HandlerState(request, Responded(200))]
  {
    s := ReturnedError(request);
    moves := CommandReturns(expectedState, request);
    moves, s := Moves(expectedState, moves, s, HandlerMove(0));
    moves, s := Moves(expectedState, moves, s, HandlerMove(0));
    moves, s := Moves(expectedState, moves, s, HandlerMove(0));
    moves, s := Moves(expectedState, moves, s, HandlerMove(0));
  }

  // ---------------------------------------------------------------- waiters

  /** Once the login loop has returned, no handler waits: the done channel is closed and stays
      closed, with a result that no longer changes. */
  lemma WaitersAreReleased(
      expectedState: string, before: seq<Move>, s: State, after: seq<Move>, t: State)
    requires Reaches(expectedState, Initial(), before, s) && Reaches(expectedState, s, after, t)
    requires Returned(s.login)
    ensures t.done && t.result == s.result
    ensures forall i: nat | i < |t.handlers| && t.handlers[i].pc.Wait? :: Enabled(t, HandlerMove(i))
  {
    ReachableInv(expectedState, before, s);
    ReturnedStays(expectedState, s, after, t);
  }

  /** Once the loop has returned, no step stores another result. */
  lemma ReturnedStep(expectedState: string, s: State, m: Move)
    requires Inv(expectedState, s) && Returned(s.login) && Enabled(s, m)
    ensures var t := Next(expectedState, s, m); Returned(t.login) && t.done && t.result == s.result
  {
    assert s.once == Ran;
    if m.HandlerMove? {
      HandlerStepFrame(expectedState, s, m.id);
    } else if m.LoginMove? {
      ShutdownMovesLogin(s, m.choice);
    } else if m.ServerMove? {
      ServerStepFrame(s, m.failed);
    }
  }

  lemma {:induction false} ReturnedStays(expectedState: string, s: State, moves: seq<Move>, t: State)
    requires Inv(expectedState, s) && Returned(s.login) && Reaches(expectedState, s, moves, t)
    ensures t.done && t.result == s.result
    decreases |moves|
  {
    if moves == [] {
      assert OnceRight(s);
    } else {
      NextKeeps(expectedState, s, moves[0]);
      ReturnedStep(expectedState, s, moves[0]);
      ReturnedStays(expectedState, Next(expectedState, s, moves[0]), moves[1..], t);
    }
  }

  // ---------------------------------------------------------------- nobody is left behind

  predicate AllFinished(s: State) {
    && s.login.Ended? && s.server.Closed?
    && forall i: nat | i < |s.handlers| :: s.handlers[i].pc.Responded?
  }

  /** A move of the goroutines that exist, as opposed to a new request. */
  predicate Internal(m: Move) {
    !m.Arrive?
  }

  lemma HolderMoves(expectedState: string, s: State) returns (m: Move)
    requires Inv(expectedState, s) && s.mutex.Some?
    ensures Internal(m) && Enabled(s, m)
  {
    match s.mutex.value
    case Handler(i) =>
      assert HandlerKnown(expectedState, s, i);
      assert HandlerInside(s.handlers[i].pc);
      m := HandlerMove(i);
    case Server => m := ServerMove(false);
    case Login => m := LoginMove(CallFails);
  }

  lemma ServerMoves(expectedState: string, s: State) returns (m: Move)
    requires Inv(expectedState, s) && s.mutex.None? && !s.server.Closed?
    requires s.server.Serving? ==> s.stopping
    requires s.server.FailCompleting? && s.server.complete.Enter? ==> !s.once.Running?
    ensures Internal(m) && Enabled(s, m)
  {
    m := ServerMove(false);
  }

  lemma LoginMoves(expectedState: string, s: State) returns (m: Move)
    requires Inv(expectedState, s) && s.mutex.None? && !s.login.Ended?
    ensures Internal(m) && Enabled(s, m)
  {
    if s.login.Select? {
      m := LoginMove(Timeout);
    } else if s.login.Report? {
      m := LoginMove(NoBrowserResult);
    } else if s.login.Completing? && s.login.complete.Enter? && s.once.Running? {
      m := ServerMoves(expectedState, s);
    } else if s.login.AwaitServer? && !s.server.Closed? {
      m := ServerMoves(expectedState, s);
    } else {
      m := LoginMove(CallFails);
    }
  }

  /** No deadlock: as long as anyone has not finished, somebody can move. */
  lemma SomebodyCanMove(expectedState: string, moves: seq<Move>, s: State)
    requires Reaches(expectedState, Initial(), moves, s) && !AllFinished(s)
    ensures exists m :: Internal(m) && Enabled(s, m)
  {
    ReachableInv(expectedState, moves, s);
    var m: Move;
    if s.mutex.Some? {
      m := HolderMoves(expectedState, s);
    } else if !s.login.Ended? {
      m := LoginMoves(expectedState, s);
    } else {
      var i: nat :| i < |s.handlers| && !s.handlers[i].pc.Responded?;
      assert HandlerKnown(expectedState, s, i);
      m := HandlerMove(i);
    }
    assert Internal(m) && Enabled(s, m);
  }

  function CompleteRank(pc: CompletePc): nat {
    match pc
    case Enter => 5
    case Lock => 4
    case Store => 3
    case Unlock => 2
    case Close => 1
    case Return => 0
  }

  function HandlerRank(pc: HandlerPc): nat {
    match pc
    case Validate => 10
    case AwaitLock => 9
    case Check => 8
    case Send => 7
    case AcceptUnlock => 6
    case Wait => 5
    case AwaitResultLock => 4
    case ReadResult => 3
    case ResultUnlock(_) => 2
    case RefuseUnlock => 1
    case Responded(_) => 0
  }

  function ServerRank(pc: ServerPc): nat {
    match pc
    case Serving => 12
    case FailLock => 11
    case FailCheck => 10
    case ClaimUnlock => 9
    case FailCompleting(complete) => 3 + CompleteRank(complete)
    case SendFailure => 2
    case YieldUnlock => 1
    case Closed => 0
  }

  function LoginRank(pc: LoginPc): nat {
    match pc
    case Select => 20
    case Exchange(_) => 19
    case ParseToken => 18
    case SaveConfig => 17
    case Completing(complete, _, _, _) => 11 + CompleteRank(complete)
    case Report(_) => 10
    case Announce => 9
    case ShutdownCompleting(complete, _) => 3 + CompleteRank(complete)
    case StopServer(_) => 2
    case AwaitServer(_) => 1
    case Ended(_) => 0
  }

  function LoginLeft(s: State): nat {
    LoginRank(s.login) + if s.effects.browserReported then 0 else 1
  }

  function HandlersLeft(handlers: seq<HandlerState>): nat {
    if handlers == [] then 0
    else HandlersLeft(handlers[..|handlers| - 1]) + HandlerRank(handlers[|handlers| - 1].pc)
  }

  /** How many moves all goroutines together still have ahead of them, at most. */
  function MovesLeft(s: State): nat {
    HandlersLeft(s.handlers) + ServerRank(s.server) + LoginLeft(s)
  }

  lemma {:induction false} HandlersLeftUpdate(handlers: seq<HandlerState>, i: nat, h: HandlerState)
    requires i < |handlers|
    ensures HandlersLeft(handlers[i := h]) ==
            HandlersLeft(handlers) - HandlerRank(handlers[i].pc) + HandlerRank(h.pc)
  {
    var n := |handlers| - 1;
    if i < n {
      HandlersLeftUpdate(handlers[..n], i, h);
      assert handlers[i := h][..n] == handlers[..n][i := h];
    } else {
      assert handlers[i := h][..n] == handlers[..n];
    }
  }

  lemma CompleteRankFalls(s: State, actor: Actor, pc: CompletePc, success: bool)
    requires CompleteEnabled(s, actor, pc)
    ensures var (t, next) := CompleteStep(s, actor, pc, success);
      && CompleteRank(next) < CompleteRank(pc)
      && t.handlers == s.handlers && t.server == s.server && t.login == s.login && t.effects == s.effects
  {
  }

  lemma AskingRankFalls(expectedState: string, s: State, i: nat)
    requires i < |s.handlers| && HandlerEnabled(s, i)
    requires s.handlers[i].pc.Validate? || s.handlers[i].pc.AwaitLock? || s.handlers[i].pc.Check?
    ensures var t := HandlerStep(expectedState, s, i);
      && |t.handlers| == |s.handlers| && t.handlers == s.handlers[i := t.handlers[i]]
      && HandlerRank(t.handlers[i].pc) < HandlerRank(s.handlers[i].pc)
      && t.server == s.server && t.login == s.login && t.effects == s.effects
  {
  }

  lemma AcceptingRankFalls(expectedState: string, s: State, i: nat)
    requires i < |s.handlers| && HandlerEnabled(s, i)
    requires s.handlers[i].pc.RefuseUnlock? || s.handlers[i].pc.Send? || s.handlers[i].pc.AcceptUnlock?
    ensures var t := HandlerStep(expectedState, s, i);
      && |t.handlers| == |s.handlers| && t.handlers == s.handlers[i := t.handlers[i]]
      && HandlerRank(t.handlers[i].pc) < HandlerRank(s.handlers[i].pc)
      && t.server == s.server && t.login == s.login && t.effects == s.effects
  {
  }

  lemma AnsweringRankFalls(expectedState: string, s: State, i: nat)
    requires i < |s.handlers| && HandlerEnabled(s, i)
    requires s.handlers[i].pc.Wait? || HandlerReleased(s.handlers[i].pc)
    ensures var t := HandlerStep(expectedState, s, i);
      && |t.handlers| == |s.handlers| && t.handlers == s.handlers[i := t.handlers[i]]
      && HandlerRank(t.handlers[i].pc) < HandlerRank(s.handlers[i].pc)
      && t.server == s.server && t.login == s.login && t.effects == s.effects
  {
  }

  lemma HandlerRankFalls(expectedState: string, s: State, i: nat)
    requires i < |s.handlers| && HandlerEnabled(s, i)
    ensures var t := HandlerStep(expectedState, s, i);
      && |t.handlers| == |s.handlers| && t.handlers == s.handlers[i := t.handlers[i]]
      && HandlerRank(t.handlers[i].pc) < HandlerRank(s.handlers[i].pc)
      && t.server == s.server && t.login == s.login && t.effects == s.effects
  {
    var pc := s.handlers[i].pc;
    if pc.Validate? || pc.AwaitLock? || pc.Check? {
      AskingRankFalls(expectedState, s, i);
    } else if pc.RefuseUnlock? || pc.Send? || pc.AcceptUnlock? {
      AcceptingRankFalls(expectedState, s, i);
    } else {
      AnsweringRankFalls(expectedState, s, i);
    }
  }

  lemma FailingRankFalls(s: State, failed: bool)
    requires ServerEnabled(s, failed) && s.server.FailCompleting?
    ensures var t := ServerStep(s, failed);
      && ServerRank(t.server) < ServerRank(s.server)
      && t.handlers == s.handlers && t.login == s.login && t.effects == s.effects
  {
    if !s.server.complete.Return? {
      CompleteRankFalls(s, Server, s.server.complete, false);
    }
  }

  lemma ServerRankFalls(s: State, failed: bool)
    requires ServerEnabled(s, failed)
    ensures var t := ServerStep(s, failed);
      ServerRank(t.server) < ServerRank(s.server) && t.handlers == s.handlers && t.login == s.login && t.effects == s.effects
  {
    if s.server.FailCompleting? {
      FailingRankFalls(s, failed);
    }
  }

  lemma CompletingRankFalls(s: State, choice: Choice)
    requires LoginEnabled(s, choice) && s.login.Completing?
    ensures var t := LoginStep(s, choice);
      LoginLeft(t) < LoginLeft(s) && t.handlers == s.handlers && t.server == s.server
  {
    if !s.login.complete.Return? {
      CompleteRankFalls(s, Login, s.login.complete, s.login.success);
    }
  }

  lemma ShutdownRankFalls(s: State, choice: Choice)
    requires LoginEnabled(s, choice) && s.login.ShutdownCompleting?
    ensures var t := LoginStep(s, choice);
      LoginLeft(t) < LoginLeft(s) && t.handlers == s.handlers && t.server == s.server
  {
    if !s.login.complete.Return? {
      CompleteRankFalls(s, Login, s.login.complete, false);
    }
  }

  lemma ReportRankFalls(s: State, choice: Choice)
    requires s.login.Report? && LoginEnabled(s, choice)
    ensures var t := ReportStep(s, choice);
      LoginLeft(t) < LoginLeft(s) && t.handlers == s.handlers && t.server == s.server
  {
  }

  lemma ReportingRankFalls(s: State, choice: Choice)
    requires LoginEnabled(s, choice) && Reporting(s.login)
    ensures var t := LoginStep(s, choice);
      LoginLeft(t) < LoginLeft(s) && t.handlers == s.handlers && t.server == s.server
  {
    assert CompleteRank(Enter) == 5;
    if s.login.Report? {
      ReportRankFalls(s, choice);
      assert LoginStep(s, choice) == ReportStep(s, choice);
    }
  }

  lemma StoppingRankFalls(s: State, choice: Choice)
    requires LoginEnabled(s, choice) && (s.login.StopServer? || s.login.AwaitServer?)
    ensures var t := LoginStep(s, choice);
      LoginLeft(t) < LoginLeft(s) && t.handlers == s.handlers && t.server == s.server
  {
  }

  lemma CallRankFalls(s: State, choice: Choice)
    requires LoginEnabled(s, choice) && HasCode(s.login)
    ensures var t := LoginStep(s, choice);
      LoginLeft(t) < LoginLeft(s) && t.handlers == s.handlers && t.server == s.server
  {
    assert LoginStep(s, choice) == CallStep(s, choice);
    assert LoginRank(AfterCall(s.login, choice)) < LoginRank(s.login);
  }

  lemma SelectRankFalls(s: State, choice: Choice)
    requires LoginEnabled(s, choice) && s.login.Select?
    ensures var t := LoginStep(s, choice);
      LoginLeft(t) < LoginLeft(s) && t.handlers == s.handlers && t.server == s.server
  {
    assert LoginStep(s, choice) == SelectStep(s, choice);
  }

  lemma LoginRankFalls(s: State, choice: Choice)
    requires LoginEnabled(s, choice)
    ensures var t := LoginStep(s, choice);
      LoginLeft(t) < LoginLeft(s) && t.handlers == s.handlers && t.server == s.server
  {
    if s.login.Completing? {
      CompletingRankFalls(s, choice);
    } else if s.login.ShutdownCompleting? {
      ShutdownRankFalls(s, choice);
    } else if Reporting(s.login) {
      ReportingRankFalls(s, choice);
    } else if s.login.StopServer? || s.login.AwaitServer? {
      StoppingRankFalls(s, choice);
    } else if HasCode(s.login) {
      CallRankFalls(s, choice);
    } else if s.login.Select? {
      SelectRankFalls(s, choice);
    }
  }

  lemma EveryMoveCounts(expectedState: string, s: State, m: Move)
    requires Enabled(s, m) && Internal(m)
    ensures MovesLeft(Next(expectedState, s, m)) < MovesLeft(s)
  {
    if m.HandlerMove? {
      HandlerRankFalls(expectedState, s, m.id);
      HandlersLeftUpdate(s.handlers, m.id, HandlerStep(expectedState, s, m.id).handlers[m.id]);
    } else if m.ServerMove? {
      ServerRankFalls(s, m.failed);
    } else {
      LoginRankFalls(s, m.choice);
    }
  }

  /** With no new requests every run comes to an end within a known number of moves, so by
      `SomebodyCanMove` it ends with the command returned, the server closed and every browser
      request answered. */
  lemma {:induction false} RunsAreBounded(expectedState: string, s: State, moves: seq<Move>, t: State)
    requires Reaches(expectedState, s, moves, t) && forall m | m in moves :: Internal(m)
    ensures |moves| + MovesLeft(t) <= MovesLeft(s)
    decreases |moves|
  {
    if moves != [] {
      EveryMoveCounts(expectedState, s, moves[0]);
      RunsAreBounded(expectedState, Next(expectedState, s, moves[0]), moves[1..], t);
    }
  }
}
