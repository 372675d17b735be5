/**
  The command line's browser login: HTTP handlers, the server goroutine and the login loop
  meet through a mutex, two one-slot channels, a closed-once channel and a `sync.Once`.
  One step is one operation on one of these.
*/
module LoginCallback {
  import opened Common

  /** The query of one browser request to the loopback listener. */
  datatype Request = Request(path: string, verb: string, state: string, error: string, code: string)

  /** An authorization response as the handler passes it on; `None` is a failed one. */
  type Callback = Option<string>

  datatype Actor = Handler(id: nat) | Server | Login

  /** The steps of `complete`: once, lock, store, unlock, close. */
  datatype CompletePc = Enter | Lock | Store | Unlock | Close | Return

  datatype HandlerPc =
    | Validate
    | AwaitLock
    | Check
    | RefuseUnlock
    | Send
    | AcceptUnlock
    | Wait
    | AwaitResultLock
    | ReadResult
    | ResultUnlock(success: bool)
    | Responded(status: nat)

  datatype ServerPc =
    | Serving
    | FailLock
    | FailCheck
    | YieldUnlock
    | ClaimUnlock
    | FailCompleting(complete: CompletePc)
    | SendFailure
    | Closed

  /** What the command returns; every one but `LoggedIn` is an error. */
  datatype Outcome = LoggedIn | OutputFailed | ServerStopped | AuthenticationFailed | SaveFailed | TimedOut | Cancelled

  datatype LoginPc =
    | Select
    | Exchange(code: string)
    | ParseToken
    | SaveConfig
    | Completing(complete: CompletePc, success: bool, outcome: Outcome, reports: bool)
    | Report(outcome: Outcome)
    | Announce
    | ShutdownCompleting(complete: CompletePc, outcome: Outcome)
    | StopServer(outcome: Outcome)
    | AwaitServer(outcome: Outcome)
    | Ended(outcome: Outcome)

  datatype OnceState = Idle | Running(actor: Actor) | Ran

  datatype HandlerState = HandlerState(request: Request, pc: HandlerPc)

  /** What the command has done outside: saved the configuration, learnt whether the browser
      opened, and failed to write to the terminal. */
  datatype Effects = Effects(saved: bool, browserReported: bool, outputFailed: bool)

  /** The shared fields of the callback server, every goroutine's position, and a record of
      what happened: who claimed the callback (`winner`), and how many messages were sent. */
  datatype State = State(
    mutex: Option<Actor>,
    accepted: bool,
    result: bool,
    events: seq<Callback>,
    failures: nat,
    done: bool,
    once: OnceState,
    stopping: bool,
    handlers: seq<HandlerState>,
    server: ServerPc,
    login: LoginPc,
    effects: Effects,
    winner: Option<Actor>,
    eventsSent: nat,
    failuresSent: nat)

  const CHANNEL_CAPACITY := 1

  function Initial(): State {
    State(None, false, false, [], 0, false, Idle, false, [], Serving, Select,
          Effects(false, false, false), None, 0, 0)
  }

  // ---------------------------------------------------------------- complete

  /** Whether `complete` can take its next step: it waits while another goroutine is inside
      the once, and for the mutex. */
  predicate CompleteEnabled(s: State, actor: Actor, pc: CompletePc) {
    match pc
    case Enter => !s.once.Running?
    case Lock => s.mutex.None?
    case Store => true
    case Unlock => true
    case Close => true
    case Return => false
  }

  function CompleteStep(s: State, actor: Actor, pc: CompletePc, success: bool): (r: (State, CompletePc))
    requires CompleteEnabled(s, actor, pc)
  {
    match pc
    case Enter => if s.once.Ran? then (s, Return) else (s.(once := Running(actor)), Lock)
    case Lock => (s.(mutex := Some(actor)), Store)
    case Store => (s.(result := success), Unlock)
    case Unlock => (s.(mutex := None), Close)
    case Close => (s.(done := true, once := Ran), Return)
  }

  // ---------------------------------------------------------------- handlers

  /** The checks before the lock; `None` when the request may claim the callback. */
  function Refusal(r: Request, expectedState: string): Option<nat> {
    if r.path != "/callback" then Some(404)
    else if r.verb != "GET" then Some(405)
    else if r.state == "" || r.state != expectedState then Some(400)
    else None
  }

  function CallbackOf(r: Request): Callback {
    if r.error != "" then None
    else if r.code == "" then None
    else Some(r.code)
  }

  predicate HandlerEnabled(s: State, i: nat)
    requires i < |s.handlers|
  {
    match s.handlers[i].pc
    case AwaitLock => s.mutex.None?
    case Send => |s.events| < CHANNEL_CAPACITY
    case Wait => s.done
    case AwaitResultLock => s.mutex.None?
    case Responded(_) => false
    case Validate => true
    case Check => true
    case RefuseUnlock => true
    case AcceptUnlock => true
    case ReadResult => true
    case ResultUnlock(_) => true
  }

  function To(s: State, i: nat, pc: HandlerPc): State
    requires i < |s.handlers|
  {
    s.(handlers := s.handlers[i := s.handlers[i].(pc := pc)])
  }

  function HandlerStep(expectedState: string, s: State, i: nat): State
    requires i < |s.handlers| && HandlerEnabled(s, i)
  {
    match s.handlers[i].pc
    case Validate =>
      var refusal := Refusal(s.handlers[i].request, expectedState);
      To(s, i, if refusal.Some? then Responded(refusal.value) else AwaitLock)
    case AwaitLock => To(s.(mutex := Some(Handler(i))), i, Check)
    case Check =>
      if s.accepted then To(s, i, RefuseUnlock)
      else To(s.(accepted := true, winner := Some(Handler(i))), i, Send)
    case RefuseUnlock => To(s.(mutex := None), i, Responded(409))
    case Send =>
      var events := s.events + [CallbackOf(s.handlers[i].request)];
      To(s.(events := events, eventsSent := s.eventsSent + 1), i, AcceptUnlock)
    case AcceptUnlock => To(s.(mutex := None), i, Wait)
    case Wait => To(s, i, AwaitResultLock)
    case AwaitResultLock => To(s.(mutex := Some(Handler(i))), i, ReadResult)
    case ReadResult => To(s, i, ResultUnlock(s.result))
    case ResultUnlock(success) => To(s.(mutex := None), i, Responded(if success then 200 else 400))
  }

  // ---------------------------------------------------------------- the server goroutine

  /** `Serve` returns with an error at any time (`failed`), or normally once it is stopped. */
  predicate ServerEnabled(s: State, failed: bool) {
    match s.server
    case Serving => failed || s.stopping
    case FailLock => s.mutex.None?
    case FailCompleting(pc) => pc == Return || CompleteEnabled(s, Server, pc)
    case SendFailure => s.failures < CHANNEL_CAPACITY
    case Closed => false
    case FailCheck => true
    case YieldUnlock => true
    case ClaimUnlock => true
  }

  function ServerStep(s: State, failed: bool): State
    requires ServerEnabled(s, failed)
  {
    match s.server
    case Serving => s.(server := if failed then FailLock else Closed)
    case FailLock => s.(mutex := Some(Server), server := FailCheck)
    case FailCheck =>
      if s.accepted then s.(server := YieldUnlock)
      else s.(accepted := true, winner := Some(Server), server := ClaimUnlock)
    case YieldUnlock => s.(mutex := None, server := Closed)
    case ClaimUnlock => s.(mutex := None, server := FailCompleting(Enter))
    case FailCompleting(pc) =>
      if pc == Return then s.(server := SendFailure)
      else
        var (t, next) := CompleteStep(s, Server, pc, false);
        t.(server := FailCompleting(next))
    case SendFailure => s.(failures := s.failures + 1, failuresSent := s.failuresSent + 1, server := Closed)
  }

  // ---------------------------------------------------------------- the login loop

  /** How the select, or the call in progress, turns out. A browser result is delivered once;
      `writeFails` when the browser did not open and the address could not be printed either. */
  datatype Choice =
    | TakeFailure
    | TakeEvent
    | TakeBrowserResult(writeFails: bool)
    | NoBrowserResult
    | Timeout
    | CancelContext
    | CallSucceeds
    | CallFails

  predicate LoginEnabled(s: State, choice: Choice) {
    match s.login
    case Select =>
      (match choice
       case TakeFailure => s.failures > 0
       case TakeEvent => s.events != []
       case TakeBrowserResult(_) => !s.effects.browserReported
       case NoBrowserResult => false
       case Timeout => true
       case CancelContext => true
       case CallSucceeds => false
       case CallFails => false)
    case Exchange(_) => choice.CallSucceeds? || choice.CallFails? || choice.CancelContext?
    case ParseToken => choice.CallSucceeds? || choice.CallFails?
    case SaveConfig => choice.CallSucceeds? || choice.CallFails?
    case Report(_) => choice.NoBrowserResult? || (choice.TakeBrowserResult? && !s.effects.browserReported)
    case Announce => choice.CallSucceeds? || choice.CallFails?
    case Completing(pc, _, _, _) => pc == Return || CompleteEnabled(s, Login, pc)
    case ShutdownCompleting(pc, _) => pc == Return || CompleteEnabled(s, Login, pc)
    case StopServer(_) => true
    case AwaitServer(_) => s.server.Closed?
    case Ended(_) => false
  }

  function TakeBrowser(s: State, writeFails: bool): State {
    var outputFailed := s.effects.outputFailed || writeFails;
    s.(effects := s.effects.(browserReported := true, outputFailed := outputFailed))
  }

  function SelectStep(s: State, choice: Choice): State
    requires s.login.Select? && LoginEnabled(s, choice)
  {
    match choice
    case TakeFailure => s.(failures := s.failures - 1, login := Report(ServerStopped))
    case TakeBrowserResult(writeFails) => TakeBrowser(s, writeFails)
    case TakeEvent =>
      var event := s.events[0];
      s.(events := s.events[1..],
         login := if event.None? then Failing(AuthenticationFailed) else Exchange(event.value))
    case Timeout => s.(login := Completing(Enter, false, TimedOut, false))
    case CancelContext => s.(login := Completing(Enter, false, Cancelled, false))
  }

  function Failing(outcome: Outcome): LoginPc {
    Completing(Enter, false, outcome, true)
  }

  /** The result of opening the browser is awaited for a grace period. After a saved login the
      command goes on to announce it, unless printing has failed already. */
  function ReportStep(s: State, choice: Choice): State
    requires s.login.Report? && LoginEnabled(s, choice)
  {
    var t := if choice.TakeBrowserResult? then TakeBrowser(s, choice.writeFails) else s;
    if s.login.outcome != LoggedIn then t.(login := ShutdownCompleting(Enter, s.login.outcome))
    else if t.effects.outputFailed then t.(login := ShutdownCompleting(Enter, OutputFailed))
    else t.(login := Announce)
  }

  /** A code has arrived and is being turned into a stored token. */
  predicate HasCode(pc: LoginPc) {
    pc.Exchange? || pc.ParseToken? || pc.SaveConfig?
  }

  function AfterCall(pc: LoginPc, choice: Choice): LoginPc
    requires HasCode(pc)
  {
    match pc
    case Exchange(_) =>
      if choice.CallSucceeds? then ParseToken
      else Failing(if choice.CancelContext? then Cancelled else AuthenticationFailed)
    case ParseToken => if choice.CallSucceeds? then SaveConfig else Failing(AuthenticationFailed)
    case SaveConfig =>
      if choice.CallSucceeds? then Completing(Enter, true, LoggedIn, true) else Failing(SaveFailed)
  }

  function CallStep(s: State, choice: Choice): State
    requires HasCode(s.login)
  {
    var saved := s.effects.saved || (s.login.SaveConfig? && choice.CallSucceeds?);
    s.(login := AfterCall(s.login, choice), effects := s.effects.(saved := saved))
  }

  /** After the loop returns, the deferred shutdown completes with a failure (without effect
      when something completed before), stops the server and waits for it. */
  function LoginStep(s: State, choice: Choice): State
    requires LoginEnabled(s, choice)
  {
    match s.login
    case Select => SelectStep(s, choice)
    case Exchange(_) => CallStep(s, choice)
    case ParseToken => CallStep(s, choice)
    case SaveConfig => CallStep(s, choice)
    case Completing(pc, success, outcome, reports) =>
      if pc == Return then s.(login := if reports then Report(outcome) else ShutdownCompleting(Enter, outcome))
      else
        var (t, next) := CompleteStep(s, Login, pc, success);
        t.(login := Completing(next, success, outcome, reports))
    case Report(_) => ReportStep(s, choice)
    case Announce =>
      if choice.CallSucceeds? then s.(login := ShutdownCompleting(Enter, LoggedIn))
      else s.(effects := s.effects.(outputFailed := true), login := ShutdownCompleting(Enter, OutputFailed))
    case ShutdownCompleting(pc, outcome) =>
      if pc == Return then s.(login := StopServer(outcome))
      else
        var (t, next) := CompleteStep(s, Login, pc, false);
        t.(login := ShutdownCompleting(next, outcome))
    case StopServer(outcome) => s.(stopping := true, login := AwaitServer(outcome))
    case AwaitServer(outcome) => s.(login := Ended(outcome))
  }

  // ---------------------------------------------------------------- runs

  datatype Move =
    | Arrive(request: Request)
    | HandlerMove(id: nat)
    | ServerMove(failed: bool)
    | LoginMove(choice: Choice)

  predicate Enabled(s: State, m: Move) {
    match m
    case Arrive(_) => s.server.Serving? && !s.stopping
    case HandlerMove(i) => i < |s.handlers| && HandlerEnabled(s, i)
    case ServerMove(failed) => ServerEnabled(s, failed)
    case LoginMove(choice) => LoginEnabled(s, choice)
  }

  function Next(expectedState: string, s: State, m: Move): State
    requires Enabled(s, m)
  {
    match m
    case Arrive(request) => s.(handlers := s.handlers + [HandlerState(request, Validate)])
    case HandlerMove(i) => HandlerStep(expectedState, s, i)
    case ServerMove(failed) => ServerStep(s, failed)
    case LoginMove(choice) => LoginStep(s, choice)
  }

  ghost predicate Reaches(expectedState: string, s: State, moves: seq<Move>, t: State)
    decreases |moves|
  {
    if moves == [] then s == t
    else Enabled(s, moves[0]) && Reaches(expectedState, Next(expectedState, s, moves[0]), moves[1..], t)
  }
}
