/** RetryBulkSender: an application that connects, retries, and paces its sends with three
    simulator timers. Socket calls are answered by the environment (`rc`, `sent`); socket callbacks
    arrive as separate events. */
module RetrySender {
  import opened Common

  /** The application's state. A timer is `Some(t)` while its EventId is running and due at `t`. */
  datatype Sender = Sender(
    pps: nat, watchdog: bool, watchdogSeconds: real,
    running: bool, hasSocket: bool, connected: bool, connecting: bool,
    retry: Option<real>, timeout: Option<real>, send: Option<real>,
    attempts: nat, immediateFails: nat, successes: nat, failCallbacks: nat, timeouts: nat,
    sendSuccess: nat, sendBlocked: nat)

  const RETRY_DELAY := 1.0
  const TIMEOUT_RETRY_DELAY := 0.1
  const BLOCKED_DELAY := 0.005

  function Initial(pps: nat, watchdog: bool, watchdogSeconds: real): Sender {
    Sender(if pps < 1 then 1 else pps, watchdog, watchdogSeconds, false, false, false, false,
           None, None, None, 0, 0, 0, 0, 0, 0, 0)
  }

  function Period(pps: nat): real {
    if pps == 0 then 0.0 else 1.0 / pps as real
  }

  // ---------------------------------------------------------------------------
  // What the handlers do, as functions
  // ---------------------------------------------------------------------------

  function RetryIfIdle(s: Sender, at: real): Sender {
    if s.retry.None? then s.(retry := Some(at)) else s
  }

  function Disconnected(s: Sender): Sender {
    s.(hasSocket := true, connected := false, connecting := false)
  }

  function AfterTryConnect(s: Sender, now: real, rc: int): Sender {
    if !s.running || !s.hasSocket || s.connected || s.connecting then s
    else if rc != 0 then
      RetryIfIdle(s.(attempts := s.attempts + 1, immediateFails := s.immediateFails + 1), now + RETRY_DELAY)
    else
      s.(attempts := s.attempts + 1, connecting := true,
         timeout := if s.watchdog then Some(now + s.watchdogSeconds) else s.timeout)
  }

  function AfterScheduleSend(s: Sender, now: real): Sender {
    if !s.running || !s.connected || !s.hasSocket || s.send.Some? then s
    else s.(send := Some(now + Period(s.pps)))
  }

  function AfterConnected(s: Sender, now: real): Sender {
    AfterScheduleSend(s.(successes := s.successes + 1, connected := true, connecting := false,
                         retry := None, timeout := None), now)
  }

  function AfterConnectFailed(s: Sender, now: real): Sender {
    var s := s.(failCallbacks := s.failCallbacks + 1);
    if !s.running then s else RetryIfIdle(Disconnected(s).(timeout := None), now + RETRY_DELAY)
  }

  function AfterConnectTimeout(s: Sender, now: real): Sender {
    if !s.running || !s.connecting || s.connected then s
    else RetryIfIdle(Disconnected(s.(timeouts := s.timeouts + 1)), now + TIMEOUT_RETRY_DELAY)
  }

  function AfterSendPossible(s: Sender, now: real): Sender {
    if s.connected && s.send.None? then AfterScheduleSend(s, now) else s
  }

  function AfterSendOnce(s: Sender, now: real, sent: int): Sender {
    if !s.running || !s.connected || !s.hasSocket then s
    else if sent > 0 then AfterScheduleSend(s.(sendSuccess := s.sendSuccess + 1), now)
    else s.(sendBlocked := s.sendBlocked + 1, send := Some(now + BLOCKED_DELAY))
  }

  function AfterStart(s: Sender, now: real, rc: int): Sender {
    AfterTryConnect(s.(running := true, hasSocket := true), now, rc)
  }

  function AfterStop(s: Sender): Sender {
    s.(running := false, retry := None, timeout := None, send := None, hasSocket := false)
  }

  // ---------------------------------------------------------------------------
  // The invariant
  // ---------------------------------------------------------------------------

  /** The connection phase: while running exactly one of connected, connecting and a pending retry. */
  ghost predicate OnePhase(s: Sender) {
    && (s.connected ==> !s.connecting && s.retry.None?)
    && (s.connecting ==> s.retry.None?)
    && (s.connected || s.connecting || s.retry.Some?)
  }

  /** What holds of the application between any two events. */
  ghost predicate SenderInv(s: Sender) {
    && s.pps >= 1
    && (s.running <==> s.hasSocket)
    && (s.running ==> OnePhase(s))
    && (s.send.Some? <==> s.running && s.connected)
    && (s.timeout.Some? <==> s.running && s.connecting && s.watchdog)
    && (s.retry.Some? ==> s.running)
    && s.attempts == s.immediateFails + s.successes + s.failCallbacks + s.timeouts + (if s.connecting then 1 else 0)
    && s.successes <= 1 && (s.connected <==> s.successes == 1)
  }

  ghost predicate IsIdle(s: Sender) {
    !s.running && !s.connected && !s.connecting
  }

  ghost predicate NoTimers(s: Sender) {
    s.retry.None? && s.timeout.None? && s.send.None?
  }

  lemma StartKeepsInv(s: Sender, now: real, rc: int)
    requires SenderInv(s) && IsIdle(s)
    ensures var t := AfterStart(s, now, rc);
            && SenderInv(t) && t.attempts == s.attempts + 1
            && t.immediateFails == s.immediateFails + (if rc == 0 then 0 else 1)
            && (if rc == 0 then t.connecting else t.retry == Some(now + RETRY_DELAY))
            && (rc == 0 && s.watchdog ==> t.timeout == Some(now + s.watchdogSeconds))
  {
  }

  lemma StopKeepsInv(s: Sender)
    requires SenderInv(s)
    ensures SenderInv(AfterStop(s)) && NoTimers(AfterStop(s))
  {
  }

  /** A refused attempt is retried exactly 1 s later, an accepted one is under way. */
  lemma TryConnectKeepsInv(s: Sender, now: real, rc: int)
    requires SenderInv(s) && s.retry == Some(now)
    ensures var t := AfterTryConnect(s.(retry := None), now, rc);
            && SenderInv(t) && t.attempts == s.attempts + 1
            && t.immediateFails == s.immediateFails + (if rc == 0 then 0 else 1)
            && (if rc == 0 then t.connecting else t.retry == Some(now + RETRY_DELAY))
            && (rc == 0 && s.watchdog ==> t.timeout == Some(now + s.watchdogSeconds))
  {
  }

  lemma ConnectedKeepsInv(s: Sender, now: real)
    requires SenderInv(s) && s.connecting && s.hasSocket
    ensures var t := AfterConnected(s, now);
            && SenderInv(t) && t.successes == s.successes + 1 && t.send == Some(now + Period(s.pps))
  {
  }

  lemma ConnectFailedKeepsInv(s: Sender, now: real)
    requires SenderInv(s) && s.connecting && s.hasSocket
    ensures var t := AfterConnectFailed(s, now);
            && SenderInv(t) && t.failCallbacks == s.failCallbacks + 1 && t.retry == Some(now + RETRY_DELAY)
  {
  }

  lemma ConnectTimeoutKeepsInv(s: Sender, now: real)
    requires SenderInv(s) && s.timeout == Some(now)
    ensures var t := AfterConnectTimeout(s.(timeout := None), now);
            && SenderInv(t) && t.timeouts == s.timeouts + 1 && t.retry == Some(now + TIMEOUT_RETRY_DELAY)
  {
  }

  /** A connected sender always has its next send planned, so the callback finds nothing to do. */
  lemma SendPossibleKeepsInv(s: Sender, now: real)
    requires SenderInv(s)
    ensures AfterSendPossible(s, now) == s
  {
  }

  /** Every send is followed by another, one period after a success and 5 ms after a block. */
  lemma SendKeepsInv(s: Sender, now: real, sent: int)
    requires SenderInv(s) && s.send == Some(now)
    ensures var t := AfterSendOnce(s.(send := None), now, sent);
            && SenderInv(t) && t.send == Some(now + (if sent > 0 then Period(s.pps) else BLOCKED_DELAY))
            && t.sendSuccess == s.sendSuccess + (if sent > 0 then 1 else 0)
            && t.sendBlocked == s.sendBlocked + (if sent > 0 then 0 else 1)
  {
  }

  // ---------------------------------------------------------------------------
  // The application class
  // ---------------------------------------------------------------------------

  class RetryBulkSender {
    const pps: nat
    const connectWatchdog: bool
    const connectWatchdogSeconds: real
    var running: bool
    var hasSocket: bool
    var connected: bool
    var connecting: bool
    var retryEvent: Option<real>
    var connectTimeoutEvent: Option<real>
    var sendEvent: Option<real>
    var connectAttempts: nat
    var connectImmediateFail: nat
    var connectSuccess: nat
    var connectFailCallback: nat
    var connectTimeouts: nat
    var sendSuccess: nat
    var sendBlocked: nat

    ghost function View(): Sender reads this {
      Sender(pps, connectWatchdog, connectWatchdogSeconds, running, hasSocket, connected, connecting,
             retryEvent, connectTimeoutEvent, sendEvent,
             connectAttempts, connectImmediateFail, connectSuccess, connectFailCallback, connectTimeouts,
             sendSuccess, sendBlocked)
    }

    constructor (pps: nat, watchdog: bool, watchdogSeconds: real)
      ensures View() == Initial(pps, watchdog, watchdogSeconds) && Valid() && IsIdle(View())
    {
      this.pps := if pps < 1 then 1 else pps;
      connectWatchdog, connectWatchdogSeconds := watchdog, watchdogSeconds;
      running, hasSocket, connected, connecting := false, false, false, false;
      retryEvent, connectTimeoutEvent, sendEvent := None, None, None;
      connectAttempts, connectImmediateFail, connectSuccess, connectFailCallback, connectTimeouts := 0, 0, 0, 0, 0;
      sendSuccess, sendBlocked := 0, 0;
    }

    ghost predicate Valid() reads this {
      SenderInv(View())
    }

    /** The sender was valid until its retry timer went off, which is now; likewise for the others. */
    ghost predicate RetryFired(now: real) reads this {
      retryEvent.None? && SenderInv(View().(retry := Some(now)))
    }

    ghost predicate TimeoutFired(now: real) reads this {
      connectTimeoutEvent.None? && SenderInv(View().(timeout := Some(now)))
    }

    ghost predicate SendFired(now: real) reads this {
      sendEvent.None? && SenderInv(View().(send := Some(now)))
    }

    method SetupSocket()
      modifies this`hasSocket
      ensures hasSocket
    {
      hasSocket := true;
    }

    method CancelRetry()
      modifies this`retryEvent
      ensures View() == old(View()).(retry := None)
    {
      if retryEvent.Some? { retryEvent := None; }
    }

    method CancelTimeout()
      modifies this`connectTimeoutEvent
      ensures View() == old(View()).(timeout := None)
    {
      if connectTimeoutEvent.Some? { connectTimeoutEvent := None; }
    }

    method ScheduleRetry(at: real)
      modifies this`retryEvent
      ensures View() == RetryIfIdle(old(View()), at)
    {
      if retryEvent.None? { retryEvent := Some(at); }
    }

    /** A new socket in place of the old one. */
    method DropConnection()
      modifies this`hasSocket, this`connected, this`connecting
      ensures View() == Disconnected(old(View()))
    {
      if hasSocket { hasSocket := false; }
      SetupSocket();
      connected, connecting := false, false;
    }

    method StartApplication(now: real, rc: int)
      modifies this
      ensures View() == AfterStart(old(View()), now, rc)
      ensures old(Valid() && IsIdle(View())) ==>
                && Valid() && connectAttempts == old(connectAttempts) + 1
                && connectImmediateFail == old(connectImmediateFail) + (if rc == 0 then 0 else 1)
                && (if rc == 0 then connecting else retryEvent == Some(now + RETRY_DELAY))
                && (rc == 0 && connectWatchdog ==> connectTimeoutEvent == Some(now + connectWatchdogSeconds))
    {
      hide SenderInv;
      ghost var before := View();
      if SenderInv(before) && IsIdle(before) { StartKeepsInv(before, now, rc); }
      running := true;
      SetupSocket();
      TryConnect(now, rc);
    }

    method StopApplication()
      modifies this
      ensures View() == AfterStop(old(View()))
      ensures old(Valid()) ==> Valid()
    {
      hide SenderInv;
      ghost var before := View();
      if SenderInv(before) { StopKeepsInv(before); }
      running := false;
      CancelRetry();
      CancelTimeout();
      if sendEvent.Some? { sendEvent := None; }
      if hasSocket { hasSocket := false; }
    }

    /** The handler of the retry timer: it always makes an attempt, and a refused one arms the timer. */
    method TryConnect(now: real, rc: int)
      modifies this
      ensures View() == AfterTryConnect(old(View()), now, rc)
      ensures old(RetryFired(now)) ==>
                && Valid() && connectAttempts == old(connectAttempts) + 1
                && connectImmediateFail == old(connectImmediateFail) + (if rc == 0 then 0 else 1)
                && (if rc == 0 then connecting else retryEvent == Some(now + RETRY_DELAY))
                && (rc == 0 && connectWatchdog ==> connectTimeoutEvent == Some(now + connectWatchdogSeconds))
    {
      hide SenderInv;
      ghost var before := View();
      if RetryFired(now) {
        TryConnectKeepsInv(before.(retry := Some(now)), now, rc);
        assert before.(retry := Some(now)).(retry := None) == before;
      }
      if !running || !hasSocket || connected || connecting { return; }
      connectAttempts := connectAttempts + 1;
      if rc != 0 {
        connectImmediateFail := connectImmediateFail + 1;
        ScheduleRetry(now + RETRY_DELAY);
      } else {
        connecting := true;
        if connectWatchdog {
          CancelTimeout();
          connectTimeoutEvent := Some(now + connectWatchdogSeconds);
        }
      }
    }

    method OnConnected(now: real)
      modifies this
      ensures View() == AfterConnected(old(View()), now)
      ensures connectSuccess == old(connectSuccess) + 1
      ensures old(Valid() && connecting && hasSocket) ==> Valid() && sendEvent == Some(now + Period(pps))
    {
      hide SenderInv;
      ghost var before := View();
      if SenderInv(before) && connecting && hasSocket { ConnectedKeepsInv(before, now); }
      connectSuccess := connectSuccess + 1;
      connected, connecting := true, false;
      CancelRetry();
      CancelTimeout();
      ScheduleSend(now);
    }

    method OnConnectFailed(now: real)
      modifies this
      ensures View() == AfterConnectFailed(old(View()), now)
      ensures connectFailCallback == old(connectFailCallback) + 1
      ensures old(Valid() && connecting && hasSocket) ==> Valid() && retryEvent == Some(now + RETRY_DELAY)
    {
      hide SenderInv;
      ghost var before := View();
      if SenderInv(before) && connecting && hasSocket { ConnectFailedKeepsInv(before, now); }
      connectFailCallback := connectFailCallback + 1;
      if !running { return; }
      DropConnection();
      CancelTimeout();
      ScheduleRetry(now + RETRY_DELAY);
    }

    method OnConnectTimeout(now: real)
      modifies this
      ensures View() == AfterConnectTimeout(old(View()), now)
      ensures old(TimeoutFired(now)) ==>
                Valid() && connectTimeouts == old(connectTimeouts) + 1 && retryEvent == Some(now + TIMEOUT_RETRY_DELAY)
    {
      hide SenderInv;
      ghost var before := View();
      if TimeoutFired(now) {
        ConnectTimeoutKeepsInv(before.(timeout := Some(now)), now);
        assert before.(timeout := Some(now)).(timeout := None) == before;
      }
      if !running || !connecting || connected { return; }
      connectTimeouts := connectTimeouts + 1;
      DropConnection();
      ScheduleRetry(now + TIMEOUT_RETRY_DELAY);
    }

    method OnSendPossible(now: real)
      modifies this
      ensures View() == AfterSendPossible(old(View()), now)
      ensures old(Valid()) ==> View() == old(View())
    {
      hide SenderInv;
      ghost var before := View();
      if SenderInv(before) { SendPossibleKeepsInv(before, now); }
      if connected && sendEvent.None? { ScheduleSend(now); }
    }

    /** The handler of the send timer: it always sends, and always plans the next send. */
    method SendOnce(now: real, sent: int)
      modifies this
      ensures View() == AfterSendOnce(old(View()), now, sent)
      ensures old(SendFired(now)) ==>
                && Valid() && sendEvent == Some(now + (if sent > 0 then Period(pps) else BLOCKED_DELAY))
                && sendSuccess == old(sendSuccess) + (if sent > 0 then 1 else 0)
                && sendBlocked == old(sendBlocked) + (if sent > 0 then 0 else 1)
    {
      hide SenderInv;
      ghost var before := View();
      if SendFired(now) {
        SendKeepsInv(before.(send := Some(now)), now, sent);
        assert before.(send := Some(now)).(send := None) == before;
      }
      if !running || !connected || !hasSocket { return; }
      if sent > 0 {
        sendSuccess := sendSuccess + 1;
        ScheduleSend(now);
      } else {
        sendBlocked := sendBlocked + 1;
        sendEvent := Some(now + BLOCKED_DELAY);
      }
    }

    method ScheduleSend(now: real)
      modifies this
      ensures View() == AfterScheduleSend(old(View()), now)
    {
      if !running || !connected || !hasSocket || sendEvent.Some? { return; }
      sendEvent := Some(now + Period(pps));
    }
  }

  // ---------------------------------------------------------------------------
  // Runs
  // ---------------------------------------------------------------------------

  /** What can happen to the application. A fired timer is no longer running in its own handler. */
  datatype Step =
    | Start(rc: int)
    | FireRetry(rc: int)
    | FireTimeout
    | FireSend(sent: int)
    | Connected
    | ConnectFailed
    | SendPossible
    | Stop

  datatype Event = Event(time: real, step: Step)

  datatype World = World(s: Sender, now: real, started: bool, stopped: bool)

  ghost predicate NotBefore(timer: Option<real>, t: real) {
    timer.Some? ==> t <= timer.value
  }

  /** The simulator runs the earliest event; the application starts once and stops once; a
      connection outcome is reported only while connecting, and closed sockets stay silent. */
  ghost predicate Enabled(w: World, e: Event) {
    && w.now <= e.time
    && NotBefore(w.s.retry, e.time) && NotBefore(w.s.timeout, e.time) && NotBefore(w.s.send, e.time)
    && match e.step
       case Start(_) => !w.started
       case Stop => w.started && !w.stopped
       case FireRetry(_) => w.s.retry == Some(e.time)
       case FireTimeout => w.s.timeout == Some(e.time)
       case FireSend(_) => w.s.send == Some(e.time)
       case Connected => w.s.hasSocket && w.s.connecting
       case ConnectFailed => w.s.hasSocket && w.s.connecting
       case SendPossible => w.s.hasSocket
  }

  ghost function Handle(s: Sender, e: Event): Sender {
    match e.step
    case Start(rc) => AfterStart(s, e.time, rc)
    case Stop => AfterStop(s)
    case FireRetry(rc) => AfterTryConnect(s.(retry := None), e.time, rc)
    case FireTimeout => AfterConnectTimeout(s.(timeout := None), e.time)
    case FireSend(sent) => AfterSendOnce(s.(send := None), e.time, sent)
    case Connected => AfterConnected(s, e.time)
    case ConnectFailed => AfterConnectFailed(s, e.time)
    case SendPossible => AfterSendPossible(s, e.time)
  }

  ghost function Next(w: World, e: Event): World {
    World(Handle(w.s, e), e.time, w.started || e.step.Start?, w.stopped || e.step.Stop?)
  }

  ghost predicate IsRun(w: World, run: seq<Event>)
    decreases |run|
  {
    run != [] ==> Enabled(w, run[0]) && IsRun(Next(w, run[0]), run[1..])
  }

  ghost function After(w: World, run: seq<Event>): World
    decreases |run|
  {
    if run == [] then w else After(Next(w, run[0]), run[1..])
  }

  ghost predicate Inv(w: World) {
    && SenderInv(w.s)
    && (w.s.running <==> w.started && !w.stopped)
    && (!w.started ==> !w.stopped && IsIdle(w.s))
  }

  lemma InvKept(w: World, e: Event)
    requires Inv(w) && Enabled(w, e)
    ensures Inv(Next(w, e))
  {
    hide SenderInv;
    var s, t := w.s, e.time;
    match e.step
    case Start(rc) => StartKeepsInv(s, t, rc);
    case Stop => StopKeepsInv(s);
    case FireRetry(rc) => TryConnectKeepsInv(s, t, rc);
    case FireTimeout => ConnectTimeoutKeepsInv(s, t);
    case FireSend(sent) => SendKeepsInv(s, t, sent);
    case Connected => ConnectedKeepsInv(s, t);
    case ConnectFailed => ConnectFailedKeepsInv(s, t);
    case SendPossible => SendPossibleKeepsInv(s, t);
  }

  lemma {:induction false} InvAlways(w: World, run: seq<Event>)
    requires Inv(w) && IsRun(w, run)
    ensures Inv(After(w, run))
    decreases |run|
  {
    if run != [] {
      InvKept(w, run[0]);
      InvAlways(Next(w, run[0]), run[1..]);
    }
  }

  ghost function Boot(pps: nat, watchdog: bool, watchdogSeconds: real): World {
    World(Initial(pps, watchdog, watchdogSeconds), 0.0, false, false)
  }

  /** Between any two events of any run: one connection phase, a send timer exactly while connected,
      a watchdog exactly while connecting, every connection attempt accounted for, and at most one of
      them successful: a connected sender never connects again. */
  lemma RunInvariants(pps: nat, watchdog: bool, watchdogSeconds: real, run: seq<Event>)
    requires IsRun(Boot(pps, watchdog, watchdogSeconds), run)
    ensures var w := After(Boot(pps, watchdog, watchdogSeconds), run);
            && (w.s.running ==> OnePhase(w.s))
            && (w.s.running ==> (w.s.send.Some? <==> w.s.connected))
            && (w.s.running ==> (w.s.timeout.Some? <==> w.s.connecting && w.s.watchdog))
            && w.s.attempts == w.s.immediateFails + w.s.successes + w.s.failCallbacks + w.s.timeouts
                               + (if w.s.connecting then 1 else 0)
            && w.s.successes <= 1 && (w.s.connected <==> w.s.successes == 1)
            && (w.stopped ==> NoTimers(w.s))
  {
    InvAlways(Boot(pps, watchdog, watchdogSeconds), run);
  }

  /** After StopApplication no handler whatsoever, not even a stray one, calls Connect or Send or
      arms a timer; only a restart would. */
  lemma StoppedIsInert(s: Sender, e: Event)
    requires !s.running && NoTimers(s) && !e.step.Start?
    ensures var t := Handle(s, e);
            && !t.running && NoTimers(t)
            && t.attempts == s.attempts && t.sendSuccess == s.sendSuccess && t.sendBlocked == s.sendBlocked
  {
  }

  // ---------------------------------------------------------------------------
  // What every event does to every timer and counter
  // ---------------------------------------------------------------------------

  datatype Timer = RetryTimer | Watchdog | SendTimer

  ghost function Running(s: Sender, timer: Timer): Option<real> {
    match timer
    case RetryTimer => s.retry
    case Watchdog => s.timeout
    case SendTimer => s.send
  }

  /** The events that set or cancel a timer; going off is one of them. */
  ghost predicate Touches(step: Step, timer: Timer) {
    match timer
    case SendTimer => step.Connected? || step.FireSend? || step.Stop?
    case _ => !step.FireSend? && !step.SendPossible?
  }

  /** When the timer is due after an event that touches it; `None` if it is not running. A refusal or
      a failure is answered after 1 s, a timeout after 0.1 s; an accepted attempt is watched for
      `watchdogSeconds`; sends follow after one period, or 5 ms after a blocked one. */
  ghost function DueAfter(e: Event, timer: Timer, pps: nat, watchdog: bool, watchdogSeconds: real): Option<real>
    requires pps >= 1
  {
    match (timer, e.step)
    case (RetryTimer, Start(rc)) => if rc == 0 then None else Some(e.time + 1.0)
    case (RetryTimer, FireRetry(rc)) => if rc == 0 then None else Some(e.time + 1.0)
    case (RetryTimer, ConnectFailed) => Some(e.time + 1.0)
    case (RetryTimer, FireTimeout) => Some(e.time + 0.1)
    case (Watchdog, Start(rc)) => if rc == 0 && watchdog then Some(e.time + watchdogSeconds) else None
    case (Watchdog, FireRetry(rc)) => if rc == 0 && watchdog then Some(e.time + watchdogSeconds) else None
    case (SendTimer, Connected) => Some(e.time + 1.0 / pps as real)
    case (SendTimer, FireSend(sent)) => Some(e.time + if sent > 0 then 1.0 / pps as real else 0.005)
    case _ => None
  }

  ghost function DueFor(s: Sender, e: Event, timer: Timer): Option<real>
    requires s.pps >= 1
  {
    DueAfter(e, timer, s.pps, s.watchdog, s.watchdogSeconds)
  }

  /** Between events nothing but these events moves a timer, and they set it to these times. */
  lemma TimerAfter(w: World, e: Event, timer: Timer)
    requires Inv(w) && Enabled(w, e)
    ensures Running(Next(w, e).s, timer)
         == if Touches(e.step, timer) then DueFor(w.s, e, timer) else Running(w.s, timer)
    ensures var s, t := w.s, Next(w, e).s;
            s.pps == t.pps && s.watchdog == t.watchdog && s.watchdogSeconds == t.watchdogSeconds
  {
  }

  /** The timer that is due at `d` before event `i` was set by event `j` and not touched since. */
  ghost predicate SetBy(s: Sender, run: seq<Event>, i: nat, j: nat, timer: Timer, d: real)
    requires s.pps >= 1 && i <= |run|
  {
    && j < i && Touches(run[j].step, timer) && DueFor(s, run[j], timer) == Some(d)
    && forall k :: j < k < i ==> !Touches(run[k].step, timer)
  }

  ghost function StateAt(w: World, run: seq<Event>, i: nat): World
    requires i <= |run|
  {
    if i == 0 then w else Next(StateAt(w, run, i - 1), run[i - 1])
  }

  lemma {:induction false} StateAtShift(w: World, run: seq<Event>, i: nat)
    requires run != [] && i < |run|
    ensures StateAt(w, run, i + 1) == StateAt(Next(w, run[0]), run[1..], i)
  {
    hide Next;
    if i > 0 { StateAtShift(w, run, i - 1); }
  }

  /** Event by event: every event of a run is enabled where it happens, and the invariant holds there. */
  lemma {:induction false} RunAt(w: World, run: seq<Event>, i: nat)
    requires Inv(w) && IsRun(w, run) && i <= |run|
    ensures Inv(StateAt(w, run, i)) && (i < |run| ==> Enabled(StateAt(w, run, i), run[i]))
    decreases i
  {
    hide Next, Enabled, Inv;
    if i > 0 {
      InvKept(w, run[0]);
      RunAt(Next(w, run[0]), run[1..], i - 1);
      StateAtShift(w, run, i - 1);
    }
  }

  lemma {:induction false} TimerWasSet(w: World, run: seq<Event>, i: nat, timer: Timer)
    requires Inv(w) && IsRun(w, run) && i <= |run| && NoTimers(w.s)
    ensures var s := StateAt(w, run, i).s;
            && s.pps == w.s.pps && s.watchdog == w.s.watchdog && s.watchdogSeconds == w.s.watchdogSeconds
            && (Running(s, timer).Some? ==> exists j: nat :: SetBy(w.s, run, i, j, timer, Running(s, timer).value))
  {
    hide Next, Enabled, DueAfter, Touches, IsRun, OnePhase;
    if i > 0 {
      TimerWasSet(w, run, i - 1, timer);
      RunAt(w, run, i - 1);
      TimerAfter(StateAt(w, run, i - 1), run[i - 1], timer);
      var s, t := StateAt(w, run, i - 1).s, StateAt(w, run, i).s;
      if Running(t, timer).Some? {
        var d := Running(t, timer).value;
        if Touches(run[i - 1].step, timer) {
          assert SetBy(w.s, run, i, i - 1, timer, d);
        } else {
          var j: nat :| SetBy(w.s, run, i - 1, j, timer, d);
          assert SetBy(w.s, run, i, j, timer, d);
        }
      }
    }
  }

  /** A timer that goes off was set by an earlier event to exactly this time, and no event that could
      have ended it came in between. So a retry comes exactly 1 s after a refusal or a failure and 0.1 s
      after a timeout, a watchdog ends an attempt exactly `watchdogSeconds` after it was accepted and
      only if there was no outcome, and a send comes one period or 5 ms after the one before. */
  lemma TimersFireOnTime(pps: nat, watchdog: bool, watchdogSeconds: real, run: seq<Event>, i: nat) returns (j: nat)
    requires IsRun(Boot(pps, watchdog, watchdogSeconds), run) && i < |run|
    requires run[i].step.FireRetry? || run[i].step.FireTimeout? || run[i].step.FireSend?
    ensures var timer := if run[i].step.FireRetry? then RetryTimer else if run[i].step.FireTimeout? then Watchdog else SendTimer;
            && j < i && Touches(run[j].step, timer)
            && DueAfter(run[j], timer, if pps < 1 then 1 else pps, watchdog, watchdogSeconds) == Some(run[i].time)
            && forall k :: j < k < i ==> !Touches(run[k].step, timer)
  {
    var w := Boot(pps, watchdog, watchdogSeconds);
    var timer := if run[i].step.FireRetry? then RetryTimer else if run[i].step.FireTimeout? then Watchdog else SendTimer;
    RunAt(w, run, i);
    TimerWasSet(w, run, i, timer);
    hide Next, IsRun, SenderInv;
    assert Running(StateAt(w, run, i).s, timer) == Some(run[i].time);
    j :| SetBy(w.s, run, i, j, timer, run[i].time);
  }

  /** In particular the watchdog: the attempt it ends was accepted exactly `watchdogSeconds` before, and
      neither connected nor failed in between. */
  lemma WatchdogFiresOnTime(pps: nat, watchdog: bool, watchdogSeconds: real, run: seq<Event>, i: nat) returns (j: nat)
    requires IsRun(Boot(pps, watchdog, watchdogSeconds), run) && i < |run| && run[i].step.FireTimeout?
    ensures j < i && run[i].time == run[j].time + watchdogSeconds
    ensures run[j].step == Start(0) || run[j].step == FireRetry(0)
    ensures forall k :: j < k < i ==> run[k].step.SendPossible? || run[k].step.FireSend?
  {
    j := TimersFireOnTime(pps, watchdog, watchdogSeconds, run, i);
  }

  // Counters

  datatype Counter = Attempts | ImmediateFails | Successes | FailCallbacks | Timeouts | SendSuccess | SendBlocked

  ghost function Counted(s: Sender, c: Counter): nat {
    match c
    case Attempts => s.attempts
    case ImmediateFails => s.immediateFails
    case Successes => s.successes
    case FailCallbacks => s.failCallbacks
    case Timeouts => s.timeouts
    case SendSuccess => s.sendSuccess
    case SendBlocked => s.sendBlocked
  }

  ghost predicate Counts(step: Step, c: Counter) {
    match c
    case Attempts => step.Start? || step.FireRetry?
    case ImmediateFails => (step.Start? || step.FireRetry?) && step.rc != 0
    case Successes => step.Connected?
    case FailCallbacks => step.ConnectFailed?
    case Timeouts => step.FireTimeout?
    case SendSuccess => step.FireSend? && step.sent > 0
    case SendBlocked => step.FireSend? && step.sent <= 0
  }

  lemma CounterAfter(w: World, e: Event, c: Counter)
    requires Inv(w) && Enabled(w, e)
    ensures Counted(Next(w, e).s, c) == Counted(w.s, c) + if Counts(e.step, c) then 1 else 0
  {
  }

  ghost function Occurrences(run: seq<Event>, c: Counter): nat {
    if run == [] then 0 else (if Counts(run[0].step, c) then 1 else 0) + Occurrences(run[1..], c)
  }

  lemma {:induction false} CountersAddUp(w: World, run: seq<Event>, c: Counter)
    requires Inv(w) && IsRun(w, run)
    ensures Counted(After(w, run).s, c) == Counted(w.s, c) + Occurrences(run, c)
    decreases |run|
  {
    hide Next, Enabled, Counts, Inv;
    if run != [] {
      CounterAfter(w, run[0], c);
      InvKept(w, run[0]);
      CountersAddUp(Next(w, run[0]), run[1..], c);
    }
  }

  /** After any run each counter is the number of events of its kind. */
  lemma CountersCount(pps: nat, watchdog: bool, watchdogSeconds: real, run: seq<Event>, c: Counter)
    requires IsRun(Boot(pps, watchdog, watchdogSeconds), run)
    ensures Counted(After(Boot(pps, watchdog, watchdogSeconds), run).s, c) == Occurrences(run, c)
  {
    CountersAddUp(Boot(pps, watchdog, watchdogSeconds), run, c);
  }

  // ---------------------------------------------------------------------------
  // Pacing
  // ---------------------------------------------------------------------------

  /** The two socket calls that are rate limited: successful sends and connection attempts. */
  datatype Call = SendCall | ConnectCall

  ghost function Made(s: Sender, call: Call): nat {
    match call
    case SendCall => s.sendSuccess
    case ConnectCall => s.attempts
  }

  /** The least time between two of them, and its inverse. */
  ghost function Gap(s: Sender, call: Call): real {
    match call
    case SendCall => Period(s.pps)
    case ConnectCall => TIMEOUT_RETRY_DELAY
  }

  ghost function Rate(s: Sender, call: Call): real {
    match call
    case SendCall => s.pps as real
    case ConnectCall => 10.0
  }

  /** No such call can be made before this time. */
  ghost function Due(w: World, call: Call): real {
    match call
    case SendCall => if w.s.send.Some? then w.s.send.value else w.now
    case ConnectCall =>
      if w.s.retry.Some? then w.s.retry.value
      else if w.started then w.now + TIMEOUT_RETRY_DELAY
      else w.now
  }

  /** How many of them are made during the events of `run` with a time in [a, b]. */
  ghost function Growth(w: World, run: seq<Event>, call: Call, a: real, b: real): int
    decreases |run|
  {
    if run == [] then 0 else
      var next := Next(w, run[0]);
      (if a <= run[0].time <= b then Made(next.s, call) - Made(w.s, call) else 0) + Growth(next, run[1..], call, a, b)
  }

  /** Once the application has stopped nothing more happens to it. */
  lemma StoppedRunEnds(w: World, run: seq<Event>)
    requires Inv(w) && w.stopped && IsRun(w, run)
    ensures run == []
  {
  }

  lemma StopAddsNothing(w: World, run: seq<Event>, call: Call, a: real, b: real)
    requires Inv(w) && IsRun(w, run) && run != [] && run[0].step.Stop?
    ensures Growth(w, run, call, a, b) == 0
  {
    InvKept(w, run[0]);
    StoppedRunEnds(Next(w, run[0]), run[1..]);
  }

  /** A call pushes the next one at least a full gap away; nothing else brings it closer. */
  lemma DueAdvances(w: World, e: Event, call: Call)
    requires Inv(w) && Enabled(w, e) && !e.step.Stop?
    ensures var next := Next(w, e);
            && Due(w, call) <= Due(next, call)
            && Rate(next.s, call) == Rate(w.s, call)
            && Made(w.s, call) <= Made(next.s, call) <= Made(w.s, call) + 1
            && (Made(next.s, call) > Made(w.s, call) ==>
                  Due(w, call) <= e.time && e.time + Gap(w.s, call) <= Due(next, call))
  {
    assert Period(w.s.pps) > 0.0;
  }

  lemma GapTimesRate(s: Sender, call: Call)
    requires s.pps >= 1
    ensures Gap(s, call) * Rate(s, call) == 1.0 && Rate(s, call) >= 0.0
  {
  }

  ghost function Max(x: real, y: real): real {
    if x < y then y else x
  }

  /** At most one call at `e` and then one every `1/p`, up to time `b`. */
  ghost predicate Paced(growth: int, e: real, b: real, p: real) {
    && growth >= 0
    && (e > b ==> growth == 0)
    && (e <= b ==> growth as real <= (b - e) * p + 1.0)
  }

  lemma ScaledIsMore(x: real, y: real, p: real)
    requires x <= y && p >= 0.0
    ensures x * p <= y * p
  {
  }

  lemma NothingIsPaced(e: real, b: real, p: real)
    requires p >= 0.0
    ensures Paced(0, e, b, p)
  {
    if e <= b { ScaledIsMore(0.0, b - e, p); }
  }

  lemma PacedFromEarlier(growth: int, e: real, later: real, b: real, p: real)
    requires e <= later && p >= 0.0 && Paced(growth, later, b, p)
    ensures Paced(growth, e, b, p)
  {
    if later <= b {
      ScaledIsMore(b - later, b - e, p);
    } else if e <= b {
      ScaledIsMore(0.0, b - e, p);
    }
  }

  lemma PacedAfterCall(growth: int, t: real, q: real, b: real, p: real)
    requires t <= b && p >= 0.0 && q * p == 1.0 && Paced(growth, t + q, b, p)
    ensures Paced(growth + 1, t, b, p)
  {
    Distribute(b - t, q, p);
    assert b - (t + q) == b - t - q;
    if t + q > b { ScaledIsMore(0.0, b - t, p); }
  }

  lemma Distribute(x: real, y: real, p: real)
    ensures (x - y) * p == x * p - y * p
  {
  }

  lemma {:induction false} GrowthPaced(w: World, run: seq<Event>, call: Call, a: real, b: real)
    requires Inv(w) && IsRun(w, run)
    ensures Paced(Growth(w, run, call, a, b), Max(a, Due(w, call)), b, Rate(w.s, call))
    decreases |run|
  {
    hide Next, Enabled, Paced, Due, Gap, Rate, Made;
    var p := Rate(w.s, call);
    GapTimesRate(w.s, call);
    if run == [] {
      NothingIsPaced(Max(a, Due(w, call)), b, p);
    } else if run[0].step.Stop? {
      StopAddsNothing(w, run, call, a, b);
      NothingIsPaced(Max(a, Due(w, call)), b, p);
    } else {
      var t, next := run[0].time, Next(w, run[0]);
      var rest := Growth(next, run[1..], call, a, b);
      InvKept(w, run[0]);
      GrowthPaced(next, run[1..], call, a, b);
      DueAdvances(w, run[0], call);
      if Made(next.s, call) > Made(w.s, call) && a <= t <= b {
        PacedFromEarlier(rest, t + Gap(w.s, call), Max(a, Due(next, call)), b, p);
        PacedAfterCall(rest, t, Gap(w.s, call), b, p);
        PacedFromEarlier(rest + 1, Max(a, Due(w, call)), t, b, p);
      } else {
        PacedFromEarlier(rest, Max(a, Due(w, call)), Max(a, Due(next, call)), b, p);
      }
    }
  }

  lemma WindowBound(w: World, run: seq<Event>, call: Call, a: real, b: real)
    requires Inv(w) && IsRun(w, run) && a <= b
    ensures Growth(w, run, call, a, b) <= ((b - a) * Rate(w.s, call)).Floor + 1
  {
    hide Growth, Due, Rate, Gap, Inv;
    var first, p := Max(a, Due(w, call)), Rate(w.s, call);
    GrowthPaced(w, run, call, a, b);
    RateIsPositive(w, call);
    if first <= b { ScaledIsMore(b - first, b - a, p); } else { ScaledIsMore(0.0, b - a, p); }
  }

  lemma RateIsPositive(w: World, call: Call)
    requires Inv(w)
    ensures Rate(w.s, call) >= 0.0
  {
  }

  /** The pacing bound: in any time window [a, b] of any run, however many attempts it takes to
      connect, at most floor((b - a) * pps) + 1 sends succeed. */
  lemma PacingBound(pps: nat, watchdog: bool, watchdogSeconds: real, run: seq<Event>, a: real, b: real)
    requires IsRun(Boot(pps, watchdog, watchdogSeconds), run) && a <= b
    ensures var rate := if pps < 1 then 1 else pps;
            Growth(Boot(pps, watchdog, watchdogSeconds), run, SendCall, a, b) <= ((b - a) * rate as real).Floor + 1
  {
    WindowBound(Boot(pps, watchdog, watchdogSeconds), run, SendCall, a, b);
  }

  /** No connection storm: in any time window [a, b] at most floor(10 (b - a)) + 1 attempts to
      connect are made, whatever mix of refusals, failures and watchdog timeouts ends them. */
  lemma AttemptBound(pps: nat, watchdog: bool, watchdogSeconds: real, run: seq<Event>, a: real, b: real)
    requires IsRun(Boot(pps, watchdog, watchdogSeconds), run) && a <= b
    ensures Growth(Boot(pps, watchdog, watchdogSeconds), run, ConnectCall, a, b) <= ((b - a) * 10.0).Floor + 1
  {
    WindowBound(Boot(pps, watchdog, watchdogSeconds), run, ConnectCall, a, b);
  }
}
