/**
 * The circuit breaker as an event-driven machine. A guarded call is two events, its admission
 * and its completion; calls overlap freely and may complete long after the state has changed.
 * The failure rate is an exact fraction.
 */
module CircuitBreaker {
  import opened Common

  datatype Mode = CLOSED | OPEN | HALF_OPEN

  datatype Config = Config(
    failureThreshold: int,
    successThreshold: int,
    resetTimeoutMs: int,
    rollingWindowSize: int,
    failureRateThreshold: real)

  ghost predicate Proper(c: Config) {
    c.failureThreshold >= 1 && c.successThreshold >= 1 && c.rollingWindowSize >= 1
  }

  datatype Breaker = Breaker(
    mode: Mode,
    consecutiveFailures: nat,
    consecutiveSuccesses: nat,
    openedAt: int,
    rolling: seq<bool>)

  /** What has happened, in order. */
  datatype Entry =
    | Started(at: int)
    | Completed(success: bool)
    | Tripped(at: int)
    | HalfOpened
    | AutoClosed
    | WasReset

  datatype State = State(breaker: Breaker, inFlight: nat, now: int, log: seq<Entry>)

  datatype Event =
    | Poll(now: int)
    | Admit(now: int)
    | Complete(success: bool, now: int)
    | Reset(now: int)

  const Initial := State(Breaker(CLOSED, 0, 0, 0, []), 0, 0, [])

  // ---- The segments -----------------------------------------------------------

  function GetState(c: Config, s: State): State {
    if s.breaker.mode == OPEN && s.now - s.breaker.openedAt >= c.resetTimeoutMs then
      s.(breaker := s.breaker.(mode := HALF_OPEN, consecutiveSuccesses := 0), log := s.log + [HalfOpened])
    else s
  }

  function Record(c: Config, rolling: seq<bool>, success: bool): seq<bool> {
    var r := rolling + [success];
    if |r| > c.rollingWindowSize then r[1..] else r
  }

  function Failures(s: seq<bool>): nat {
    if s == [] then 0 else Failures(s[..|s| - 1]) + if s[|s| - 1] then 0 else 1
  }

  function Trip(s: State): State {
    s.(breaker := s.breaker.(mode := OPEN, openedAt := s.now, consecutiveSuccesses := 0),
       log := s.log + [Tripped(s.now)])
  }

  function CountSuccess(c: Config, s: State): State {
    s.(breaker := s.breaker.(rolling := Record(c, s.breaker.rolling, true), consecutiveFailures := 0),
       log := s.log + [Completed(true)])
  }

  function OnSuccess(c: Config, s: State): State {
    var s' := CountSuccess(c, s);
    if s.breaker.mode != HALF_OPEN then s'
    else
      var b := s'.breaker.(consecutiveSuccesses := s.breaker.consecutiveSuccesses + 1);
      if b.consecutiveSuccesses >= c.successThreshold then
        s'.(breaker := b.(mode := CLOSED, rolling := []), log := s'.log + [AutoClosed])
      else s'.(breaker := b)
  }

  /** The number of failures, out of `n` calls, at which their share is exactly `rate`. */
  function Scaled(rate: real, n: nat): real {
    if n == 0 then 0.0 else Scaled(rate, n - 1) + rate
  }

  predicate RateReached(c: Config, rolling: seq<bool>) {
    |rolling| > 0 && |rolling| >= c.rollingWindowSize
    && Failures(rolling) as real >= Scaled(c.failureRateThreshold, |rolling|)
  }

  lemma {:induction false} ScaledIs(rate: real, n: nat)
    ensures Scaled(rate, n) == rate * n as real
  {
    if n > 0 {
      ScaledIs(rate, n - 1);
      assert rate * n as real == rate * (n - 1) as real + rate;
    }
  }

  lemma AtLeastShare(failures: real, n: real, rate: real)
    requires n > 0.0
    ensures failures >= rate * n <==> failures / n >= rate
  {
    var share := failures / n;
    assert share * n == failures;
    if share >= rate { assert (share - rate) * n >= 0.0; } else { assert (rate - share) * n > 0.0; }
  }

  /** A full window trips exactly when the quotient of failures and calls reaches the threshold. */
  lemma RateIsQuotient(c: Config, rolling: seq<bool>)
    requires |rolling| > 0 && |rolling| >= c.rollingWindowSize
    ensures RateReached(c, rolling) <==> Failures(rolling) as real / |rolling| as real >= c.failureRateThreshold
  {
    ScaledIs(c.failureRateThreshold, |rolling|);
    AtLeastShare(Failures(rolling) as real, |rolling| as real, c.failureRateThreshold);
  }

  function CountFailure(c: Config, s: State): State {
    s.(breaker := s.breaker.(rolling := Record(c, s.breaker.rolling, false),
                             consecutiveFailures := s.breaker.consecutiveFailures + 1),
       log := s.log + [Completed(false)])
  }

  function OnFailure(c: Config, s: State): State {
    var s' := CountFailure(c, s);
    var b := s'.breaker;
    if b.mode == HALF_OPEN || b.consecutiveFailures >= c.failureThreshold || RateReached(c, b.rolling) then Trip(s')
    else s'
  }

  function Step(c: Config, s: State, e: Event): State {
    var t := s.(now := e.now);
    match e
    case Poll(_) => GetState(c, t)
    case Admit(_) =>
      var u := GetState(c, t);
      if u.breaker.mode == OPEN then u else u.(inFlight := u.inFlight + 1, log := u.log + [Started(u.now)])
    case Complete(success, _) =>
      if t.inFlight == 0 then t
      else
        var u := t.(inFlight := t.inFlight - 1);
        if success then OnSuccess(c, u) else OnFailure(c, u)
    case Reset(_) =>
      t.(breaker := Breaker(CLOSED, 0, 0, t.breaker.openedAt, []), log := t.log + [WasReset])
  }

  /** Time does not run backwards and only admitted calls complete. */
  predicate Enabled(s: State, e: Event) {
    s.now <= e.now && (e.Complete? ==> s.inFlight > 0)
  }

  function Run(c: Config, s: State, events: seq<Event>): State {
    if events == [] then s else Step(c, Run(c, s, events[..|events| - 1]), events[|events| - 1])
  }

  ghost predicate Feasible(c: Config, s: State, events: seq<Event>) {
    events == [] || (
      && Feasible(c, s, events[..|events| - 1])
      && Enabled(Run(c, s, events[..|events| - 1]), events[|events| - 1]))
  }

  // ---- What the log says ------------------------------------------------------

  /** The outcomes since the breaker last closed or was reset. */
  function Outcomes(log: seq<Entry>): seq<bool> {
    if log == [] then []
    else
      match log[|log| - 1]
      case AutoClosed => []
      case WasReset => []
      case Completed(success) => Outcomes(log[..|log| - 1]) + [success]
      case _ => Outcomes(log[..|log| - 1])
  }

  /** The outcomes since the breaker last became half-open. */
  function Trial(log: seq<Entry>): seq<bool> {
    if log == [] then []
    else
      match log[|log| - 1]
      case HalfOpened => []
      case Completed(success) => Trial(log[..|log| - 1]) + [success]
      case _ => Trial(log[..|log| - 1])
  }

  function LastOf(s: seq<bool>, n: nat): seq<bool> {
    if |s| <= n then s else s[|s| - n..]
  }

  /** How many failures end the sequence. */
  function TrailingFailures(s: seq<bool>): nat {
    if s == [] || s[|s| - 1] then 0 else 1 + TrailingFailures(s[..|s| - 1])
  }

  predicate AllTrue(s: seq<bool>) {
    forall i :: 0 <= i < |s| ==> s[i]
  }

  lemma LogAppend(log: seq<Entry>, e: Entry)
    ensures Outcomes(log + [e]) ==
      if e.AutoClosed? || e.WasReset? then [] else if e.Completed? then Outcomes(log) + [e.success] else Outcomes(log)
    ensures Trial(log + [e]) ==
      if e.HalfOpened? then [] else if e.Completed? then Trial(log) + [e.success] else Trial(log)
  {
    assert (log + [e])[..|log|] == log;
  }

  lemma RecordKeepsLast(c: Config, all: seq<bool>, success: bool)
    requires Proper(c)
    ensures Record(c, LastOf(all, c.rollingWindowSize), success) == LastOf(all + [success], c.rollingWindowSize)
  {
  }

  lemma TrailingAppend(s: seq<bool>, success: bool)
    ensures TrailingFailures(s + [success]) == if success then 0 else TrailingFailures(s) + 1
  {
    assert (s + [success])[..|s|] == s;
  }

  // ---- Counters are functions of the history ----------------------------------

  ghost predicate HistoryMatches(c: Config, s: State) {
    Proper(c)
    && s.breaker.rolling == LastOf(Outcomes(s.log), c.rollingWindowSize)
    && s.breaker.consecutiveFailures == TrailingFailures(Outcomes(s.log))
  }

  /** The rolling window and the failure run are read off the outcomes since the last close or reset. */
  ghost predicate CountersMatch(c: Config, s: State) {
    HistoryMatches(c, s)
    && (s.breaker.mode == CLOSED ==> s.breaker.consecutiveFailures < c.failureThreshold)
    && (s.breaker.mode == HALF_OPEN ==>
          s.breaker.consecutiveSuccesses == |Trial(s.log)| < c.successThreshold && AllTrue(Trial(s.log)))
  }

  lemma GetStateKeepsCounters(c: Config, s: State)
    requires CountersMatch(c, s)
    ensures CountersMatch(c, GetState(c, s))
  {
    LogAppend(s.log, HalfOpened);
  }

  lemma SuccessKeepsCounters(c: Config, s: State)
    requires CountersMatch(c, s)
    ensures CountersMatch(c, OnSuccess(c, s))
  {
    CountSuccessKeepsHistory(c, s);
    LogAppend(s.log, Completed(true));
    ClosingForgets(c, CountSuccess(c, s));
  }

  lemma ClosingForgets(c: Config, s: State)
    requires Proper(c)
    ensures LastOf(Outcomes(s.log + [AutoClosed]), c.rollingWindowSize) == []
    ensures TrailingFailures(Outcomes(s.log + [AutoClosed])) == 0
  {
    LogAppend(s.log, AutoClosed);
  }

  lemma CountSuccessKeepsHistory(c: Config, s: State)
    requires HistoryMatches(c, s)
    ensures HistoryMatches(c, CountSuccess(c, s)) && CountSuccess(c, s).breaker.consecutiveFailures == 0
  {
    LogAppend(s.log, Completed(true));
    RecordKeepsLast(c, Outcomes(s.log), true);
    TrailingAppend(Outcomes(s.log), true);
  }

  lemma FailureKeepsCounters(c: Config, s: State)
    requires CountersMatch(c, s)
    ensures CountersMatch(c, OnFailure(c, s))
  {
    CountFailureKeepsHistory(c, s);
    TripKeepsCounters(c, CountFailure(c, s));
  }

  lemma CountFailureKeepsHistory(c: Config, s: State)
    requires HistoryMatches(c, s)
    ensures HistoryMatches(c, CountFailure(c, s))
  {
    LogAppend(s.log, Completed(false));
    RecordKeepsLast(c, Outcomes(s.log), false);
    TrailingAppend(Outcomes(s.log), false);
  }

  lemma TripKeepsCounters(c: Config, s: State)
    requires HistoryMatches(c, s)
    ensures CountersMatch(c, Trip(s))
  {
    LogAppend(s.log, Tripped(s.now));
  }

  lemma CompletionKeepsCounters(c: Config, s: State, success: bool)
    requires CountersMatch(c, s)
    ensures CountersMatch(c, if success then OnSuccess(c, s) else OnFailure(c, s))
  {
    if success { SuccessKeepsCounters(c, s); } else { FailureKeepsCounters(c, s); }
  }

  lemma StepKeepsCounters(c: Config, s: State, e: Event)
    requires CountersMatch(c, s)
    ensures CountersMatch(c, Step(c, s, e))
  {
    var t := s.(now := e.now);
    match e
    case Poll(_) => GetStateKeepsCounters(c, t);
    case Admit(_) =>
      GetStateKeepsCounters(c, t);
      LogAppend(GetState(c, t).log, Started(e.now));
    case Complete(success, _) =>
      if t.inFlight > 0 { CompletionKeepsCounters(c, t.(inFlight := t.inFlight - 1), success); }
    case Reset(_) => LogAppend(s.log, WasReset);
  }

  /** On every run the counters are the functions of the history they are meant to be. */
  lemma {:induction false} CountersAlwaysMatch(c: Config, events: seq<Event>)
    requires Proper(c)
    ensures CountersMatch(c, Run(c, Initial, events))
  {
    if events != [] {
      CountersAlwaysMatch(c, events[..|events| - 1]);
      StepKeepsCounters(c, Run(c, Initial, events[..|events| - 1]), events[|events| - 1]);
    }
  }

  /** The last `rollingWindowSize` outcomes fill the window and enough of them are failures. */
  predicate FullWindowRate(c: Config, outcomes: seq<bool>)
    requires c.rollingWindowSize >= 1
  {
    |outcomes| >= c.rollingWindowSize && RateReached(c, outcomes[|outcomes| - c.rollingWindowSize..])
  }

  /** A closed breaker trips on exactly the failures that complete a long enough run or a bad enough full window. */
  lemma ClosedTripsExactly(c: Config, s: State, now: int)
    requires CountersMatch(c, s) && s.breaker.mode == CLOSED && s.inFlight > 0
    ensures
      var outcomes := Outcomes(s.log) + [false];
      Step(c, s, Complete(false, now)).breaker.mode ==
        if TrailingFailures(outcomes) >= c.failureThreshold || FullWindowRate(c, outcomes) then OPEN else CLOSED
    ensures Step(c, s, Complete(true, now)).breaker.mode == CLOSED
  {
    var u := s.(now := now, inFlight := s.inFlight - 1);
    CompletionStep(c, s, false, now);
    CompletionStep(c, s, true, now);
    ClosedFailureTrips(c, u);
  }

  lemma ClosedFailureTrips(c: Config, s: State)
    requires HistoryMatches(c, s) && s.breaker.mode == CLOSED
    ensures
      var outcomes := Outcomes(s.log) + [false];
      OnFailure(c, s).breaker.mode ==
        if TrailingFailures(outcomes) >= c.failureThreshold || FullWindowRate(c, outcomes) then OPEN else CLOSED
  {
    DemandIsSeen(c, s);
  }

  /** The kept window reaches the rate only when it is full, and then it is the last `rollingWindowSize` outcomes. */
  lemma WindowIsFull(c: Config, outcomes: seq<bool>)
    requires Proper(c)
    ensures RateReached(c, LastOf(outcomes, c.rollingWindowSize)) <==> FullWindowRate(c, outcomes)
  {
    if |outcomes| == c.rollingWindowSize {
      assert outcomes[|outcomes| - c.rollingWindowSize..] == outcomes;
    }
  }

  // ---- Safety over whole runs -------------------------------------------------

  /** Entry `i` is a trip and no reset has followed it. */
  ghost predicate LiveTrip(log: seq<Entry>, i: int) {
    0 <= i < |log| && log[i].Tripped? && NoResetAfter(log, i)
  }

  ghost predicate NoResetAfter(log: seq<Entry>, i: int)
    requires 0 <= i < |log|
  {
    i == |log| - 1 || (log[|log| - 1] != WasReset && NoResetAfter(log[..|log| - 1], i))
  }

  lemma {:induction false} NoResetMeans(log: seq<Entry>, i: nat)
    requires i < |log|
    ensures NoResetAfter(log, i) <==> forall k :: i < k < |log| ==> log[k] != WasReset
  {
    if i < |log| - 1 {
      var rest := log[..|log| - 1];
      NoResetMeans(rest, i);
      assert forall k :: i < k < |rest| ==> rest[k] == log[k];
    }
  }

  /** An open breaker was opened no earlier than any trip; any other has waited out every trip. */
  ghost predicate TripsRespected(c: Config, s: State) {
    forall i :: LiveTrip(s.log, i) ==>
      s.log[i].at <= s.now
      && if s.breaker.mode == OPEN then s.log[i].at <= s.breaker.openedAt <= s.now
         else s.log[i].at + c.resetTimeoutMs <= s.now
  }

  /**
   * A call starts only once `resetTimeoutMs` have passed since every live trip before it; an automatic close
   * comes after exactly `successThreshold` outcomes since half-opening, all successes.
   */
  ghost predicate EntrySafe(c: Config, before: seq<Entry>, e: Entry) {
    && (e.Started? ==> forall i :: LiveTrip(before, i) ==> e.at >= before[i].at + c.resetTimeoutMs)
    && (e.AutoClosed? ==> InTrial(before) && |Trial(before)| == c.successThreshold && AllTrue(Trial(before)))
  }

  ghost predicate LogSafe(c: Config, log: seq<Entry>) {
    log == [] || (LogSafe(c, log[..|log| - 1]) && EntrySafe(c, log[..|log| - 1], log[|log| - 1]))
  }

  /** The breaker became half-open, and since then calls have only started and completed. */
  predicate InTrial(log: seq<Entry>) {
    log != [] && match log[|log| - 1]
      case HalfOpened => true
      case Started(_) => InTrial(log[..|log| - 1])
      case Completed(_) => InTrial(log[..|log| - 1])
      case _ => false
  }

  /** When the breaker last tripped. */
  function LastTrip(log: seq<Entry>): Option<int> {
    if log == [] then None
    else if log[|log| - 1].Tripped? then Some(log[|log| - 1].at)
    else LastTrip(log[..|log| - 1])
  }

  ghost predicate ModeMatches(s: State) {
    && (s.breaker.mode == HALF_OPEN ==> InTrial(s.log))
    && (s.breaker.mode == OPEN ==> LastTrip(s.log) == Some(s.breaker.openedAt))
  }

  lemma ModeAppend(log: seq<Entry>, e: Entry)
    ensures InTrial(log + [e]) <==> e.HalfOpened? || ((e.Started? || e.Completed?) && InTrial(log))
    ensures LastTrip(log + [e]) == if e.Tripped? then Some(e.at) else LastTrip(log)
  {
    assert (log + [e])[..|log|] == log;
  }

  ghost predicate Safe(c: Config, s: State) {
    CountersMatch(c, s) && TripsRespected(c, s) && ModeMatches(s) && LogSafe(c, s.log)
  }

  lemma LiveTripAppend(log: seq<Entry>, e: Entry, i: int)
    ensures 0 <= i < |log| ==> (LiveTrip(log + [e], i) <==> LiveTrip(log, i) && e != WasReset)
  {
    assert (log + [e])[..|log|] == log;
  }

  lemma AppendKeepsLogSafe(c: Config, log: seq<Entry>, e: Entry)
    requires LogSafe(c, log) && EntrySafe(c, log, e)
    ensures LogSafe(c, log + [e])
  {
    assert (log + [e])[..|log|] == log;
  }

  lemma {:induction false} EveryEntrySafe(c: Config, log: seq<Entry>, j: nat)
    requires LogSafe(c, log) && j < |log|
    ensures EntrySafe(c, log[..j], log[j])
  {
    if j < |log| - 1 {
      assert log[..|log| - 1][..j] == log[..j];
      EveryEntrySafe(c, log[..|log| - 1], j);
    }
  }

  lemma GetStateKeepsSafe(c: Config, s: State)
    requires Safe(c, s)
    ensures Safe(c, GetState(c, s))
  {
    GetStateKeepsCounters(c, s);
    ModeAppend(s.log, HalfOpened);
    AppendKeepsLogSafe(c, s.log, HalfOpened);
    forall i ensures LiveTrip(s.log + [HalfOpened], i) ==> LiveTrip(s.log, i) { LiveTripAppend(s.log, HalfOpened, i); }
  }

  lemma StartKeepsSafe(c: Config, s: State)
    requires Safe(c, s) && s.breaker.mode != OPEN
    ensures Safe(c, s.(inFlight := s.inFlight + 1, log := s.log + [Started(s.now)]))
  {
    assert forall i :: LiveTrip(s.log, i) ==> s.now >= s.log[i].at + c.resetTimeoutMs;
    LogAppend(s.log, Started(s.now));
    ModeAppend(s.log, Started(s.now));
    AppendKeepsLogSafe(c, s.log, Started(s.now));
    forall i ensures LiveTrip(s.log + [Started(s.now)], i) ==> LiveTrip(s.log, i) {
      LiveTripAppend(s.log, Started(s.now), i);
    }
  }

  lemma SuccessKeepsSafe(c: Config, s: State)
    requires Safe(c, s)
    ensures Safe(c, OnSuccess(c, s))
  {
    CompletionKeepsCounters(c, s, true);
    var log := s.log + [Completed(true)];
    LogAppend(s.log, Completed(true));
    ModeAppend(s.log, Completed(true));
    AppendKeepsLogSafe(c, s.log, Completed(true));
    AppendKeepsLogSafe(c, log, if OnSuccess(c, s).log == log then HalfOpened else AutoClosed);
    forall i ensures LiveTrip(log, i) ==> LiveTrip(s.log, i)
      ensures LiveTrip(log + [AutoClosed], i) ==> LiveTrip(s.log, i)
    {
      LiveTripAppend(s.log, Completed(true), i);
      LiveTripAppend(log, AutoClosed, i);
    }
  }

  lemma CountFailureKeepsLogSafe(c: Config, s: State)
    requires LogSafe(c, s.log)
    ensures LogSafe(c, CountFailure(c, s).log) && LogSafe(c, Trip(CountFailure(c, s)).log)
  {
    AppendKeepsLogSafe(c, s.log, Completed(false));
    AppendKeepsLogSafe(c, s.log + [Completed(false)], Tripped(s.now));
  }

  lemma FailureKeepsMode(c: Config, s: State)
    requires ModeMatches(s)
    ensures ModeMatches(OnFailure(c, s))
  {
    ModeAppend(s.log, Completed(false));
    ModeAppend(s.log + [Completed(false)], Tripped(s.now));
  }

  lemma FailureKeepsSafe(c: Config, s: State)
    requires Safe(c, s)
    ensures Safe(c, OnFailure(c, s))
  {
    CompletionKeepsCounters(c, s, false);
    CountFailureKeepsLogSafe(c, s);
    FailureKeepsMode(c, s);
    TripsAfterFailure(s.log, s.now);
  }

  lemma TripsAfterFailure(log: seq<Entry>, now: int)
    ensures
      var failed := log + [Completed(false)];
      forall i :: (LiveTrip(failed, i) ==> LiveTrip(log, i))
        && (LiveTrip(failed + [Tripped(now)], i) ==> LiveTrip(log, i) || i == |failed|)
  {
    var failed := log + [Completed(false)];
    forall i ensures LiveTrip(failed, i) ==> LiveTrip(log, i)
      ensures LiveTrip(failed + [Tripped(now)], i) ==> LiveTrip(log, i) || i == |failed|
    {
      LiveTripAppend(log, Completed(false), i);
      LiveTripAppend(failed, Tripped(now), i);
    }
  }

  lemma ResetKeepsSafe(c: Config, s: State)
    requires Safe(c, s)
    ensures Safe(c, s.(breaker := Breaker(CLOSED, 0, 0, s.breaker.openedAt, []), log := s.log + [WasReset]))
  {
    LogAppend(s.log, WasReset);
    AppendKeepsLogSafe(c, s.log, WasReset);
    forall i ensures !LiveTrip(s.log + [WasReset], i) { LiveTripAppend(s.log, WasReset, i); }
  }

  lemma StepKeepsSafe(c: Config, s: State, e: Event)
    requires Safe(c, s) && Enabled(s, e)
    ensures Safe(c, Step(c, s, e))
  {
    var t := s.(now := e.now);
    assert Safe(c, t);
    match e
    case Poll(_) => GetStateKeepsSafe(c, t);
    case Admit(_) =>
      GetStateKeepsSafe(c, t);
      if GetState(c, t).breaker.mode != OPEN { StartKeepsSafe(c, GetState(c, t)); }
    case Complete(success, _) =>
      var u := t.(inFlight := t.inFlight - 1);
      assert Safe(c, u);
      if success { SuccessKeepsSafe(c, u); } else { FailureKeepsSafe(c, u); }
    case Reset(_) => ResetKeepsSafe(c, t);
  }

  /** Every run, with any overlap and any lateness of completions, keeps all of the above. */
  lemma {:induction false} RunIsSafe(c: Config, events: seq<Event>)
    requires Proper(c) && Feasible(c, Initial, events)
    ensures Safe(c, Run(c, Initial, events))
  {
    if events != [] {
      RunIsSafe(c, events[..|events| - 1]);
      StepKeepsSafe(c, Run(c, Initial, events[..|events| - 1]), events[|events| - 1]);
    }
  }

  /** In whole runs: a call starts at least `resetTimeoutMs` after every trip not followed by a reset. */
  lemma NoStartAfterTrip(c: Config, events: seq<Event>, i: nat, j: nat)
    requires Proper(c) && Feasible(c, Initial, events)
    requires
      var log := Run(c, Initial, events).log;
      i < j < |log| && log[i].Tripped? && log[j].Started? && forall k :: i < k < j ==> log[k] != WasReset
    ensures var log := Run(c, Initial, events).log; log[j].at >= log[i].at + c.resetTimeoutMs
  {
    RunIsSafe(c, events);
    var log := Run(c, Initial, events).log;
    EveryEntrySafe(c, log, j);
    NoResetMeans(log[..j], i);
    assert LiveTrip(log[..j], i);
  }

  lemma {:induction false} TrialBegan(log: seq<Entry>) returns (h: nat)
    requires InTrial(log) && AllTrue(Trial(log))
    ensures h < |log| && log[h].HalfOpened?
    ensures forall k :: h < k < |log| ==> log[k].Started? || log[k] == Completed(true)
  {
    var rest, last := log[..|log| - 1], log[|log| - 1];
    if last.HalfOpened? {
      h := |log| - 1;
    } else {
      if last.Completed? {
        assert forall i :: 0 <= i < |Trial(rest)| ==> Trial(log)[i] == Trial(rest)[i];
        assert Trial(log)[|Trial(rest)|] == last.success;
      }
      h := TrialBegan(rest);
      assert forall k :: h < k < |rest| ==> log[k] == rest[k];
    }
  }

  /**
   * In whole runs: every automatic close was preceded by a half-opening, and between the two nothing happened but
   * starts and exactly `successThreshold` completions, all successful.
   */
  lemma ClosesAreEarned(c: Config, events: seq<Event>, j: nat)
    requires Proper(c) && Feasible(c, Initial, events)
    requires j < |Run(c, Initial, events).log| && Run(c, Initial, events).log[j].AutoClosed?
    ensures
      var log := Run(c, Initial, events).log;
      && |Trial(log[..j])| == c.successThreshold
      && exists h :: 0 <= h < j && log[h].HalfOpened? &&
           forall k :: h < k < j ==> log[k].Started? || log[k] == Completed(true)
  {
    RunIsSafe(c, events);
    var log := Run(c, Initial, events).log;
    EveryEntrySafe(c, log, j);
    var h := TrialBegan(log[..j]);
    assert forall k :: h <= k < j ==> log[k] == log[..j][k];
  }

  /**
   * In whole runs: an open breaker lets a call through exactly when `resetTimeoutMs` have passed since its latest
   * trip, and records nothing when it does not.
   */
  lemma OpenAdmitsExactly(c: Config, events: seq<Event>, now: int)
    requires Proper(c) && Feasible(c, Initial, events) && Run(c, Initial, events).breaker.mode == OPEN
    ensures
      var s := Run(c, Initial, events);
      && LastTrip(s.log).Some?
      && Step(c, s, Admit(now)).log ==
           (if now >= LastTrip(s.log).value + c.resetTimeoutMs then s.log + [HalfOpened, Started(now)] else s.log)
      && (now < LastTrip(s.log).value + c.resetTimeoutMs ==> Step(c, s, Admit(now)) == s.(now := now))
  {
    RunIsSafe(c, events);
    var s := Run(c, Initial, events);
    assert s.log + [HalfOpened] + [Started(now)] == s.log + [HalfOpened, Started(now)];
  }

  // ---- What each event does, read off the log ----------------------------------

  /** The latest transition. */
  function ModeOf(log: seq<Entry>): Mode {
    if log == [] then CLOSED
    else
      match log[|log| - 1]
      case HalfOpened => HALF_OPEN
      case Tripped(_) => OPEN
      case AutoClosed => CLOSED
      case WasReset => CLOSED
      case _ => ModeOf(log[..|log| - 1])
  }

  ghost predicate ModeLogged(s: State) {
    s.breaker.mode == ModeOf(s.log)
  }

  lemma ModeOfAppend(log: seq<Entry>, e: Entry)
    ensures ModeOf(log + [e]) == match e
      case HalfOpened => HALF_OPEN
      case Tripped(_) => OPEN
      case AutoClosed => CLOSED
      case WasReset => CLOSED
      case _ => ModeOf(log)
  {
    assert (log + [e])[..|log|] == log;
  }

  lemma CompletionIsLogged(c: Config, s: State, success: bool)
    requires ModeLogged(s)
    ensures ModeLogged(if success then OnSuccess(c, s) else OnFailure(c, s))
  {
    ModeOfAppend(s.log, Completed(success));
    ModeOfAppend(s.log + [Completed(success)], AutoClosed);
    ModeOfAppend(s.log + [Completed(success)], Tripped(s.now));
  }

  lemma StepIsLogged(c: Config, s: State, e: Event)
    requires ModeLogged(s)
    ensures ModeLogged(Step(c, s, e))
  {
    var t := s.(now := e.now);
    ModeOfAppend(s.log, HalfOpened);
    match e
    case Poll(_) =>
    case Admit(_) => ModeOfAppend(GetState(c, t).log, Started(e.now));
    case Complete(success, _) => if t.inFlight > 0 { CompletionIsLogged(c, t.(inFlight := t.inFlight - 1), success); }
    case Reset(_) => ModeOfAppend(s.log, WasReset);
  }

  /** On every run the mode is the latest transition logged: no change of mode goes unrecorded. */
  lemma {:induction false} ModeIsLogged(c: Config, events: seq<Event>)
    ensures ModeLogged(Run(c, Initial, events))
  {
    if events != [] {
      ModeIsLogged(c, events[..|events| - 1]);
      StepIsLogged(c, Run(c, Initial, events[..|events| - 1]), events[|events| - 1]);
    }
  }

  /** A breaker that was not closed and now is has just logged an automatic close or a reset. */
  lemma ClosingIsLogged(c: Config, events: seq<Event>, e: Event)
    requires
      var s := Run(c, Initial, events);
      s.breaker.mode != CLOSED && Step(c, s, e).breaker.mode == CLOSED
    ensures
      var s' := Step(c, Run(c, Initial, events), e);
      s'.log != [] && s'.log[|s'.log| - 1] in {AutoClosed, WasReset}
  {
  }

  /** The outcomes demand that the breaker opens. */
  predicate Demanded(c: Config, outcomes: seq<bool>)
    requires c.rollingWindowSize >= 1
  {
    TrailingFailures(outcomes) >= c.failureThreshold || FullWindowRate(c, outcomes)
  }

  /**
   * In every run a failed completion trips the breaker exactly when it is half-open or the outcomes since the last
   * close or reset demand it, whatever the mode; otherwise it only records the failure.
   */
  lemma FailuresTripExactly(c: Config, events: seq<Event>, now: int)
    requires Proper(c) && Run(c, Initial, events).inFlight > 0
    ensures
      var s := Run(c, Initial, events);
      var s' := Step(c, s, Complete(false, now));
      var trips := s.breaker.mode == HALF_OPEN || Demanded(c, Outcomes(s.log) + [false]);
      && s'.inFlight == s.inFlight - 1
      && s'.log == s.log + [Completed(false)] + (if trips then [Tripped(now)] else [])
      && s'.breaker.mode == (if trips then OPEN else s.breaker.mode)
      && s'.breaker.openedAt == (if trips then now else s.breaker.openedAt)
  {
    var s := Run(c, Initial, events);
    CountersAlwaysMatch(c, events);
    CompletionStep(c, s, false, now);
    DemandIsSeen(c, s.(now := now, inFlight := s.inFlight - 1));
  }

  lemma DemandIsSeen(c: Config, s: State)
    requires HistoryMatches(c, s)
    ensures
      var b := CountFailure(c, s).breaker;
      b.consecutiveFailures >= c.failureThreshold || RateReached(c, b.rolling)
      <==> Demanded(c, Outcomes(s.log) + [false])
  {
    RecordKeepsLast(c, Outcomes(s.log), false);
    TrailingAppend(Outcomes(s.log), false);
    WindowIsFull(c, Outcomes(s.log) + [false]);
  }

  /** So any failure of a trial call opens the breaker again, from that moment. */
  lemma HalfOpenFailureTrips(c: Config, events: seq<Event>, now: int)
    requires Proper(c) && Run(c, Initial, events).inFlight > 0 && Run(c, Initial, events).breaker.mode == HALF_OPEN
    ensures
      var s' := Step(c, Run(c, Initial, events), Complete(false, now));
      s'.breaker.mode == OPEN && s'.breaker.openedAt == now && s'.log != [] && s'.log[|s'.log| - 1] == Tripped(now)
  {
    FailuresTripExactly(c, events, now);
  }

  /**
   * In every run a successful completion closes the breaker exactly when it is half-open and this is the
   * `successThreshold`-th outcome since it became so; otherwise it only records the success.
   */
  lemma SuccessesCloseExactly(c: Config, events: seq<Event>, now: int)
    requires Proper(c) && Run(c, Initial, events).inFlight > 0
    ensures
      var s := Run(c, Initial, events);
      var s' := Step(c, s, Complete(true, now));
      var closes := s.breaker.mode == HALF_OPEN && |Trial(s.log)| + 1 == c.successThreshold;
      && s'.inFlight == s.inFlight - 1
      && s'.log == s.log + [Completed(true)] + (if closes then [AutoClosed] else [])
      && s'.breaker.mode == (if closes then CLOSED else s.breaker.mode)
      && s'.breaker.openedAt == s.breaker.openedAt
  {
    CountersAlwaysMatch(c, events);
    CompletionStep(c, Run(c, Initial, events), true, now);
  }

  /** In every run a poll half-opens an open breaker from `resetTimeoutMs` after its latest trip on, and no other. */
  lemma PollHalfOpensExactly(c: Config, events: seq<Event>, now: int)
    requires Proper(c) && Feasible(c, Initial, events)
    ensures
      var s := Run(c, Initial, events);
      var s' := Step(c, s, Poll(now));
      if s.breaker.mode == OPEN && LastTrip(s.log).Some? && now >= LastTrip(s.log).value + c.resetTimeoutMs then
        s'.breaker.mode == HALF_OPEN && s'.log == s.log + [HalfOpened] && s'.inFlight == s.inFlight
      else s' == s.(now := now)
  {
    RunIsSafe(c, events);
  }

  /** A breaker that is not open lets every call through, and does nothing else. */
  lemma NotOpenAdmits(c: Config, events: seq<Event>, now: int)
    requires Run(c, Initial, events).breaker.mode != OPEN
    ensures
      var s := Run(c, Initial, events);
      Step(c, s, Admit(now)) == s.(now := now, inFlight := s.inFlight + 1, log := s.log + [Started(now)])
  {
  }

  /** The states differ only in what happened before, `past`, and in an opening time no longer in force. */
  ghost predicate AlikeSince(past: seq<Entry>, s: State, t: State) {
    && s.log == past + t.log
    && s.(log := t.log, breaker := t.breaker) == t
    && s.breaker.(openedAt := t.breaker.openedAt) == t.breaker
    && (s.breaker.mode == OPEN ==> s.breaker.openedAt == t.breaker.openedAt)
  }

  lemma MoreSince(past: seq<Entry>, log: seq<Entry>, e: Entry)
    ensures (past + log) + [e] == past + (log + [e])
  {
  }

  lemma GetStateKeepsAlike(c: Config, past: seq<Entry>, s: State, t: State)
    requires AlikeSince(past, s, t)
    ensures AlikeSince(past, GetState(c, s), GetState(c, t))
  {
    MoreSince(past, t.log, HalfOpened);
  }

  lemma CompletionKeepsAlike(c: Config, past: seq<Entry>, s: State, t: State, success: bool)
    requires AlikeSince(past, s, t)
    ensures success ==> AlikeSince(past, OnSuccess(c, s), OnSuccess(c, t))
    ensures !success ==> AlikeSince(past, OnFailure(c, s), OnFailure(c, t))
  {
    MoreSince(past, t.log, Completed(success));
    MoreSince(past, t.log + [Completed(success)], AutoClosed);
    MoreSince(past, t.log + [Completed(success)], Tripped(t.now));
  }

  lemma StepKeepsAlike(c: Config, past: seq<Entry>, s: State, t: State, e: Event)
    requires AlikeSince(past, s, t)
    ensures AlikeSince(past, Step(c, s, e), Step(c, t, e))
  {
    var s', t' := s.(now := e.now), t.(now := e.now);
    assert AlikeSince(past, s', t');
    match e
    case Poll(_) => GetStateKeepsAlike(c, past, s', t');
    case Admit(_) =>
      GetStateKeepsAlike(c, past, s', t');
      MoreSince(past, GetState(c, t').log, Started(e.now));
    case Complete(success, _) =>
      if s.inFlight > 0 {
        CompletionKeepsAlike(c, past, s'.(inFlight := s.inFlight - 1), t'.(inFlight := t.inFlight - 1), success);
      }
    case Reset(_) => MoreSince(past, t.log, WasReset);
  }

  lemma {:induction false} RunKeepsAlike(c: Config, past: seq<Entry>, s: State, t: State, events: seq<Event>)
    requires AlikeSince(past, s, t)
    ensures AlikeSince(past, Run(c, s, events), Run(c, t, events))
  {
    if events != [] {
      var rest := events[..|events| - 1];
      RunKeepsAlike(c, past, s, t, rest);
      StepKeepsAlike(c, past, Run(c, s, rest), Run(c, t, rest), events[|events| - 1]);
    }
  }

  /**
   * A reset, in whatever mode, is a fresh start: from then on the breaker takes the very steps a new one would take
   * with the same calls in flight.
   */
  lemma ResetForgets(c: Config, s: State, now: int, events: seq<Event>)
    ensures
      var reset := Step(c, s, Reset(now));
      AlikeSince(reset.log, Run(c, reset, events), Run(c, Initial.(inFlight := s.inFlight, now := now), events))
  {
    var reset, fresh' := Step(c, s, Reset(now)), Initial.(inFlight := s.inFlight, now := now);
    assert reset.log + [] == reset.log;
    RunKeepsAlike(c, reset.log, reset, fresh', events);
  }

  /** A completion is recorded in the state with its time set and one call fewer in flight. */
  lemma CompletionStep(c: Config, s: State, success: bool, now: int)
    requires s.inFlight > 0
    ensures
      var u := s.(now := now, inFlight := s.inFlight - 1);
      Step(c, s, Complete(success, now)) == if success then OnSuccess(c, u) else OnFailure(c, u)
  {
  }

  // ---- The breaker object -----------------------------------------------------

  /** Each method is one step of the machine above, so `View()` is `Safe` on every run. */
  class CircuitBreaker {
    const config: Config
    var mode: Mode
    var consecutiveFailures: nat
    var consecutiveSuccesses: nat
    var openedAt: int
    var rollingResults: seq<bool>
    ghost var inFlight: nat
    ghost var now: int
    ghost var log: seq<Entry>

    ghost function View(): State
      reads this
    {
      State(Breaker(mode, consecutiveFailures, consecutiveSuccesses, openedAt, rollingResults), inFlight, now, log)
    }

    constructor (config: Config)
      requires Proper(config)
      ensures View() == Initial && this.config == config
    {
      this.config := config;
      mode, consecutiveFailures, consecutiveSuccesses, openedAt, rollingResults := CLOSED, 0, 0, 0, [];
      inFlight, now, log := 0, 0, [];
    }

    method GetCurrent(time: int) returns (r: Mode)
      requires now <= time
      modifies this
      ensures View() == Step(config, old(View()), Poll(time)) && r == mode
    {
      now := time;
      if mode == OPEN && time - openedAt >= config.resetTimeoutMs {
        mode := HALF_OPEN;
        consecutiveSuccesses := 0;
        log := log + [HalfOpened];
      }
      r := mode;
    }

    /** `execute` up to the guarded call; `started` is false when the call is refused. */
    method Begin(time: int) returns (started: bool)
      requires now <= time
      modifies this
      ensures View() == Step(config, old(View()), Admit(time))
      ensures started <==> inFlight == old(inFlight) + 1
    {
      var state := GetCurrent(time);
      if state == OPEN { return false; }
      inFlight := inFlight + 1;
      log := log + [Started(time)];
      started := true;
    }

    /** The rest of `execute`, once the guarded call has succeeded or failed. */
    method End(success: bool, time: int)
      requires now <= time && inFlight > 0
      modifies this
      ensures View() == Step(config, old(View()), Complete(success, time))
    {
      CompletionStep(config, View(), success, time);
      now := time;
      inFlight := inFlight - 1;
      if success { Succeed(); } else { Fail(time); }
    }

    method RecordRolling(success: bool)
      modifies this`rollingResults
      ensures rollingResults == Record(config, old(rollingResults), success)
    {
      rollingResults := rollingResults + [success];
      if |rollingResults| > config.rollingWindowSize { rollingResults := rollingResults[1..]; }
    }

    method Succeed()
      modifies this
      ensures View() == OnSuccess(config, old(View()))
    {
      RecordRolling(true);
      consecutiveFailures := 0;
      log := log + [Completed(true)];
      if mode == HALF_OPEN {
        consecutiveSuccesses := consecutiveSuccesses + 1;
        if consecutiveSuccesses >= config.successThreshold {
          mode := CLOSED;
          rollingResults := [];
          log := log + [AutoClosed];
        }
      }
    }

    method Fail(time: int)
      requires now == time
      modifies this
      ensures View() == OnFailure(config, old(View()))
    {
      RecordRolling(false);
      consecutiveFailures := consecutiveFailures + 1;
      log := log + [Completed(false)];
      if mode == HALF_OPEN {
        TripNow(time);
        return;
      }
      if consecutiveFailures >= config.failureThreshold || RateReached(config, rollingResults) {
        TripNow(time);
      }
    }

    method TripNow(time: int)
      requires now == time
      modifies this
      ensures View() == Trip(old(View()))
    {
      mode := OPEN;
      openedAt := time;
      consecutiveSuccesses := 0;
      log := log + [Tripped(time)];
    }

    method ForceClosed(time: int)
      requires now <= time
      modifies this
      ensures View() == Step(config, old(View()), Reset(time))
    {
      now := time;
      mode := CLOSED;
      consecutiveFailures := 0;
      consecutiveSuccesses := 0;
      rollingResults := [];
      log := log + [WasReset];
    }
  }
}
