// The circuit breaker (crates/coder-core/src/circuit_breaker.rs): a timed state
// machine whose `call` is admitted and finished in two separate critical sections.
module CircuitBreaker {
  import opened Common

  const U32_MAX := 0xFFFF_FFFF

  type u32 = n: int | 0 <= n <= 0xFFFF_FFFF

  type Time = nat

  datatype Config = Config(failureThreshold: u32, resetTimeout: nat, halfOpenMaxProbes: u32)

  datatype Mode = Closed | Open | HalfOpen

  datatype Inner = Inner(mode: Mode, failures: u32, successes: u32, lastFailure: Option<Time>)

  const FRESH := Inner(Closed, 0, 0, None)

  function SaturatingInc(n: u32): u32 {
    if n == U32_MAX then n else n + 1
  }

  /** maybe_transition_to_half_open. */
  function Poll(cfg: Config, b: Inner, now: Time): Inner {
    if b.mode == Open && b.lastFailure.Some? && now - b.lastFailure.value >= cfg.resetTimeout
    then b.(mode := HalfOpen, successes := 0) else b
  }

  /** A successful probe; enough of them close the breaker. */
  function Probe(cfg: Config, b: Inner, successes: u32): Inner {
    if successes >= cfg.halfOpenMaxProbes then FRESH else b.(mode := HalfOpen, successes := successes)
  }

  function Success(cfg: Config, b: Inner): Inner {
    match b.mode
    case Closed => b.(failures := 0)
    case HalfOpen => Probe(cfg, b, SaturatingInc(b.successes))
    case Open => Probe(cfg, b, 1)
  }

  function Failure(cfg: Config, b: Inner, now: Time): Inner {
    var failures := SaturatingInc(b.failures);
    match b.mode
    case Closed =>
      Inner(if failures >= cfg.failureThreshold then Open else Closed, failures, b.successes, Some(now))
    case HalfOpen => Inner(Open, failures, 0, Some(now))
    case Open => b
  }

  // ---------------------------------------------------------------- the object

  class Breaker {
    const config: Config
    var mode: Mode
    var failures: u32
    var successes: u32
    var lastFailure: Option<Time>

    ghost function View(): Inner
      reads this
    {
      Inner(mode, failures, successes, lastFailure)
    }

    constructor (config: Config)
      ensures this.config == config && View() == FRESH
    {
      this.config := config;
      mode, failures, successes, lastFailure := Closed, 0, 0, None;
    }

    method MaybeHalfOpen(now: Time)
      modifies this
      ensures View() == Poll(config, old(View()), now)
    {
      if mode == Open {
        if lastFailure.Some? {
          if now - lastFailure.value >= config.resetTimeout {
            mode := HalfOpen;
            successes := 0;
          }
        }
      }
    }

    /** The current state, after the automatic transition. */
    method State(now: Time) returns (m: Mode)
      modifies this
      ensures View() == Poll(config, old(View()), now) && m == View().mode
    {
      MaybeHalfOpen(now);
      m := mode;
    }

    /** The pre-flight section of `call`. */
    method Admit(now: Time) returns (admitted: bool)
      modifies this
      ensures View() == Poll(config, old(View()), now) && admitted == (View().mode != Open)
    {
      MaybeHalfOpen(now);
      admitted := mode != Open;
    }

    /** The post-flight section of a successful `call`, and `report_success`. */
    method RecordSuccess()
      modifies this
      ensures View() == Success(config, old(View()))
    {
      match mode {
        case Closed =>
          failures := 0;
        case HalfOpen =>
          successes := SaturatingInc(successes);
          if successes >= config.halfOpenMaxProbes {
            Reset();
          }
        case Open =>
          mode := HalfOpen;
          successes := 1;
          if successes >= config.halfOpenMaxProbes {
            Reset();
          }
      }
    }

    method Reset()
      modifies this
      ensures View() == FRESH
    {
      mode, failures, successes, lastFailure := Closed, 0, 0, None;
    }

    /** The post-flight section of a failed `call`, and `report_failure`. */
    method RecordFailure(now: Time)
      modifies this
      ensures View() == Failure(config, old(View()), now)
    {
      match mode {
        case Closed =>
          failures := SaturatingInc(failures);
          lastFailure := Some(now);
          if failures >= config.failureThreshold {
            mode := Open;
          }
        case HalfOpen =>
          failures := SaturatingInc(failures);
          lastFailure := Some(now);
          mode := Open;
          successes := 0;
        case Open =>
      }
    }
  }

  // ---------------------------------------------------------------------- runs

  type CallId = nat

  /** What happens to a breaker: the two halves of calls, reports, and status queries. */
  datatype Event =
    | Begin(call: CallId)
    | Finish(call: CallId, ok: bool)
    | Report(ok: bool)
    | Query

  datatype Timed = Timed(at: Time, event: Event)

  datatype Outcome = Good | Bad

  /**
   * The breaker with the calls under way and, as history, the log of recorded
   * outcomes and how long it was when the breaker last became half-open.
   */
  datatype State = State(inner: Inner, running: set<CallId>, log: seq<Outcome>, entered: nat, now: Time)

  const INITIAL := State(FRESH, {}, [], 0, 0)

  function RecordOutcome(cfg: Config, s: State, ok: bool, at: Time): State {
    var inner := if ok then Success(cfg, s.inner) else Failure(cfg, s.inner, at);
    s.(inner := inner, log := s.log + [if ok then Good else Bad],
       entered := if s.inner.mode != HalfOpen then |s.log| else s.entered)
  }

  function PollState(cfg: Config, s: State, at: Time): State {
    s.(inner := Poll(cfg, s.inner, at), entered := if s.inner.mode != HalfOpen then |s.log| else s.entered)
  }

  /** A call is rejected when the breaker is still open after the pre-flight poll. */
  predicate Rejects(cfg: Config, b: Inner, at: Time) {
    Poll(cfg, b, at).mode == Open
  }

  /** The state after one event, or None when the clock would run backwards or the call is not under way. */
  function Apply(cfg: Config, s: State, e: Timed): Option<State> {
    if e.at < s.now then None
    else
      var s := s.(now := e.at);
      match e.event
      case Begin(call) =>
        if call in s.running then None
        else
          var t := PollState(cfg, s, e.at);
          Some(if Rejects(cfg, s.inner, e.at) then t else t.(running := t.running + {call}))
      case Finish(call, ok) =>
        if call !in s.running then None
        else Some(RecordOutcome(cfg, s.(running := s.running - {call}), ok, e.at))
      case Report(ok) => Some(RecordOutcome(cfg, s, ok, e.at))
      case Query => Some(PollState(cfg, s, e.at))
  }

  function Exec(cfg: Config, events: seq<Timed>): Option<State> {
    if events == [] then Some(INITIAL)
    else match Exec(cfg, events[..|events| - 1])
    case None => None
    case Some(s) => Apply(cfg, s, events[|events| - 1])
  }

  // --------------------------------------------------------- what counters mean

  /** The length of the run of failures at the end of the log. */
  function TrailingFailures(log: seq<Outcome>): nat {
    if log == [] || log[|log| - 1] == Good then 0 else 1 + TrailingFailures(log[..|log| - 1])
  }

  /** A limit of zero behaves like a limit of one. */
  function Limit(n: u32): nat {
    Max(1, n)
  }

  ghost predicate Meaning(cfg: Config, s: State) {
    var b := s.inner;
    match b.mode
    case Closed => b.failures == TrailingFailures(s.log) && b.failures < Limit(cfg.failureThreshold)
    case Open => b.failures >= Limit(cfg.failureThreshold) && b.lastFailure.Some?
    case HalfOpen =>
      && b.failures >= Limit(cfg.failureThreshold) && b.lastFailure.Some?
      // since it became half-open every outcome was a success, and they were counted
      && s.entered <= |s.log| && b.successes == |s.log| - s.entered
      && (forall i :: s.entered <= i < |s.log| ==> s.log[i] == Good)
      && b.successes < Limit(cfg.halfOpenMaxProbes)
  }

  lemma {:induction false} TrailingSnoc(log: seq<Outcome>, o: Outcome)
    ensures TrailingFailures(log + [o]) == if o == Good then 0 else 1 + TrailingFailures(log)
  {
    assert (log + [o])[..|log + [o]| - 1] == log;
  }

  lemma OutcomeKept(cfg: Config, s: State, ok: bool, at: Time)
    requires Meaning(cfg, s)
    ensures Meaning(cfg, RecordOutcome(cfg, s, ok, at))
  {
    TrailingSnoc(s.log, if ok then Good else Bad);
  }

  /**
   * In every run, whatever calls overlap: while Closed the failure counter is
   * the current run of failures and below the threshold; while Open or
   * HalfOpen the threshold was reached and a failure time is known; while
   * HalfOpen the success counter counts exactly the outcomes since it opened
   * up, all successes, and is below the number of probes asked for.
   */
  lemma {:induction false} CountersMeanWhatTheySay(cfg: Config, events: seq<Timed>)
    requires Exec(cfg, events).Some?
    ensures Meaning(cfg, Exec(cfg, events).value)
    decreases |events|
  {
    if events != [] {
      var before, e := events[..|events| - 1], events[|events| - 1];
      CountersMeanWhatTheySay(cfg, before);
      var s := Exec(cfg, before).value.(now := e.at);
      match e.event
      case Finish(call, ok) => OutcomeKept(cfg, s.(running := s.running - {call}), ok, e.at);
      case Report(ok) => OutcomeKept(cfg, s, ok, e.at);
      case _ =>
    }
  }

  /** Calls begin and finish, outcomes are reported and states asked for whenever the clock allows it. */
  lemma EventsHappen(cfg: Config, s: State, e: Timed)
    ensures Apply(cfg, s, e).Some? <==>
            && e.at >= s.now
            && (e.event.Begin? ==> e.event.call !in s.running)
            && (e.event.Finish? ==> e.event.call in s.running)
    ensures Apply(cfg, s, e).Some? ==>
              var t := Apply(cfg, s, e).value;
              && t.now == e.at
              && (e.event.Begin? ==>
                    t.running == if t.inner.mode == Open then s.running else s.running + {e.event.call})
              && (e.event.Finish? ==> t.running == s.running - {e.event.call})
              && (e.event.Report? || e.event.Query? ==> t.running == s.running)
              && t.log == s.log + (if IsOutcome(e.event, true) then [Good]
                                   else if IsOutcome(e.event, false) then [Bad] else [])
  {
  }

  // -------------------------------------------------- how a breaker opens and closes

  predicate IsOutcome(e: Event, ok: bool) {
    (e.Finish? || e.Report?) && e.ok == ok
  }

  /**
   * The successes in a row that ended the run `events` since the breaker last
   * was not half-open: a success that finds it open counts as the first.
   */
  function Streak(cfg: Config, events: seq<Timed>): nat {
    if events == [] then 0
    else
      var before, e := events[..|events| - 1], events[|events| - 1].event;
      var found := Before(cfg, events, |events| - 1).mode;
      var streak := if found == HalfOpen then Streak(cfg, before) else 0;
      if IsOutcome(e, true) && found != Closed then streak + 1
      else if IsOutcome(e, false) then 0
      else streak
  }

  /** The failures in a row that ended the run, whatever state they found. */
  function FailureRun(events: seq<Timed>): nat {
    if events == [] then 0
    else
      var before, e := events[..|events| - 1], events[|events| - 1].event;
      if IsOutcome(e, false) then FailureRun(before) + 1
      else if IsOutcome(e, true) then 0
      else FailureRun(before)
  }

  lemma {:induction false} LogIsOutcomes(cfg: Config, events: seq<Timed>)
    requires Exec(cfg, events).Some?
    ensures TrailingFailures(Exec(cfg, events).value.log) == FailureRun(events)
    decreases |events|
  {
    if events != [] {
      var before, e := events[..|events| - 1], events[|events| - 1].event;
      LogIsOutcomes(cfg, before);
      if IsOutcome(e, true) || IsOutcome(e, false) {
        TrailingSnoc(Exec(cfg, before).value.log, if IsOutcome(e, true) then Good else Bad);
      }
    }
  }

  /** While half-open, the success counter is the streak. */
  lemma {:induction false} SuccessesAreStreak(cfg: Config, events: seq<Timed>)
    requires Exec(cfg, events).Some? && Exec(cfg, events).value.inner.mode == HalfOpen
    ensures Exec(cfg, events).value.inner.successes == Streak(cfg, events)
    ensures Streak(cfg, events) < Limit(cfg.halfOpenMaxProbes)
    decreases |events|
  {
    CountersMeanWhatTheySay(cfg, events);
    var before, e := events[..|events| - 1], events[|events| - 1];
    var s := Exec(cfg, before).value;
    if s.inner.mode == HalfOpen {
      SuccessesAreStreak(cfg, before);
      CountersMeanWhatTheySay(cfg, before);
    }
  }

  /**
   * What a recorded success does: a closed breaker stays closed; any other is
   * closed by it exactly when the successes since it was half-open have become
   * as many as asked for, and is half-open otherwise.
   */
  lemma {:induction false} ModeAfterSuccess(cfg: Config, events: seq<Timed>)
    requires events != [] && Exec(cfg, events).Some? && IsOutcome(events[|events| - 1].event, true)
    ensures
      var before, after := Before(cfg, events, |events| - 1).mode, Exec(cfg, events).value.inner.mode;
      && (before == Closed ==> after == Closed)
      && (before != Closed ==>
            && 1 <= Streak(cfg, events) <= Limit(cfg.halfOpenMaxProbes)
            && after == if Streak(cfg, events) == Limit(cfg.halfOpenMaxProbes) then Closed else HalfOpen)
  {
    var before := events[..|events| - 1];
    if Before(cfg, events, |events| - 1).mode == HalfOpen {
      SuccessesAreStreak(cfg, before);
    }
  }

  /**
   * What a recorded failure does: a closed breaker opens exactly when the run
   * of failures has become as long as the threshold; a half-open one opens; an
   * open one stays open.
   */
  lemma {:induction false} ModeAfterFailure(cfg: Config, events: seq<Timed>)
    requires events != [] && Exec(cfg, events).Some? && IsOutcome(events[|events| - 1].event, false)
    ensures
      var before, after := Before(cfg, events, |events| - 1).mode, Exec(cfg, events).value.inner.mode;
      && (before == Closed ==>
            && FailureRun(events) <= Limit(cfg.failureThreshold)
            && after == if FailureRun(events) == Limit(cfg.failureThreshold) then Open else Closed)
      && (before != Closed ==> after == Open)
  {
    var before := events[..|events| - 1];
    CountersMeanWhatTheySay(cfg, before);
    LogIsOutcomes(cfg, before);
  }

  /** Beginning a call or asking for the state only ever takes a breaker from open to half-open. */
  lemma {:induction false} ModeAfterPoll(cfg: Config, events: seq<Timed>)
    requires events != [] && Exec(cfg, events).Some?
    requires !IsOutcome(events[|events| - 1].event, true) && !IsOutcome(events[|events| - 1].event, false)
    ensures
      var before, after := Before(cfg, events, |events| - 1).mode, Exec(cfg, events).value.inner.mode;
      after == before || (before == Open && after == HalfOpen)
  {
  }

  // ----------------------------------------------------- every rejection is due

  predicate IsFailure(e: Event) {
    (e.Finish? || e.Report?) && !e.ok
  }

  /** The breaker's state before event `i` of the run. */
  function Before(cfg: Config, events: seq<Timed>, i: nat): Inner
    requires i <= |events|
  {
    match Exec(cfg, events[..i])
    case None => FRESH
    case Some(s) => s.inner
  }

  /** Event `j` is a failure that opened the breaker, which has been open ever since up to event `i`. */
  ghost predicate OpenedAt(cfg: Config, events: seq<Timed>, j: nat, i: nat)
    requires j < i <= |events|
  {
    && IsFailure(events[j].event)
    && Before(cfg, events, j).mode != Open
    && (forall k :: j < k <= i ==> Before(cfg, events, k).mode == Open)
    && Before(cfg, events, i).lastFailure == Some(events[j].at)
  }

  lemma {:induction false} PrefixesRun(cfg: Config, events: seq<Timed>, k: nat)
    requires Exec(cfg, events).Some? && k <= |events|
    ensures Exec(cfg, events[..k]).Some?
    ensures k > 0 ==> Exec(cfg, events[..k - 1]).Some? &&
                      Exec(cfg, events[..k]) == Apply(cfg, Exec(cfg, events[..k - 1]).value, events[k - 1])
    decreases |events|
  {
    if k == |events| {
      assert events[..k] == events;
    } else {
      var before := events[..|events| - 1];
      PrefixesRun(cfg, before, k);
      assert before[..k] == events[..k];
      assert k > 0 ==> before[..k - 1] == events[..k - 1];
    }
  }

  /** One event either leaves an open breaker open with its failure time, or is the failure that opens it. */
  lemma OpenStep(cfg: Config, s: State, e: Timed)
    requires Apply(cfg, s, e).Some? && Apply(cfg, s, e).value.inner.mode == Open
    ensures
      var b := Apply(cfg, s, e).value.inner;
      if s.inner.mode == Open then b.lastFailure == s.inner.lastFailure
      else IsFailure(e.event) && b.lastFailure == Some(e.at)
  {
  }

  lemma {:induction false} OpenHasCause(cfg: Config, events: seq<Timed>, i: nat) returns (j: nat)
    requires i <= |events| && Exec(cfg, events).Some?
    requires Before(cfg, events, i).mode == Open
    ensures j < i && OpenedAt(cfg, events, j, i)
  {
    PrefixesRun(cfg, events, i);
    assert events[..0] == [];
    if i == 0 {
      assert false;
    } else {
      OpenStep(cfg, Exec(cfg, events[..i - 1]).value, events[i - 1]);
      if Before(cfg, events, i - 1).mode == Open {
        j := OpenHasCause(cfg, events, i - 1);
      } else {
        j := i - 1;
      }
    }
  }

  /**
   * A call that begins at time t is rejected if and only if some recorded
   * failure at T, with T <= t < T + reset_timeout, opened the breaker and it
   * has been open ever since; failures reported meanwhile do not extend that.
   */
  lemma {:induction false} RejectedIffRecentlyOpened(cfg: Config, events: seq<Timed>, t: Time)
    requires Exec(cfg, events).Some? && Exec(cfg, events).value.now <= t
    ensures Rejects(cfg, Exec(cfg, events).value.inner, t) <==>
            exists j :: 0 <= j < |events| && OpenedAt(cfg, events, j, |events|)
                        && events[j].at <= t < events[j].at + cfg.resetTimeout
  {
    assert events[..|events|] == events;
    if Before(cfg, events, |events|).mode == Open {
      var j := OpenHasCause(cfg, events, |events|);
      TimesOnlyGrow(cfg, events, j);
    }
  }

  /** The clock of a run is monotone: no event lies after its end. */
  lemma {:induction false} TimesOnlyGrow(cfg: Config, events: seq<Timed>, j: nat)
    requires Exec(cfg, events).Some? && j < |events|
    ensures events[j].at <= Exec(cfg, events).value.now
    decreases |events|
  {
    var before := events[..|events| - 1];
    if j < |before| {
      TimesOnlyGrow(cfg, before, j);
    }
  }

  // ------------------------------------------------- what the breaker does not limit

  /** The run goes on from `s`. */
  function ExecFrom(cfg: Config, s: State, events: seq<Timed>): Option<State> {
    if events == [] then Some(s)
    else match ExecFrom(cfg, s, events[..|events| - 1])
    case None => None
    case Some(t) => Apply(cfg, t, events[|events| - 1])
  }

  lemma {:induction false} ExecSnoc(cfg: Config, s: State, events: seq<Timed>, e: Timed)
    ensures ExecFrom(cfg, s, events + [e]) ==
            match ExecFrom(cfg, s, events) { case None => None case Some(t) => Apply(cfg, t, e) }
  {
    assert (events + [e])[..|events + [e]| - 1] == events;
  }

  lemma {:induction false} ExecSplit(cfg: Config, early: seq<Timed>, late: seq<Timed>)
    requires Exec(cfg, early).Some?
    ensures Exec(cfg, early + late) == ExecFrom(cfg, Exec(cfg, early).value, late)
    decreases |late|
  {
    if late == [] {
      assert early + late == early;
    } else {
      var n := |late| - 1;
      assert (early + late)[..|early + late| - 1] == early + late[..n];
      ExecSplit(cfg, early, late[..n]);
    }
  }

  /** From any closed state, enough reported failures open the breaker, whatever calls are still running. */
  lemma {:induction false} FailuresOpen(cfg: Config, s: State) returns (reports: seq<Timed>)
    requires Meaning(cfg, s) && s.inner.mode == Closed
    ensures
      var r := ExecFrom(cfg, s, reports);
      r.Some? && r.value.inner.mode == Open && r.value.running == s.running && r.value.now == s.now
    decreases Limit(cfg.failureThreshold) - s.inner.failures
  {
    var e := Timed(s.now, Report(false));
    var t := Apply(cfg, s, e).value;
    OutcomeKept(cfg, s, false, s.now);
    if t.inner.mode == Open {
      reports := [e];
      assert [e][..0] == [];
      assert ExecFrom(cfg, s, []) == Some(s);
    } else {
      var later := FailuresOpen(cfg, t);
      reports := [e] + later;
      ExecCons(cfg, s, e, later);
    }
  }

  lemma {:induction false} ExecCons(cfg: Config, s: State, e: Timed, events: seq<Timed>)
    requires Apply(cfg, s, e).Some?
    ensures ExecFrom(cfg, s, [e] + events) == ExecFrom(cfg, Apply(cfg, s, e).value, events)
    decreases |events|
  {
    if events == [] {
      assert [e] + events == [] + [e];
      ExecSnoc(cfg, s, [], e);
    } else {
      var n := |events| - 1;
      ExecCons(cfg, s, e, events[..n]);
      ExecSnoc(cfg, s, [e] + events[..n], events[n]);
      ExecSnoc(cfg, Apply(cfg, s, e).value, events[..n], events[n]);
      assert [e] + events == [e] + events[..n] + [events[n]];
      assert events == events[..n] + [events[n]];
    }
  }

  /**
   * A call admitted while Closed may finish while Open: from any reachable
   * state with a call running in a closed breaker there is a run that opens it
   * first, and then a success takes it straight out of Open.
   */
  lemma ClosedCallFinishesOpen(cfg: Config, s: State, call: CallId) returns (reports: seq<Timed>)
    requires Meaning(cfg, s) && s.inner.mode == Closed && call in s.running
    ensures ExecFrom(cfg, s, reports).Some?
    ensures
      var open := ExecFrom(cfg, s, reports).value;
      && open.inner.mode == Open && call in open.running
      && var done := Apply(cfg, open, Timed(open.now, Finish(call, true)));
      done.Some? && done.value.inner.mode != Open
  {
    reports := FailuresOpen(cfg, s);
  }

  /** In a half-open breaker every call is admitted, however many are running. */
  lemma {:induction false} AllAdmitted(cfg: Config, s: State, n: nat) returns (begins: seq<Timed>)
    requires s.inner.mode == HalfOpen && s.running == {}
    ensures
      var r := ExecFrom(cfg, s, begins);
      && r.Some? && r.value.inner == s.inner && r.value.now == s.now
      && |r.value.running| == n && forall c :: c in r.value.running ==> c < n
    decreases n
  {
    if n == 0 {
      begins := [];
    } else {
      var fewer := AllAdmitted(cfg, s, n - 1);
      var e := Timed(s.now, Begin(n - 1));
      begins := fewer + [e];
      ExecSnoc(cfg, s, fewer, e);
    }
  }

  /** Failures and a wait make a fresh breaker half-open. */
  lemma CanBeHalfOpen(cfg: Config) returns (events: seq<Timed>)
    ensures Exec(cfg, events).Some?
    ensures Exec(cfg, events).value.inner.mode == HalfOpen && Exec(cfg, events).value.running == {}
  {
    CountersMeanWhatTheySay(cfg, []);
    var fails := FailuresOpen(cfg, INITIAL);
    ExecSplit(cfg, [], fails);
    assert [] + fails == fails;
    var open := Exec(cfg, fails).value;
    CountersMeanWhatTheySay(cfg, fails);
    var wait := Timed(open.now + open.inner.lastFailure.value + cfg.resetTimeout, Query);
    events := fails + [wait];
    assert events[..|events| - 1] == fails;
  }

  /**
   * No number of half-open probes is too many: for every configuration and
   * every n there is a run that ends half-open with n calls running.
   */
  lemma ProbesAreUnlimited(cfg: Config, n: nat) returns (events: seq<Timed>)
    ensures Exec(cfg, events).Some?
    ensures
      var s := Exec(cfg, events).value;
      s.inner.mode == HalfOpen && |s.running| == n
  {
    var started := CanBeHalfOpen(cfg);
    var begins := AllAdmitted(cfg, Exec(cfg, started).value, n);
    events := started + begins;
    ExecSplit(cfg, started, begins);
  }
}
