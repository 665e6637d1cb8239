/**
 The client object behind the C interface, as its calls run under the client
 lock. What the core does inside a call is not known here: it may ask for
 ticks, report states, let time pass and return anything.
 */
module Clients {
  import opened Aead
  import opened Timers
  import opened Ticks
  import L = Lifecycle

  datatype ReturnCode = Success | InvalidConnState | ConnectionTimedOut | Failed | ConfNotSet | BadParam | SslError

  /** How a core call ends: an error may be the dedicated timeout, and may be
      fatal for the connection; a panic is contained at the C interface, and
      the connection lives on. */
  datatype Outcome = Fine | Error(timedOut: bool, fatal: bool) | Panicked

  /** Where a nudge was cut short by a panic in the core, if it was; `done`
      counts the payload ticks handed over, the panicking one included. */
  datatype Panic = NoPanic | InConnectionTick | InPayloadTick(done: nat)

  predicate TearsDown(o: Outcome) {
    o.Error? && (o.timedOut || o.fatal)
  }

  /** The handshake is still going on. */
  predicate BeforeOnline(s: L.State)
    ensures BeforeOnline(s) <==> s !in {L.Online, L.Disconnecting, L.Disconnected}
  {
    s == L.Connecting || s == L.LinkUp || s == L.Authenticating
  }

  /** The connection-tick half of a nudge at time `at`: a tick goes out if one
      is armed and due, and otherwise nothing happens. */
  ghost predicate ConnectionPart(armed: Option<Instant>, at: Instant, t: TickLog, t': TickLog) {
    if armed.Some? && armed.value <= at then CoreRan(TickTaken(t, armed.value, at), t') else t' == t
  }

  /** The payload half of a nudge at time `at`. */
  ghost predicate PayloadPart(at: Instant, done: nat, t: TickLog, t': TickLog) {
    done <= |Due(t.pending, at)| && CoreRan(PayloadTaken(t, at, done), t')
  }

  class Client {
    /** The tick state of the live connection, if there is one. */
    var app: AppState?
    /** The core's own state, as the core reports it when asked. */
    var coreState: L.State
    var state: L.CState
    var nudgeTimeMs: nat
    /** The clock at the last reading. */
    var clock: Instant
    /** Every state-change callback made. */
    ghost var trace: seq<L.CState>
    /** How often the core was called. */
    ghost var coreCalls: nat

    ghost function Life(): L.Life
      reads this
    {
      L.Life(app != null, state, trace)
    }

    ghost predicate Valid()
      reads this, app
    {
      app != null ==> app.Valid() && OnTime(app.Log(), clock)
    }

    ghost function Moment(): Moment
      reads this, app
    {
      if app == null then Gone(clock) else Live(clock, app, app.Log())
    }

    constructor ()
      ensures Valid() && Life() == L.BORN && app == null && nudgeTimeMs == 0
    {
      app := null;
      coreState, state, nudgeTimeMs, clock, trace, coreCalls := L.Connecting, L.HeNone, 0, 0, [], 0;
    }

    /** Time never goes backwards. */
    method Now() returns (t: Instant)
      modifies this`clock
      ensures t == clock && old(clock) <= clock
    {
      var passed :| 0 <= passed;
      clock := clock + passed;
      t := clock;
    }

    /** Cache the state, then call back with it. */
    method NotifyState(s: L.CState)
      modifies this`state, this`trace
      ensures Life() == L.Notify(old(Life()), s)
    {
      state := s;
      trace := trace + [s];
    }

    /** The core runs: any ticks, any states, any outcome. */
    method RunCore() returns (outcome: Outcome, ghost emits: seq<L.State>)
      requires app != null && app.Sane()
      modifies this`clock, this`state, this`trace, this`coreState, this`coreCalls, app
      ensures app.Sane() && old(clock) <= clock && coreCalls == old(coreCalls) + 1
      ensures CoreRan(old(app.Log()), app.Log())
      ensures Life() == L.Emit(old(Life()), emits)
    {
      emits := [];
      coreCalls := coreCalls + 1;
      var events :| 0 <= events;
      for i := 0 to events
        invariant app.Sane() && old(clock) <= clock && coreCalls == old(coreCalls) + 1
        invariant CoreRan(old(app.Log()), app.Log())
        invariant Life() == L.Emit(old(Life()), emits)
      {
        ghost var before := app.Log();
        var more := CoreEvent();
        CoreRanTwice(old(app.Log()), before, app.Log());
        L.EmitConcat(old(Life()), emits, more);
        emits := emits + more;
      }
      coreState := *;
      outcome := *;
    }

    /** One thing the core may do: report a state or ask for a tick. */
    method CoreEvent() returns (ghost emits: seq<L.State>)
      requires app != null && app.Sane()
      modifies this`clock, this`state, this`trace, app
      ensures app.Sane() && old(clock) <= clock
      ensures CoreRan(old(app.Log()), app.Log())
      ensures Life() == L.Emit(old(Life()), emits)
    {
      emits := [];
      var reports: bool := *;
      if reports {
        var s: L.State := *;
        NotifyState(L.StateToC(s));
        emits := [s];
      } else {
        var now := Now();
        var d :| 0 <= d <= DURATION_MAX;
        var tick: TickType := *;
        app.ScheduleTick(now, d, tick);
      }
    }

    /** Hand a tick to the core that is due by the clock. */
    method CoreTick(d: Dispatch) returns (outcome: Outcome, ghost emits: seq<L.State>)
      requires app != null && app.Sane() && d.entry.deadline <= d.at <= clock
      modifies this`clock, this`state, this`trace, this`coreState, this`coreCalls, app
      ensures app.Sane() && old(clock) <= clock && coreCalls == old(coreCalls) + 1
      ensures CoreRan(if d.entry.tick.ConnectionTick? then old(app.Log()).(ticked := old(app.ticked) + [d])
                      else old(app.Log()).(dispatched := old(app.dispatched) + [d]), app.Log())
      ensures Life() == L.Emit(old(Life()), emits)
    {
      if d.entry.tick.ConnectionTick? {
        app.ticked := app.ticked + [d];
      } else {
        app.dispatched := app.dispatched + [d];
      }
      outcome, emits := RunCore();
    }

    /** Drop a dead connection, with one DISCONNECTED callback. */
    method FatalDisconnect()
      modifies this`app, this`state, this`trace
      ensures app == null && Life() == L.FatalDisconnect(old(Life()))
    {
      if state == L.HeDisconnected {
        app := null;
        return;
      }
      NotifyState(L.HeDisconnected);
      app := null;
    }

    method HandleTickError(o: Outcome) returns (code: ReturnCode)
      requires o.Error?
      modifies this`app, this`state, this`trace, this`nudgeTimeMs
      ensures if o.timedOut || o.fatal then app == null && nudgeTimeMs == 0 && Life() == L.FatalDisconnect(old(Life()))
              else unchanged(this)
      ensures code == (if o.timedOut then ConnectionTimedOut else Failed)
    {
      if o.timedOut {
        nudgeTimeMs := 0;
        FatalDisconnect();
        return ConnectionTimedOut;
      } else if o.fatal {
        nudgeTimeMs := 0;
        FatalDisconnect();
        return Failed;
      }
      return Failed;
    }

    /** Re-arm a failed connection tick while the handshake is still going on. */
    method RetryAfterError(o: Outcome, delay: Duration) returns (armed: bool)
      requires o.Error? && app != null && app.Sane()
      modifies this`clock, app
      ensures app.Sane() && old(clock) <= clock
      ensures armed <==> !o.fatal && coreState !in {L.Online, L.Disconnecting, L.Disconnected}
      ensures app.Log() == old(app.Log()).(asked := old(app.asked) + (if armed then {clock + delay} else {}))
      ensures armed ==> app.nextTick.Some?
      ensures !armed ==> unchanged(app) && clock == old(clock)
    {
      armed := !o.fatal && BeforeOnline(coreState);
      if armed {
        var now := Now();
        app.ScheduleTick(now, delay, ConnectionTick);
        assert app.pendingTicks[|old(app.pendingTicks)|..] == [];
      }
    }

    /** First half of a nudge: the connection tick, if one is due. */
    method TickConnection() returns (outcome: Outcome, ghost emits: seq<L.State>, ghost at: Instant)
      requires app != null && Valid()
      modifies this`clock, this`state, this`trace, this`coreState, this`coreCalls, app
      ensures Valid() && old(clock) <= at <= clock
      ensures Life() == L.Emit(old(Life()), emits)
      ensures ConnectionPart(old(app.nextTick), at, old(app.Log()), app.Log())
      ensures !(old(app.nextTick).Some? && old(app.nextTick).value <= at) ==> unchanged(app) && outcome == Fine && emits == []
      ensures outcome.Error? && !outcome.fatal && coreState !in {L.Online, L.Disconnecting, L.Disconnected} ==> app.nextTick.Some?
    {
      emits := [];
      outcome := Fine;
      var now := Now();
      at := now;
      if app.nextTick.Some? && now >= app.nextTick.value {
        var retryDelay :| 0 <= retryDelay <= DURATION_MAX;
        var deadline := app.nextTick.value;
        app.TakeConnectionTick();
        outcome, emits := CoreTick(Dispatch(Entry(deadline, ConnectionTick), now));
        if outcome.Error? {
          var _ := RetryAfterError(outcome, retryDelay);
        }
        ghost var taken := TickTaken(old(app.Log()), deadline, now);
        assert CoreRan(taken, app.Log());
        TickTakenConserves(old(app.Log()), deadline, now);
        CoreRanConserves(taken, app.Log());
        StillOnTime(taken, now, app.Log(), clock);
      }
    }

    /** Hand over a list of due ticks in order, until one fails fatally or
        panics; the rest of the list is then forgotten. */
    method DispatchAll(due: seq<Entry>, now: Instant) returns (outcome: Outcome, ghost emits: seq<L.State>, ghost done: nat)
      requires app != null && app.Sane() && now <= clock && forall e <- due :: e.deadline <= now && !e.tick.ConnectionTick?
      modifies this`clock, this`state, this`trace, this`coreState, this`coreCalls, app
      ensures app.Sane() && old(clock) <= clock && done <= |due|
      ensures CoreRan(old(app.Log()).(dispatched := old(app.dispatched) + Stamped(due[..done], now), lost := old(app.lost) + due[done..]),
                      app.Log())
      ensures Life() == L.Emit(old(Life()), emits)
      ensures (outcome == Fine && done == |due|) || (((outcome.Error? && outcome.fatal) || outcome.Panicked?) && done > 0)
    {
      emits, done, outcome := [], 0, Fine;
      for i := 0 to |due|
        invariant done == i && app.Sane() && old(clock) <= clock
        invariant Life() == L.Emit(old(Life()), emits)
        invariant CoreRan(old(app.Log()).(dispatched := old(app.dispatched) + Stamped(due[..i], now)), app.Log())
      {
        ghost var before := app.Log();
        var o, more := CoreTick(Dispatch(due[i], now));
        HandedOneMore(old(app.Log()), due, now, i, before, app.Log());
        L.EmitConcat(old(Life()), emits, more);
        emits, done := emits + more, i + 1;
        if (o.Error? && o.fatal) || o.Panicked? {
          outcome := o;
          break;
        }
      }
      app.lost := app.lost + due[done..];
    }

    /** Second half of a nudge: every payload tick that is due, each with its
        own type. What the ticks schedule in turn waits for the next nudge. */
    method DispatchDue() returns (outcome: Outcome, ghost emits: seq<L.State>, ghost at: Instant, ghost done: nat)
      requires app != null && Valid()
      modifies this`clock, this`state, this`trace, this`coreState, this`coreCalls, app
      ensures Valid() && old(clock) <= at <= clock
      ensures Life() == L.Emit(old(Life()), emits)
      ensures PayloadPart(at, done, old(app.Log()), app.Log())
      ensures (outcome == Fine && done == |Due(old(app.pendingTicks), at)|)
              || (((outcome.Error? && outcome.fatal) || outcome.Panicked?) && done > 0)
    {
      var now := Now();
      at := now;
      ghost var t := app.Log();
      var due, remaining := Due(app.pendingTicks, now), NotDue(app.pendingTicks, now);
      PartitionConserves(app.pendingTicks, now);
      app.pendingTicks := remaining;
      outcome, emits, done := DispatchAll(due, now);
      DispatchSound(t, now, done, app.Log(), clock);
    }

    /** After a nudge the published timer is off exactly when nothing is
        outstanding, and otherwise wakes for the earliest deadline. */
    ghost predicate Published()
      reads this, app
    {
      if app == null then nudgeTimeMs == 0
      else
        && (nudgeTimeMs == 0 <==> forall t :: !Outstanding(app.nextTick, app.pendingTicks, t))
        && (nudgeTimeMs > 0 ==> WakesFor(app.nextTick, app.pendingTicks, Notice(clock, nudgeTimeMs)))
    }

    method Publish()
      modifies this`clock, this`nudgeTimeMs
      ensures Published() && old(clock) <= clock
    {
      var now := Now();
      nudgeTimeMs := if app == null then 0 else NudgeMsUntil(EarliestDeadline(app.nextTick, app.pendingTicks), now);
    }

    /** The host's timer fired, or the host just calls. At time `tickAt` it is
        decided whether the connection tick is due; `seen` are the ticks after
        that half; at time `at` it is decided which payload ticks are due. */
    method Nudge()
      returns (code: ReturnCode, ghost emits: seq<L.State>, ghost torn: bool, ghost panic: Panic,
               ghost tickAt: Instant, ghost seen: TickLog, ghost at: Instant)
      requires Valid()
      modifies this, app
      ensures Valid() && old(clock) <= clock
      ensures app == (if torn then null else old(app))
      ensures Life() == L.Step(old(Life()), L.Core(emits, torn))
      ensures old(app) == null ==> code == InvalidConnState && !torn && panic.NoPanic? && nudgeTimeMs == old(nudgeTimeMs)
      ensures old(app) != null ==> code != InvalidConnState && (panic.NoPanic? ==> Published())
      ensures torn ==> code != Success && panic.NoPanic?
      ensures code == ConnectionTimedOut ==> torn
      ensures !panic.NoPanic? ==> code == Failed && nudgeTimeMs == old(nudgeTimeMs)
      ensures old(app) != null ==> old(clock) <= tickAt <= clock && ConnectionPart(old(app.nextTick), tickAt, old(app.Log()), seen)
      ensures code == Success ==> tickAt <= at <= clock && PayloadPart(at, |Due(seen.pending, at)|, seen, app.Log())
      ensures panic.InPayloadTick? ==> tickAt <= at <= clock && 0 < panic.done && PayloadPart(at, panic.done, seen, app.Log())
      ensures old(app) != null && !torn && code != Success && !panic.InPayloadTick? ==> app.Log() == seen && seen.ticked != old(app.ticked)
      ensures code == Failed && !torn && panic.NoPanic? && coreState !in {L.Online, L.Disconnecting, L.Disconnected} ==>
        app != null && app.nextTick.Some? && nudgeTimeMs > 0
    {
      emits, torn, panic, tickAt, at := [], false, NoPanic, clock, clock;
      seen := TickLog(multiset{}, [], [], [], {}, []);
      if app == null {
        return InvalidConnState, emits, torn, panic, tickAt, seen, at;
      }
      var tickError;
      tickError, emits, tickAt := TickConnection();
      seen := app.Log();
      ghost var emits2;
      code, emits2, torn, panic, at := FinishNudge(tickError);
      L.EmitConcat(old(Life()), emits, emits2);
      emits := emits + emits2;
    }

    /** A nudge after its connection-tick half, which ended as `o`. */
    method FinishNudge(o: Outcome) returns (code: ReturnCode, ghost emits: seq<L.State>, ghost torn: bool, ghost panic: Panic, ghost at: Instant)
      requires app != null && Valid()
      requires o.Error? && !o.fatal && coreState !in {L.Online, L.Disconnecting, L.Disconnected} ==> app.nextTick.Some?
      modifies this, app
      ensures Valid() && old(clock) <= at <= clock
      ensures app == (if torn then null else old(app))
      ensures Life() == (if torn then L.FatalDisconnect(L.Emit(old(Life()), emits)) else L.Emit(old(Life()), emits))
      ensures code != InvalidConnState && (code == Success ==> o == Fine) && (torn ==> code != Success && panic.NoPanic?) && (code == ConnectionTimedOut ==> torn)
      ensures if panic.NoPanic? then Published() else code == Failed && nudgeTimeMs == old(nudgeTimeMs)
      ensures code == Success ==> PayloadPart(at, |Due(old(app.pendingTicks), at)|, old(app.Log()), app.Log())
      ensures panic.InPayloadTick? ==> 0 < panic.done && PayloadPart(at, panic.done, old(app.Log()), app.Log())
      ensures !torn && code != Success && !panic.InPayloadTick? ==> o != Fine && app.Log() == old(app.Log())
      ensures code == Failed && !torn && panic.NoPanic? && coreState !in {L.Online, L.Disconnecting, L.Disconnected} ==>
        app != null && app.nextTick.Some? && nudgeTimeMs > 0
    {
      emits, torn, panic, at := [], false, NoPanic, clock;
      match o {
        case Panicked =>
          return Failed, emits, torn, InConnectionTick, at;
        case Error(_, _) =>
          code := FailNudge(o);
          torn := TearsDown(o);
        case Fine =>
          code, emits, torn, panic, at := NudgePayload();
      }
    }

    /** The part of a nudge after a connection tick that failed. */
    method FailNudge(o: Outcome) returns (code: ReturnCode)
      requires o.Error? && app != null && Valid()
      modifies this`clock, this`nudgeTimeMs, this`app, this`state, this`trace
      ensures Valid() && Published() && old(clock) <= clock && code == (if o.timedOut then ConnectionTimedOut else Failed)
      ensures if TearsDown(o) then app == null && Life() == L.FatalDisconnect(old(Life()))
              else app == old(app) && Life() == old(Life())
      ensures app != null && app.nextTick.Some? ==> nudgeTimeMs > 0
    {
      assert app.nextTick.Some? ==> Outstanding(app.nextTick, app.pendingTicks, app.nextTick.value);
      Publish();
      code := HandleTickError(o);
    }

    /** The part of a nudge after a connection tick that did not fail. */
    method NudgePayload() returns (code: ReturnCode, ghost emits: seq<L.State>, ghost torn: bool, ghost panic: Panic, ghost at: Instant)
      requires app != null && Valid()
      modifies this, app
      ensures Valid() && old(clock) <= at <= clock
      ensures app == (if torn then null else old(app))
      ensures Life() == (if torn then L.FatalDisconnect(L.Emit(old(Life()), emits)) else L.Emit(old(Life()), emits))
      ensures !panic.InConnectionTick? && (torn ==> panic.NoPanic?)
      ensures if panic.NoPanic? then Published() else code == Failed && nudgeTimeMs == old(nudgeTimeMs)
      ensures if torn then code in {Failed, ConnectionTimedOut} else code == Success <==> panic.NoPanic?
      ensures code == Success ==> PayloadPart(at, |Due(old(app.pendingTicks), at)|, old(app.Log()), app.Log())
      ensures panic.InPayloadTick? ==> 0 < panic.done && PayloadPart(at, panic.done, old(app.Log()), app.Log())
    {
      var payloadError;
      ghost var done;
      payloadError, emits, at, done := DispatchDue();
      panic := if payloadError.Panicked? then InPayloadTick(done) else NoPanic;
      torn := payloadError.Error?;
      if payloadError.Panicked? {
        return Failed, emits, torn, panic, at;
      }
      if payloadError.Error? {
        code := HandleTickError(payloadError);
        return;
      }
      Publish();
      code := Success;
    }

    /** The ticks of a new connection. While it is being built the core may ask
        for ticks, but reports no state. */
    method NewTicks(notifies: bool) returns (a: AppState)
      modifies this`clock
      ensures fresh(a) && a.Valid() && a.dispatched == a.ticked == [] && a.lost == [] && old(clock) <= clock
    {
      a := new AppState(notifies);
      var asks :| 0 <= asks;
      for i := 0 to asks
        invariant fresh(a) && a.Valid() && a.dispatched == a.ticked == [] && a.lost == [] && old(clock) <= clock
      {
        ghost var before := a.Log();
        var now := Now();
        var d :| 0 <= d <= DURATION_MAX;
        var tick: TickType := *;
        a.ScheduleTick(now, d, tick);
        CoreRanConserves(before, a.Log());
      }
    }

    /** `problem` is what validating the configuration and building the
        connection came to; a panic while building is a `Failed`. */
    method Connect(problem: Option<ReturnCode>, notifies: bool) returns (code: ReturnCode)
      requires Valid() && problem != Some(Success)
      modifies this
      ensures Valid() && nudgeTimeMs == old(nudgeTimeMs) && old(clock) <= clock
      ensures Life() == L.Step(old(Life()), L.Connect(problem.None?))
      ensures code == (if old(app) != null then InvalidConnState else if problem.Some? then problem.value else Success)
      ensures old(app) != null ==> unchanged(this)
      ensures old(app) == null && app != null ==> fresh(app) && app.dispatched == app.ticked == [] && app.lost == []
    {
      if app != null {
        return InvalidConnState;
      }
      if problem.Some? {
        return problem.value;
      }
      var a := NewTicks(notifies);
      app := a;
      coreState := L.Connecting;
      if state != L.HeConnecting {
        NotifyState(L.HeConnecting);
      }
      return Success;
    }

    /** Say goodbye through the core, and make up for callbacks it did not make.
        If the core panics the goodbye is cut short: the connection stays. */
    method Disconnect() returns (code: ReturnCode, ghost emits: seq<L.State>, ghost panicked: bool)
      requires Valid()
      modifies this, app
      ensures Valid() && nudgeTimeMs == old(nudgeTimeMs) && old(clock) <= clock
      ensures coreCalls == old(coreCalls) + if old(app) == null then 0 else 1
      ensures if panicked then old(app) != null && app == old(app) && code == Failed && CoreRan(old(app.Log()), app.Log())
              else app == null && code == Success
      ensures Life() == L.Step(old(Life()), if panicked then L.Core(emits, false) else L.Disconnect(emits))
    {
      emits, panicked := [], false;
      if app != null {
        var outcome;
        outcome, emits := RunCore();
        if outcome.Panicked? {
          CoreRanConserves(old(app.Log()), app.Log());
          StillOnTime(old(app.Log()), old(clock), app.Log(), clock);
          return Failed, emits, true;
        }
      }
      if state != L.HeDisconnecting && state != L.HeDisconnected {
        NotifyState(L.HeDisconnecting);
        NotifyState(L.HeDisconnected);
      }
      app := null;
      return Success, emits, false;
    }

    /** A packet from the wire. */
    method OutsideData() returns (code: ReturnCode, ghost emits: seq<L.State>, ghost torn: bool, ghost panicked: bool)
      requires Valid()
      modifies this`clock, this`state, this`trace, this`coreState, this`coreCalls, this`app, app
      ensures Valid() && old(clock) <= clock
      ensures coreCalls == old(coreCalls) + if old(app) == null then 0 else 1
      ensures app == (if torn then null else old(app))
      ensures Life() == L.Step(old(Life()), L.Core(emits, torn))
      ensures code == (if old(app) == null then InvalidConnState else if torn || panicked then Failed else Success)
      ensures old(app) == null || torn ==> !panicked
      ensures old(app) != null && !torn ==> CoreRan(old(app.Log()), app.Log())
    {
      emits, torn, panicked := [], false, false;
      if app == null {
        return InvalidConnState, emits, torn, panicked;
      }
      var outcome;
      outcome, emits := RunCore();
      if outcome.Error? && outcome.fatal {
        FatalDisconnect();
        return Failed, emits, true, false;
      }
      CoreRanConserves(old(app.Log()), app.Log());
      StillOnTime(old(app.Log()), old(clock), app.Log(), clock);
      return if outcome.Panicked? then Failed else Success, emits, false, outcome.Panicked?;
    }
  }

  // ---- Any calls in any order ----

  /** The connection and its ticks between two calls. */
  datatype Moment = Gone(clock: Instant) | Live(clock: Instant, app: AppState, ticks: TickLog)

  /** Both moments are of one connection. */
  ghost predicate SameConnection(a: Moment, b: Moment) {
    a.Live? && b.Live? && a.app == b.app
  }

  /** Ticks are conserved and went out on time. */
  ghost predicate Sound(a: Moment) {
    a.Live? ==> Conserved(a.ticks) && OnTime(a.ticks, a.clock)
  }

  /** Nothing scheduled, sent or lost is forgotten; what was sent in between was
      sent in between; and a connection tick asked for stays asked for until one
      goes out. */
  ghost predicate Grew(a: Moment, b: Moment)
    requires a.Live? && b.Live?
  {
    var t, t' := a.ticks, b.ticks;
    && a.clock <= b.clock && t.scheduled <= t'.scheduled && t.lost <= t'.lost
    && t.dispatched <= t'.dispatched && (forall i | |t.dispatched| <= i < |t'.dispatched| :: a.clock <= t'.dispatched[i].at)
    && t.ticked <= t'.ticked && (forall i | |t.ticked| <= i < |t'.ticked| :: a.clock <= t'.ticked[i].at)
    && (t'.ticked == t.ticked ==> t.asked <= t'.asked)
  }

  lemma GrewTwice(a: Moment, b: Moment, c: Moment)
    requires a.Live? && b.Live? && c.Live? && Grew(a, b) && Grew(b, c)
    ensures Grew(a, c)
  {
    forall i | |a.ticks.dispatched| <= i < |c.ticks.dispatched| ensures a.clock <= c.ticks.dispatched[i].at {
      assert i < |b.ticks.dispatched| ==> c.ticks.dispatched[i] == b.ticks.dispatched[i];
    }
    forall i | |a.ticks.ticked| <= i < |c.ticks.ticked| ensures a.clock <= c.ticks.ticked[i].at {
      assert i < |b.ticks.ticked| ==> c.ticks.ticked[i] == b.ticks.ticked[i];
    }
  }

  /** A payload tick once pending has gone out since, is still pending, or was
      lost since. */
  lemma NoTickLost(a: Moment, b: Moment)
    requires a.Live? && b.Live? && Sound(a) && Sound(b) && Grew(a, b)
    ensures var t, t' := a.ticks, b.ticks;
      multiset(t.pending) <= Entries(t'.dispatched[|t.dispatched|..]) + multiset(t'.pending) + multiset(t'.lost[|t.lost|..])
  {
    var t, t' := a.ticks, b.ticks;
    var sent, lost := t'.dispatched[|t.dispatched|..], t'.lost[|t.lost|..];
    assert EntrySeq(t'.dispatched) == EntrySeq(t.dispatched) + EntrySeq(sent);
    assert Entries(t'.dispatched) == Entries(t.dispatched) + Entries(sent);
    assert t'.lost == t.lost + lost;
    forall e ensures multiset(t.pending)[e] <= (Entries(sent) + multiset(t'.pending) + multiset(lost))[e] {
      assert t.scheduled[e] <= t'.scheduled[e];
    }
  }

  /** What the ticks of a live connection go through in one call. */
  lemma CoreRanGrew(clock: Instant, clock': Instant, app: AppState, t: TickLog, t': TickLog)
    requires CoreRan(t, t') && clock <= clock'
    ensures Grew(Live(clock, app, t), Live(clock', app, t'))
  {
    assert t.scheduled <= t'.scheduled;
  }

  lemma ConnectionPartGrew(clock: Instant, at: Instant, clock': Instant, app: AppState, armed: Option<Instant>, t: TickLog, t': TickLog)
    requires ConnectionPart(armed, at, t, t') && clock <= at <= clock'
    ensures Grew(Live(clock, app, t), Live(clock', app, t')) && t'.lost == t.lost
  {
    if armed.Some? && armed.value <= at {
      CoreRanGrew(at, clock', app, TickTaken(t, armed.value, at), t');
    }
  }

  lemma PayloadPartGrew(clock: Instant, at: Instant, clock': Instant, app: AppState, done: nat, t: TickLog, t': TickLog)
    requires PayloadPart(at, done, t, t') && clock <= at <= clock'
    ensures Grew(Live(clock, app, t), Live(clock', app, t')) && t'.lost == t.lost + Due(t.pending, at)[done..]
  {
    var taken := PayloadTaken(t, at, done);
    forall i | |t.dispatched| <= i < |taken.dispatched| ensures taken.dispatched[i].at == at {
    }
    assert taken.scheduled <= t'.scheduled;
  }

  /** A nudge as one of many calls. */
  method AnyNudge(client: Client) returns (ghost call: L.Call, ghost panicked: bool)
    requires client.Valid()
    modifies client, client.app
    ensures client.Valid() && client.Life() == L.Step(old(client.Life()), call) && call.Core?
    ensures client.app == (if old(client.app) != null && call.fatal then null else old(client.app))
    ensures old(client.clock) <= client.clock
    ensures client.app != null ==> Grew(old(client.Moment()), client.Moment()) && (!panicked ==> client.app.lost == old(client.app.lost))
  {
    ghost var clock, app := client.clock, client.app;
    var code, emits, torn, panic, tickAt, seen, at := client.Nudge();
    call, panicked := L.Core(emits, torn), !panic.NoPanic?;
    if client.app != null {
      ConnectionPartGrew(clock, tickAt, tickAt, app, old(client.app.nextTick), old(client.app.Log()), seen);
      if code == Success || panic.InPayloadTick? {
        ghost var done := if code == Success then |Due(seen.pending, at)| else panic.done;
        PayloadPartGrew(tickAt, at, client.clock, app, done, seen, app.Log());
        GrewTwice(Live(clock, app, old(client.app.Log())), Live(tickAt, app, seen), client.Moment());
      } else {
        ConnectionPartGrew(clock, tickAt, client.clock, app, old(client.app.nextTick), old(client.app.Log()), seen);
      }
    }
  }

  /** One call of any kind. */
  method AnyCall(client: Client) returns (ghost call: L.Call, ghost panicked: bool)
    requires client.Valid()
    modifies client, client.app
    ensures client.Valid() && client.Life() == L.Step(old(client.Life()), call)
    ensures Follows(old(client.Moment()), call, panicked, client.Moment())
    ensures client.app != null && client.app != old(client.app) ==> fresh(client.app)
  {
    panicked := false;
    ghost var clock, app := client.clock, client.app;
    var choice: int := *;
    if choice == 0 {
      var problem: Option<ReturnCode> := *;
      var notifies: bool := *;
      var p := if problem == Some(Success) then None else problem;
      var _ := client.Connect(p, notifies);
      call := L.Connect(p.None?);
      if app != null {
        CoreRanGrew(clock, client.clock, app, app.Log(), app.Log());
      }
    } else if choice == 1 {
      var _, emits, p := client.Disconnect();
      panicked := p;
      call := if p then L.Core(emits, false) else L.Disconnect(emits);
      if p {
        CoreRanGrew(clock, client.clock, app, old(client.app.Log()), app.Log());
      }
    } else if choice == 2 {
      var _, emits, torn, p := client.OutsideData();
      call, panicked := L.Core(emits, torn), p;
      if client.app != null {
        CoreRanGrew(clock, client.clock, app, old(client.app.Log()), app.Log());
      }
    } else {
      call, panicked := AnyNudge(client);
    }
  }

  /** What a call can do to the connection: start one with nothing lost, end one
      by a goodbye or a fatal error, or let its ticks grow; only a panic of the
      core loses any. */
  ghost predicate Follows(a: Moment, call: L.Call, panicked: bool, b: Moment) {
    && a.clock <= b.clock
    && (a.Gone? && b.Live? ==> b.ticks.lost == [])
    && (a.Live? && !SameConnection(a, b) ==> b.Gone? && (call.Disconnect? || (call.Core? && call.fatal)))
    && (SameConnection(a, b) ==> Grew(a, b) && (!panicked ==> b.ticks.lost == a.ticks.lost))
  }

  /** The moments before, between and after a run of calls: each is sound, each
      follows from the one before, and over the life of a connection nothing is
      forgotten. */
  ghost predicate Kept(calls: seq<L.Call>, panics: seq<bool>, moments: seq<Moment>) {
    && |panics| == |calls| && |moments| == |calls| + 1 && moments[0].Gone?
    && (forall a <- moments :: Sound(a))
    && (forall i | 0 <= i < |calls| :: Follows(moments[i], calls[i], panics[i], moments[i + 1]))
    && (forall i, j | 0 <= i < j < |moments| && SameConnection(moments[i], moments[j]) :: Grew(moments[i], moments[j]))
    && (forall a <- moments | true !in panics :: a.Live? ==> a.ticks.lost == [])
  }

  lemma GrewExtends(moments: seq<Moment>, m: Moment)
    requires moments != [] && forall a <- moments | SameConnection(a, m) :: SameConnection(moments[|moments| - 1], m)
    requires SameConnection(moments[|moments| - 1], m) ==> Grew(moments[|moments| - 1], m)
    requires forall i, j | 0 <= i < j < |moments| && SameConnection(moments[i], moments[j]) :: Grew(moments[i], moments[j])
    ensures forall i | 0 <= i < |moments| && SameConnection(moments[i], m) :: Grew(moments[i], m)
  {
    var n := |moments| - 1;
    forall i | 0 <= i < |moments| && SameConnection(moments[i], m) ensures Grew(moments[i], m) {
      assert SameConnection(moments[n], m);
      if i < n {
        GrewTwice(moments[i], moments[n], m);
      }
    }
  }

  lemma NothingLost(calls: seq<L.Call>, panics: seq<bool>, moments: seq<Moment>, call: L.Call, panicked: bool, m: Moment)
    requires Kept(calls, panics, moments) && Follows(moments[|calls|], call, panicked, m) && true !in panics + [panicked]
    ensures true !in panics && (m.Live? ==> m.ticks.lost == [])
  {
    assert (panics + [panicked])[|panics|] == panicked;
    forall p <- panics ensures p in panics + [panicked] {
    }
  }

  lemma KeptExtends(calls: seq<L.Call>, panics: seq<bool>, moments: seq<Moment>, call: L.Call, panicked: bool, m: Moment)
    requires Kept(calls, panics, moments) && Sound(m) && Follows(moments[|calls|], call, panicked, m)
    requires forall a <- moments | SameConnection(a, m) :: SameConnection(moments[|calls|], m)
    ensures Kept(calls + [call], panics + [panicked], moments + [m])
  {
    GrewExtends(moments, m);
    if true !in panics + [panicked] {
      NothingLost(calls, panics, moments, call, panicked, m);
    }
  }

  /** Any number of calls in any order on a new client. The callbacks are those
      of a lifecycle run. */
  method AnyCalls(n: nat) returns (client: Client, ghost calls: seq<L.Call>, ghost panics: seq<bool>, ghost moments: seq<Moment>)
    ensures client.Valid() && client.Life() == L.Run(L.BORN, calls) && |calls| == n
    ensures L.Separated(client.trace) <==> L.FitsRun(L.BORN, false, calls)
    ensures Kept(calls, panics, moments) && moments[n] == client.Moment()
  {
    client := new Client();
    calls, panics, moments := [], [], [client.Moment()];
    for i := 0 to n
      invariant client.Valid() && fresh(client) && (client.app != null ==> fresh(client.app))
      invariant |calls| == i && client.Life() == L.Run(L.BORN, calls)
      invariant Kept(calls, panics, moments) && moments[i] == client.Moment()
    {
      var call, panicked := AnyCall(client);
      L.RunExtends(L.BORN, calls, call);
      KeptExtends(calls, panics, moments, call, panicked, client.Moment());
      calls, panics, moments := calls + [call], panics + [panicked], moments + [client.Moment()];
    }
    assert L.Tracks(L.BORN, false);
    L.OneDisconnectPerAttempt(L.BORN, false, calls);
  }
}
