/**
 The tick state carried by a connection: one merged slot for connection ticks,
 a list for the ticks that carry a payload, and one host timer for both.
 */
module Ticks {
  import opened Aead
  import opened Timers

  /** A tick handed to the core at time `at`. */
  datatype Dispatch = Dispatch(entry: Entry, at: Instant)

  /** The host was told to wake up `ms` milliseconds after `at`. */
  datatype Notice = Notice(at: Instant, ms: nat)

  /** The payload ticks of a dispatch log. */
  ghost function EntrySeq(log: seq<Dispatch>): seq<Entry> {
    seq(|log|, i requires 0 <= i < |log| => log[i].entry)
  }

  ghost function Entries(log: seq<Dispatch>): multiset<Entry> {
    multiset(EntrySeq(log))
  }

  /** A list of ticks all handed over at the same decision time. */
  ghost function Stamped(es: seq<Entry>, at: Instant): (log: seq<Dispatch>)
    ensures |log| == |es|
  {
    seq(|es|, i requires 0 <= i < |es| => Dispatch(es[i], at))
  }

  lemma EntriesStamped(log: seq<Dispatch>, es: seq<Entry>, at: Instant)
    ensures Entries(log + Stamped(es, at)) == Entries(log) + multiset(es)
  {
    assert EntrySeq(log + Stamped(es, at)) == EntrySeq(log) + es;
  }

  function Due(pending: seq<Entry>, now: Instant): seq<Entry> {
    if pending == [] then []
    else if now >= pending[0].deadline then [pending[0]] + Due(pending[1..], now)
    else Due(pending[1..], now)
  }

  function NotDue(pending: seq<Entry>, now: Instant): seq<Entry> {
    if pending == [] then []
    else if now >= pending[0].deadline then NotDue(pending[1..], now)
    else [pending[0]] + NotDue(pending[1..], now)
  }

  /** The partition loses nothing, invents nothing and sorts by deadline. */
  lemma {:induction false} PartitionConserves(pending: seq<Entry>, now: Instant)
    ensures multiset(Due(pending, now)) + multiset(NotDue(pending, now)) == multiset(pending)
    ensures forall e <- Due(pending, now) :: e.deadline <= now && e in pending
    ensures forall e <- NotDue(pending, now) :: now < e.deadline && e in pending
  {
    if pending != [] {
      PartitionConserves(pending[1..], now);
      assert pending == [pending[0]] + pending[1..];
    }
  }

  /** The partition keeps the order in which the ticks were scheduled. */
  lemma {:induction false} PartitionKeepsOrder(a: seq<Entry>, b: seq<Entry>, now: Instant)
    ensures Due(a + b, now) == Due(a, now) + Due(b, now)
    ensures NotDue(a + b, now) == NotDue(a, now) + NotDue(b, now)
    decreases |a|
  {
    if a == [] {
      assert a + b == b;
    } else {
      assert (a + b)[0] == a[0] && (a + b)[1..] == a[1..] + b;
      PartitionKeepsOrder(a[1..], b, now);
    }
  }

  // ---- The ticks of a connection at one moment ----

  /** `scheduled` is every payload tick ever asked for, `dispatched` those handed
      to the core, and `lost` those that a panic in the core kept from it.
      `asked` are the connection ticks asked for since the last one in
      `ticked`. */
  datatype TickLog = TickLog(
    scheduled: multiset<Entry>, dispatched: seq<Dispatch>, pending: seq<Entry>, lost: seq<Entry>,
    asked: set<Instant>, ticked: seq<Dispatch>)

  /** Every payload tick scheduled went out, is pending, or was lost. */
  ghost predicate Conserved(t: TickLog) {
    t.scheduled == Entries(t.dispatched) + multiset(t.pending) + multiset(t.lost)
  }

  /** Every tick went out no earlier than due, with its own type, and by now. */
  ghost predicate OnTime(t: TickLog, now: Instant) {
    && (forall d <- t.dispatched :: d.entry.deadline <= d.at <= now && !d.entry.tick.ConnectionTick?)
    && (forall d <- t.ticked :: d.entry.deadline <= d.at <= now && d.entry.tick.ConnectionTick?)
  }

  /** All the core can do to the ticks by running is to ask for more. */
  ghost predicate CoreRan(t: TickLog, t': TickLog) {
    && t'.dispatched == t.dispatched && t'.ticked == t.ticked && t'.lost == t.lost
    && t.asked <= t'.asked && t.pending <= t'.pending
    && t'.scheduled == t.scheduled + multiset(t'.pending[|t.pending|..])
  }

  lemma CoreRanTwice(t: TickLog, t': TickLog, t'': TickLog)
    requires CoreRan(t, t') && CoreRan(t', t'')
    ensures CoreRan(t, t'')
  {
    assert t''.pending[|t.pending|..] == t'.pending[|t.pending|..] + t''.pending[|t'.pending|..];
  }

  lemma CoreRanConserves(t: TickLog, t': TickLog)
    requires CoreRan(t, t') && Conserved(t)
    ensures Conserved(t') && t.scheduled <= t'.scheduled
  {
    assert t'.pending == t.pending + t'.pending[|t.pending|..];
  }

  /** The connection tick is taken out of its slot and handed over. */
  ghost function TickTaken(t: TickLog, deadline: Instant, at: Instant): TickLog {
    t.(asked := {}, ticked := t.ticked + [Dispatch(Entry(deadline, ConnectionTick), at)])
  }

  lemma TickTakenConserves(t: TickLog, deadline: Instant, at: Instant)
    requires Conserved(t) && OnTime(t, at) && deadline <= at
    ensures Conserved(TickTaken(t, deadline, at)) && OnTime(TickTaken(t, deadline, at), at)
  {
  }

  /** The first `done` of the due payload ticks are handed over, the others that
      were due are lost, and those that were not due stay. */
  ghost function PayloadTaken(t: TickLog, at: Instant, done: nat): TickLog
    requires done <= |Due(t.pending, at)|
  {
    t.(dispatched := t.dispatched + Stamped(Due(t.pending, at)[..done], at),
       pending := NotDue(t.pending, at),
       lost := t.lost + Due(t.pending, at)[done..])
  }

  /** One more due tick is handed over, and the core runs again. */
  lemma HandedOneMore(t: TickLog, due: seq<Entry>, at: Instant, i: nat, before: TickLog, after: TickLog)
    requires i < |due| && CoreRan(t.(dispatched := t.dispatched + Stamped(due[..i], at)), before)
    requires CoreRan(before.(dispatched := before.dispatched + [Dispatch(due[i], at)]), after)
    ensures CoreRan(t.(dispatched := t.dispatched + Stamped(due[..i + 1], at)), after)
  {
    assert Stamped(due[..i + 1], at) == Stamped(due[..i], at) + [Dispatch(due[i], at)];
    var handed := t.(dispatched := t.dispatched + Stamped(due[..i + 1], at));
    CoreRanTwice(handed, before.(dispatched := handed.dispatched), after);
  }

  /** Handing over due ticks keeps the balance, wherever it stops. */
  lemma DispatchConserves(t: TickLog, at: Instant, done: nat)
    requires Conserved(t) && done <= |Due(t.pending, at)|
    ensures Conserved(PayloadTaken(t, at, done))
  {
    var due := Due(t.pending, at);
    PartitionConserves(t.pending, at);
    EntriesStamped(t.dispatched, due[..done], at);
    assert due == due[..done] + due[done..];
  }

  lemma DispatchOnTime(t: TickLog, at: Instant, done: nat)
    requires OnTime(t, at) && done <= |Due(t.pending, at)| && forall e <- t.pending :: !e.tick.ConnectionTick?
    ensures OnTime(PayloadTaken(t, at, done), at)
  {
    var due := Due(t.pending, at);
    PartitionConserves(t.pending, at);
    forall d <- Stamped(due[..done], at) ensures d.entry.deadline <= d.at <= at && !d.entry.tick.ConnectionTick? {
      assert d.entry in due;
    }
  }

  /** Later, and after the core ran, it is still so. */
  lemma StillOnTime(t: TickLog, at: Instant, t': TickLog, now: Instant)
    requires OnTime(t, at) && CoreRan(t, t') && at <= now
    ensures OnTime(t', now)
  {
  }

  /** Both hold still once the due ticks were handed over and the core ran. */
  lemma DispatchSound(t: TickLog, at: Instant, done: nat, t': TickLog, now: Instant)
    requires Conserved(t) && OnTime(t, at) && forall e <- t.pending :: !e.tick.ConnectionTick?
    requires done <= |Due(t.pending, at)| && CoreRan(PayloadTaken(t, at, done), t') && at <= now
    ensures Conserved(t') && OnTime(t', now)
  {
    DispatchConserves(t, at, done);
    DispatchOnTime(t, at, done);
    CoreRanConserves(PayloadTaken(t, at, done), t');
    StillOnTime(PayloadTaken(t, at, done), at, t', now);
  }

  /** Unless it stops at the last due tick, stopping loses one: then the ticks
      sent and pending are no longer those scheduled. */
  lemma StoppingLosesTicks(t: TickLog, at: Instant, done: nat)
    requires Conserved(t) && t.lost == [] && done <= |Due(t.pending, at)|
    ensures var t' := PayloadTaken(t, at, done);
      t'.scheduled == Entries(t'.dispatched) + multiset(t'.pending) <==> done == |Due(t.pending, at)|
  {
    DispatchConserves(t, at, done);
    var lost := Due(t.pending, at)[done..];
    assert t.lost + lost == lost;
    if lost != [] {
      var t', e := PayloadTaken(t, at, done), lost[0];
      assert multiset(lost)[e] > 0;
      assert t'.scheduled[e] == (Entries(t'.dispatched) + multiset(t'.pending))[e] + multiset(lost)[e];
    }
  }

  // ---- The one host timer ----

  /** The tick is outstanding, or was merged into an earlier one. */
  ghost predicate Stored(next: Option<Instant>, pending: seq<Entry>, deadline: Instant, tick: TickType) {
    Outstanding(next, pending, deadline) || (tick.ConnectionTick? && next.Some? && next.value < deadline)
  }

  /** The host's timer now fires for the earliest outstanding deadline: not a
      millisecond late for any of them, and not before that one unless it is
      beyond the longest timeout, which is then what the host gets. */
  ghost predicate WakesFor(next: Option<Instant>, pending: seq<Entry>, n: Notice) {
    var earliest := EarliestDeadline(next, pending);
    && 1 <= n.ms <= I32_MAX && earliest.Some?
    && (forall t: Instant | Outstanding(next, pending, t) :: n.ms == 1 || n.at + (n.ms - 1) * MS < t)
    && if earliest.value <= n.at + I32_MAX * MS then earliest.value <= n.at + n.ms * MS else n.ms == I32_MAX
  }

  /** What the timer is set to when a tick with this deadline was stored. */
  function HostTimeout(next: Option<Instant>, pending: seq<Entry>, now: Instant, deadline: Instant): nat {
    var earliest := EarliestDeadline(next, pending);
    DeadlineToTimeoutMs(if earliest.Some? then earliest.value else deadline, now)
  }

  lemma HostTimeoutWakes(next: Option<Instant>, pending: seq<Entry>, now: Instant, deadline: Instant)
    requires EarliestDeadline(next, pending).Some?
    ensures WakesFor(next, pending, Notice(now, HostTimeout(next, pending, now, deadline)))
  {
  }

  /** The slot holds the earliest of the deadlines asked for. */
  ghost predicate IsEarliest(next: Option<Instant>, asked: set<Instant>) {
    match next
    case None => asked == {}
    case Some(t) => t in asked && forall x <- asked :: t <= x
  }

  class AppState {
    var nextTick: Option<Instant>
    var pendingTicks: seq<Entry>
    /** Whether the host registered a nudge-time callback. */
    const notifies: bool

    /** Every payload tick ever scheduled, those dispatched, and those lost to
        a panic. */
    ghost var scheduled: multiset<Entry>
    ghost var dispatched: seq<Dispatch>
    ghost var lost: seq<Entry>
    /** Deadlines of connection ticks scheduled since the last was dispatched. */
    ghost var asked: set<Instant>
    ghost var ticked: seq<Dispatch>
    ghost var notices: seq<Notice>

    ghost function Log(): TickLog
      reads `scheduled, `dispatched, `pendingTicks, `lost, `asked, `ticked
    {
      TickLog(scheduled, dispatched, pendingTicks, lost, asked, ticked)
    }

    ghost predicate Sane()
      reads `nextTick, `asked, `pendingTicks
    {
      IsEarliest(nextTick, asked) && forall e <- pendingTicks :: !e.tick.ConnectionTick?
    }

    ghost predicate Valid()
      reads this
    {
      Sane() && Conserved(Log())
    }

    constructor (notifies: bool)
      ensures Valid() && this.notifies == notifies
      ensures nextTick == None && Log() == TickLog(multiset{}, [], [], [], {}, [])
    {
      nextTick, pendingTicks := None, [];
      this.notifies := notifies;
      scheduled, dispatched, lost, asked, ticked, notices := multiset{}, [], [], {}, [], [];
    }

    /** The core asks for a tick `d` from `now`. */
    method ScheduleTick(now: Instant, d: Duration, tick: TickType)
      requires Sane()
      modifies this
      ensures Sane() && CoreRan(old(Log()), Log())
      ensures asked == old(asked) + (if tick.ConnectionTick? then {now + d} else {})
      ensures pendingTicks == old(pendingTicks) + (if tick.ConnectionTick? then [] else [Entry(now + d, tick)])
      ensures Stored(nextTick, pendingTicks, now + d, tick)
      ensures var told := Notice(now, HostTimeout(nextTick, pendingTicks, now, now + d));
        WakesFor(nextTick, pendingTicks, told) && notices == old(notices) + (if notifies then [told] else [])
    {
      StoreAndTell(now, now + d, tick);
      HostTimeoutWakes(nextTick, pendingTicks, now, now + d);
    }

    method StoreAndTell(now: Instant, deadline: Instant, tick: TickType)
      requires Sane()
      modifies this
      ensures Sane() && CoreRan(old(Log()), Log())
      ensures asked == old(asked) + (if tick.ConnectionTick? then {deadline} else {})
      ensures pendingTicks == old(pendingTicks) + (if tick.ConnectionTick? then [] else [Entry(deadline, tick)])
      ensures EarliestDeadline(nextTick, pendingTicks).Some? && Stored(nextTick, pendingTicks, deadline, tick)
      ensures notices == old(notices) + (if notifies then [Notice(now, HostTimeout(nextTick, pendingTicks, now, deadline))] else [])
    {
      Store(deadline, tick);
      if notifies {
        var timeoutMs := HostTimeout(nextTick, pendingTicks, now, deadline);
        notices := notices + [Notice(now, timeoutMs)];
      }
    }

    /** Merge a connection tick into its slot, or add a payload tick. */
    method Store(deadline: Instant, tick: TickType)
      requires Sane()
      modifies this`nextTick, this`pendingTicks, this`asked, this`scheduled
      ensures Sane() && CoreRan(old(Log()), Log())
      ensures asked == old(asked) + (if tick.ConnectionTick? then {deadline} else {})
      ensures pendingTicks == old(pendingTicks) + (if tick.ConnectionTick? then [] else [Entry(deadline, tick)])
      ensures EarliestDeadline(nextTick, pendingTicks).Some? && Stored(nextTick, pendingTicks, deadline, tick)
    {
      if tick.ConnectionTick? {
        nextTick := if nextTick.Some? && nextTick.value <= deadline then nextTick else Some(deadline);
        asked := asked + {deadline};
        assert Outstanding(nextTick, pendingTicks, nextTick.value);
      } else {
        pendingTicks := pendingTicks + [Entry(deadline, tick)];
        scheduled := scheduled + multiset{Entry(deadline, tick)};
        assert pendingTicks[|pendingTicks| - 1].deadline == deadline;
        assert Outstanding(nextTick, pendingTicks, deadline);
      }
    }

    /** The connection tick is about to be handed over: empty the slot. */
    method TakeConnectionTick()
      requires Sane()
      modifies this`nextTick, this`asked
      ensures Sane() && nextTick == None && Log() == old(Log()).(asked := {})
    {
      nextTick := None;
      asked := {};
    }
  }
}
