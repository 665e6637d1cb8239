/**
 Deadlines of the one host timer. Time is a count of nanoseconds.
 */
module Timers {
  import opened Aead

  type Instant = nat
  type Duration = d: int | 0 <= d <= DURATION_MAX

  /** 2^64 - 1 seconds and 999 999 999 nanoseconds. */
  const DURATION_MAX: nat := 0xFFFF_FFFF_FFFF_FFFF * 1_000_000_000 + 999_999_999
  const I32_MAX: nat := 0x7FFF_FFFF
  const MS: nat := 1_000_000

  /** A tick the core asked for. Only the first kind carries nothing, so only
      its deadlines can be merged. */
  datatype TickType = ConnectionTick | KeyShareTick(data: nat) | PktCodecTick(request: nat)

  /** A payload tick and when it is due. */
  datatype Entry = Entry(deadline: Instant, tick: TickType)

  function Min(a: nat, b: nat): nat {
    if a <= b then a else b
  }

  function EarliestPending(pending: seq<Entry>): (r: Option<Instant>)
    ensures r.None? <==> pending == []
    ensures r.Some? ==> exists e <- pending :: e.deadline == r.value
    ensures r.Some? ==> forall e <- pending :: r.value <= e.deadline
  {
    if pending == [] then None
    else
      var rest := EarliestPending(pending[1..]);
      Some(if rest.Some? then Min(pending[0].deadline, rest.value) else pending[0].deadline)
  }

  /** Something is outstanding at `t`. */
  ghost predicate Outstanding(next: Option<Instant>, pending: seq<Entry>, t: Instant) {
    next == Some(t) || exists e <- pending :: e.deadline == t
  }

  /** The first moment the host has to wake up for. */
  function EarliestDeadline(next: Option<Instant>, pending: seq<Entry>): (r: Option<Instant>)
    ensures r.None? <==> forall t :: !Outstanding(next, pending, t)
    ensures r.Some? ==> Outstanding(next, pending, r.value)
    ensures r.Some? ==> forall t | Outstanding(next, pending, t) :: r.value <= t
  {
    var first := EarliestPending(pending);
    assert next.Some? ==> Outstanding(next, pending, next.value);
    assert first.Some? ==> Outstanding(next, pending, first.value);
    match (next, first)
    case (Some(a), Some(b)) => Some(Min(a, b))
    case (Some(_), None) => next
    case (None, _) => first
  }

  /** Milliseconds, rounded up and capped. */
  function DurationToTimeoutMs(d: Duration): (ms: nat)
    ensures ms == 0 <==> d == 0
    ensures ms <= I32_MAX
    ensures d <= I32_MAX * MS ==> d <= ms * MS < d + MS
    ensures d > I32_MAX * MS ==> ms == I32_MAX
  {
    var padded := Min(d + 999_999, DURATION_MAX);
    Min(padded / MS, I32_MAX)
  }

  /** Timeout for an outstanding deadline: never 0, never early unless the
      deadline is beyond the longest timeout, and never a whole millisecond
      late. */
  function DeadlineToTimeoutMs(deadline: Instant, now: Instant): (ms: nat)
    ensures 1 <= ms <= I32_MAX
    ensures deadline <= now + I32_MAX * MS ==> deadline <= now + ms * MS
    ensures deadline > now + I32_MAX * MS ==> ms == I32_MAX
    ensures ms > 1 ==> now + (ms - 1) * MS < deadline
  {
    var t := DurationToTimeoutMs(if deadline <= now then 0 else Min(deadline - now, DURATION_MAX));
    if t >= 1 then t else 1
  }

  function NudgeMsUntil(deadline: Option<Instant>, now: Instant): (ms: nat)
    ensures ms == 0 <==> deadline.None?
    ensures deadline.Some? && deadline.value <= now + I32_MAX * MS ==> deadline.value <= now + ms * MS
    ensures ms > 1 ==> now + (ms - 1) * MS < deadline.value
  {
    match deadline
    case Some(t) => DeadlineToTimeoutMs(t, now)
    case None => 0
  }
}
