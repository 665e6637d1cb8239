/**
 The connection lifecycle as the C side sees it: whether a connection is live,
 the cached state, and the trace of state-change callbacks.
 */
module Lifecycle {

  /** States of the core. */
  datatype State = Connecting | LinkUp | Authenticating | Online | Disconnecting | Disconnected

  /** States of the C interface. */
  datatype CState =
    | HeNone | HeDisconnected | HeConnecting | HeDisconnecting | HeAuthenticating | HeLinkUp | HeConfiguring | HeOnline

  function StateToC(s: State): CState {
    match s
    case Connecting => HeConnecting
    case LinkUp => HeLinkUp
    case Authenticating => HeAuthenticating
    case Online => HeOnline
    case Disconnecting => HeDisconnecting
    case Disconnected => HeDisconnected
  }

  /** The number of a state in the C interface, */
  function Number(s: CState): nat {
    match s
    case HeNone => 0
    case HeDisconnected => 1
    case HeConnecting => 2
    case HeDisconnecting => 3
    case HeAuthenticating => 4
    case HeLinkUp => 5
    case HeConfiguring => 6
    case HeOnline => 7
  }

  /** and in the core, which was chosen to match. */
  function CoreNumber(s: State): nat {
    match s
    case Disconnected => 1
    case Connecting => 2
    case Disconnecting => 3
    case Authenticating => 4
    case LinkUp => 5
    case Online => 7
  }

  /** The mapping is the numeric one: no two core states are confused. */
  lemma StateToCIsNumeric(s: State, t: State)
    ensures Number(StateToC(s)) == CoreNumber(s)
    ensures StateToC(s) == StateToC(t) <==> s == t
  {
  }

  datatype Life = Life(live: bool, state: CState, trace: seq<CState>)

  const BORN: Life := Life(false, HeNone, [])

  /** Cache a state and call back with it. */
  function Notify(l: Life, s: CState): Life {
    l.(state := s, trace := l.trace + [s])
  }

  /** The events the core fires during one call, in order. */
  function Emit(l: Life, emits: seq<State>): Life
    decreases |emits|
  {
    if emits == [] then l else Emit(Notify(l, StateToC(emits[0])), emits[1..])
  }

  lemma {:induction false} EmitConcat(l: Life, a: seq<State>, b: seq<State>)
    ensures Emit(l, a + b) == Emit(Emit(l, a), b)
    decreases |a|
  {
    if a == [] {
      assert a + b == b;
    } else {
      assert (a + b)[1..] == a[1..] + b;
      EmitConcat(Notify(l, StateToC(a[0])), a[1..], b);
    }
  }

  /** A call from C. `Core` is any call that hands control to the core: data
      in either direction, or a nudge. */
  datatype Call = Connect(built: bool) | Disconnect(emits: seq<State>) | Core(emits: seq<State>, fatal: bool)

  function FatalDisconnect(l: Life): Life {
    if l.state == HeDisconnected then l.(live := false)
    else Notify(l, HeDisconnected).(live := false)
  }

  function GracefulDisconnect(l: Life): Life {
    if l.state == HeDisconnecting || l.state == HeDisconnected then l.(live := false)
    else Notify(Notify(l, HeDisconnecting), HeDisconnected).(live := false)
  }

  function Step(l: Life, c: Call): Life {
    match c
    case Connect(built) =>
      if l.live || !built then l
      else if l.state == HeConnecting then l.(live := true)
      else Notify(l, HeConnecting).(live := true)
    case Disconnect(emits) => GracefulDisconnect(if l.live then Emit(l, emits) else l)
    case Core(emits, fatal) =>
      if !l.live then l
      else if fatal then FatalDisconnect(Emit(l, emits))
      else Emit(l, emits)
  }

  function Run(l: Life, cs: seq<Call>): Life
    decreases |cs|
  {
    if cs == [] then l else Run(Step(l, cs[0]), cs[1..])
  }

  lemma {:induction false} RunExtends(l: Life, cs: seq<Call>, c: Call)
    ensures Run(l, cs + [c]) == Step(Run(l, cs), c)
    decreases |cs|
  {
    if cs != [] {
      assert (cs + [c])[1..] == cs[1..] + [c];
      RunExtends(Step(l, cs[0]), cs[1..], c);
    } else {
      assert (cs + [c])[1..] == [];
    }
  }

  /** Between two DISCONNECTED callbacks there is a CONNECTING one. */
  ghost predicate Separated(trace: seq<CState>) {
    forall i, j | 0 <= i < j < |trace| && trace[i] == HeDisconnected && trace[j] == HeDisconnected ::
      exists k | i < k < j :: trace[k] == HeConnecting
  }

  /** No CONNECTING since the DISCONNECTED at `i`. */
  ghost predicate OpenAt(trace: seq<CState>, i: nat) {
    i < |trace| && trace[i] == HeDisconnected && forall k | i < k < |trace| :: trace[k] != HeConnecting
  }

  /** The trace so far is in order, and `open` says whether it has a
      DISCONNECTED with no CONNECTING since. */
  ghost predicate Tracks(l: Life, open: bool) {
    && l.state == (if l.trace == [] then HeNone else l.trace[|l.trace| - 1])
    && Separated(l.trace)
    && (open <==> exists i: nat :: OpenAt(l.trace, i))
  }

  // ---- What the core may report ----

  /** How one callback changes whether DISCONNECTED stands reported. */
  function OpenAfter(open: bool, s: CState): bool {
    s == HeDisconnected || (open && s != HeConnecting)
  }

  /** Whether Disconnected stands reported after these events. */
  function OpenAfterAll(open: bool, emits: seq<State>): bool
    decreases |emits|
  {
    if emits == [] then open else OpenAfterAll(OpenAfter(open, StateToC(emits[0])), emits[1..])
  }

  /** No second Disconnected without a Connecting between. */
  predicate Quiet(open: bool, emits: seq<State>)
    decreases |emits|
  {
    emits == [] || (!(open && emits[0].Disconnected?) && Quiet(OpenAfter(open, StateToC(emits[0])), emits[1..]))
  }

  /** Where the core leaves a call: its end, or the start of its teardown. */
  function Reported(l: Life, c: Call): Life {
    if c.Connect? || !l.live then l else Emit(l, c.emits)
  }

  /** A teardown that would report DISCONNECTED itself. */
  predicate TearsDownUnreported(l: Life, c: Call) {
    match c
    case Connect(_) => false
    case Disconnect(_) => Reported(l, c).state != HeDisconnecting && Reported(l, c).state != HeDisconnected
    case Core(_, fatal) => l.live && fatal && Reported(l, c).state != HeDisconnected
  }

  /** Whether Disconnected stands reported when the teardown of a call starts. */
  function StandsReported(l: Life, open: bool, c: Call): bool {
    if c.Connect? || !l.live then open else OpenAfterAll(open, c.emits)
  }

  /** The core repeats no Disconnected in this call, and if the call tears the
      connection down with Disconnected standing reported, the cached state
      still shows it. */
  predicate Fits(l: Life, open: bool, c: Call) {
    && (c.Connect? || !l.live || Quiet(open, c.emits))
    && !(StandsReported(l, open, c) && TearsDownUnreported(l, c))
  }

  function OpenAfterCall(l: Life, open: bool, c: Call): bool {
    if c.Connect? then open && Step(l, c) == l
    else StandsReported(l, open, c) || TearsDownUnreported(l, c)
  }

  predicate FitsRun(l: Life, open: bool, cs: seq<Call>)
    decreases |cs|
  {
    cs == [] || (Fits(l, open, cs[0]) && FitsRun(Step(l, cs[0]), OpenAfterCall(l, open, cs[0]), cs[1..]))
  }

  // ---- One callback ----

  /** One callback keeps the trace in order unless it is a second
      DISCONNECTED, and then it breaks it. */
  lemma NotifyTracks(l: Life, open: bool, s: CState)
    requires Tracks(l, open)
    ensures if s == HeDisconnected && open then !Separated(Notify(l, s).trace)
            else Tracks(Notify(l, s), OpenAfter(open, s))
  {
    var t, t' := l.trace, l.trace + [s];
    forall i: nat ensures OpenAt(t', i) <==> if i == |t| then s == HeDisconnected else OpenAt(t, i) && s != HeConnecting {
      OpenAtExtends(t, s, i);
    }
    if s == HeDisconnected && open {
      var i: nat :| OpenAt(t, i);
      assert OpenAt(t', i) && t'[|t|] == HeDisconnected;
    } else {
      SeparatedExtends(t, s);
      if s == HeDisconnected {
        assert OpenAt(t', |t|);
      } else if open && s != HeConnecting {
        var i: nat :| OpenAt(t, i);
        assert OpenAt(t', i);
      }
    }
  }

  lemma OpenAtExtends(t: seq<CState>, s: CState, i: nat)
    ensures OpenAt(t + [s], i) <==> if i == |t| then s == HeDisconnected else OpenAt(t, i) && s != HeConnecting
  {
    if i < |t| {
      assert (t + [s])[|t|] == s;
      assert forall k | i < k < |t| :: (t + [s])[k] == t[k];
    }
  }

  lemma SeparatedExtends(t: seq<CState>, s: CState)
    requires Separated(t) && (s == HeDisconnected ==> forall i: nat :: !OpenAt(t, i))
    ensures Separated(t + [s])
  {
    var t' := t + [s];
    forall i, j | 0 <= i < j < |t'| && t'[i] == HeDisconnected && t'[j] == HeDisconnected
      ensures exists k | i < k < j :: t'[k] == HeConnecting
    {
      assert j == |t| ==> !OpenAt(t, i);
      var k :| i < k < j && t[k] == HeConnecting;
      assert t'[k] == HeConnecting;
    }
  }

  /** A trace once out of order stays so. */
  lemma StaysUnseparated(t: seq<CState>, t': seq<CState>)
    requires t <= t' && !Separated(t)
    ensures !Separated(t')
  {
    var i, j :| 0 <= i < j < |t| && t[i] == HeDisconnected && t[j] == HeDisconnected
                && !exists k | i < k < j :: t[k] == HeConnecting;
    assert t'[i] == HeDisconnected && t'[j] == HeDisconnected;
    assert forall k | i < k < j :: t'[k] == t[k];
  }

  // ---- One call ----

  lemma {:induction false} EmitExtends(l: Life, emits: seq<State>)
    ensures l.trace <= Emit(l, emits).trace && Emit(l, emits).live == l.live
    decreases |emits|
  {
    if emits != [] {
      EmitExtends(Notify(l, StateToC(emits[0])), emits[1..]);
    }
  }

  lemma StepExtends(l: Life, c: Call)
    ensures l.trace <= Step(l, c).trace
  {
    if !c.Connect? {
      EmitExtends(l, c.emits);
    }
  }

  lemma {:induction false} RunExtendsTrace(l: Life, cs: seq<Call>)
    ensures l.trace <= Run(l, cs).trace
    decreases |cs|
  {
    if cs != [] {
      StepExtends(l, cs[0]);
      RunExtendsTrace(Step(l, cs[0]), cs[1..]);
    }
  }

  lemma {:induction false} EmitIsExact(l: Life, open: bool, emits: seq<State>)
    requires Tracks(l, open)
    ensures if Quiet(open, emits) then Tracks(Emit(l, emits), OpenAfterAll(open, emits))
            else !Separated(Emit(l, emits).trace)
    decreases |emits|
  {
    if emits != [] {
      var m := Notify(l, StateToC(emits[0]));
      NotifyTracks(l, open, StateToC(emits[0]));
      if open && emits[0].Disconnected? {
        EmitExtends(m, emits[1..]);
        StaysUnseparated(m.trace, Emit(m, emits[1..]).trace);
      } else {
        EmitIsExact(m, OpenAfter(open, StateToC(emits[0])), emits[1..]);
      }
    }
  }

  /** A DISCONNECTED that is the cached state stands reported. */
  lemma ShownIsOpen(l: Life, open: bool)
    requires Tracks(l, open) && l.state == HeDisconnected
    ensures open
  {
    assert OpenAt(l.trace, |l.trace| - 1);
  }

  /** A fatal error leaves no connection and C told by DISCONNECTED. It adds a
      second one exactly when one stands reported that the cached state no
      longer shows. */
  lemma FatalIsExact(l: Life, open: bool)
    requires Tracks(l, open)
    ensures !FatalDisconnect(l).live && FatalDisconnect(l).state == HeDisconnected
    ensures if open && l.state != HeDisconnected then !Separated(FatalDisconnect(l).trace)
            else Tracks(FatalDisconnect(l), true)
  {
    if l.state == HeDisconnected {
      ShownIsOpen(l, open);
    } else {
      NotifyTracks(l, open, HeDisconnected);
    }
  }

  /** A goodbye leaves no connection and C told, by the core's own reports or
      by DISCONNECTING and DISCONNECTED, and repeats DISCONNECTED exactly when
      one stands reported and the cached state shows neither. */
  lemma GoodbyeIsExact(l: Life, open: bool)
    requires Tracks(l, open)
    ensures !GracefulDisconnect(l).live && GracefulDisconnect(l).state in {HeDisconnecting, HeDisconnected}
    ensures var told := l.state == HeDisconnecting || l.state == HeDisconnected;
      && GracefulDisconnect(l).trace == l.trace + (if told then [] else [HeDisconnecting, HeDisconnected])
      && if open && !told then !Separated(GracefulDisconnect(l).trace) else Tracks(GracefulDisconnect(l), open || !told)
  {
    if l.state != HeDisconnecting && l.state != HeDisconnected {
      var m := Notify(l, HeDisconnecting);
      NotifyTracks(l, open, HeDisconnecting);
      NotifyTracks(m, open, HeDisconnected);
      assert l.trace + [HeDisconnecting] + [HeDisconnected] == l.trace + [HeDisconnecting, HeDisconnected];
    }
  }

  /** The end of a call, after the core has reported. */
  lemma EndIsExact(l: Life, open: bool, c: Call)
    requires l.live && !c.Connect? && Quiet(open, c.emits)
    requires Emit(l, c.emits).live && Tracks(Emit(l, c.emits), OpenAfterAll(open, c.emits))
    ensures if Fits(l, open, c) then Tracks(Step(l, c), OpenAfterCall(l, open, c)) else !Separated(Step(l, c).trace)
  {
    var m, o := Emit(l, c.emits), OpenAfterAll(open, c.emits);
    assert Fits(l, open, c) <==> !(o && TearsDownUnreported(l, c));
    assert OpenAfterCall(l, open, c) <==> o || TearsDownUnreported(l, c);
    if c.Disconnect? {
      assert Step(l, c) == GracefulDisconnect(m);
      GoodbyeIsExact(m, o);
    } else if c.fatal {
      assert Step(l, c) == FatalDisconnect(m);
      FatalIsExact(m, o);
      if m.state == HeDisconnected {
        ShownIsOpen(m, o);
      }
    } else {
      assert Step(l, c) == m;
    }
  }

  /** A call in which the core runs. */
  lemma CoreStepIsExact(l: Life, open: bool, c: Call)
    requires Tracks(l, open) && l.live && !c.Connect?
    ensures if Fits(l, open, c) then Tracks(Step(l, c), OpenAfterCall(l, open, c)) else !Separated(Step(l, c).trace)
  {
    EmitIsExact(l, open, c.emits);
    EmitExtends(l, c.emits);
    if Quiet(open, c.emits) {
      EndIsExact(l, open, c);
    } else {
      StaysUnseparated(Emit(l, c.emits).trace, Step(l, c).trace);
    }
  }

  /** One call keeps the trace in order exactly when it fits. */
  lemma StepIsExact(l: Life, open: bool, c: Call)
    requires Tracks(l, open)
    ensures if Fits(l, open, c) then Tracks(Step(l, c), OpenAfterCall(l, open, c)) else !Separated(Step(l, c).trace)
  {
    if c.Connect? {
      NotifyTracks(l, open, HeConnecting);
    } else if l.live {
      CoreStepIsExact(l, open, c);
    } else if c.Disconnect? {
      GoodbyeIsExact(l, open);
    }
  }

  // ---- Whole runs ----

  /** Over every run of connects, disconnects, data and nudges, the C side sees
      at most one DISCONNECTED per connection attempt if and only if every call
      fits. */
  lemma {:induction false} OneDisconnectPerAttempt(l: Life, open: bool, cs: seq<Call>)
    requires Tracks(l, open)
    ensures Separated(Run(l, cs).trace) <==> FitsRun(l, open, cs)
    decreases |cs|
  {
    if cs != [] {
      StepIsExact(l, open, cs[0]);
      if Fits(l, open, cs[0]) {
        OneDisconnectPerAttempt(Step(l, cs[0]), OpenAfterCall(l, open, cs[0]), cs[1..]);
      } else {
        RunExtendsTrace(Step(l, cs[0]), cs[1..]);
        StaysUnseparated(Step(l, cs[0]).trace, Run(l, cs).trace);
      }
    }
  }

  /** A client without a connection does not show one. */
  predicate Down(l: Life) {
    l.live || l.state == HeDisconnecting || l.state == HeDisconnected || (l.state == HeNone && l.trace == [])
  }

  lemma StepKeepsDown(l: Life, c: Call)
    requires Down(l)
    ensures Down(Step(l, c))
  {
    if !c.Connect? {
      EmitExtends(l, c.emits);
    }
  }

  /** Whatever the core reports, a dead connection is never shown as up, so the
      guard on the CONNECTING callback never suppresses it. */
  lemma {:induction false} ConnectAlwaysReports(l: Life, cs: seq<Call>)
    requires Down(l)
    ensures var r := Run(l, cs);
      && Down(r)
      && Step(r, Connect(true)) == (if r.live then r else Notify(r, HeConnecting).(live := true))
    decreases |cs|
  {
    if cs != [] {
      StepKeepsDown(l, cs[0]);
      ConnectAlwaysReports(Step(l, cs[0]), cs[1..]);
    }
  }

  // ---- What the core must keep to, not knowing what C does next ----

  /** Calls in which the core reports nothing. */
  predicate Silent(cs: seq<Call>) {
    forall c <- cs :: c.Connect? || c.emits == []
  }

  /** Whatever C does from here on, with the core silent, the trace stays in
      order. */
  ghost predicate Safe(l: Life) {
    forall cs | Silent(cs) :: Separated(Run(l, cs).trace)
  }

  /** A live connection that stands reported as disconnected shows it. */
  predicate Steady(l: Life, open: bool) {
    l.live && open ==> l.state == HeDisconnected
  }

  lemma {:induction false} SilentFits(l: Life, open: bool, cs: seq<Call>)
    requires Tracks(l, open) && Down(l) && Steady(l, open) && Silent(cs)
    ensures FitsRun(l, open, cs)
    decreases |cs|
  {
    if cs != [] {
      StepIsExact(l, open, cs[0]);
      StepKeepsDown(l, cs[0]);
      SilentStepFits(l, open, cs[0]);
      SilentFits(Step(l, cs[0]), OpenAfterCall(l, open, cs[0]), cs[1..]);
    }
  }

  lemma SilentStepFits(l: Life, open: bool, c: Call)
    requires Tracks(l, open) && Down(l) && Steady(l, open) && (c.Connect? || c.emits == [])
    ensures Fits(l, open, c) && Steady(Step(l, c), OpenAfterCall(l, open, c))
  {
    if open {
      var i: nat :| OpenAt(l.trace, i);
    }
  }

  /** Safe is exactly steady. */
  lemma SafeIsExact(l: Life, open: bool)
    requires Tracks(l, open) && Down(l)
    ensures Safe(l) <==> Steady(l, open)
  {
    if Steady(l, open) {
      forall cs | Silent(cs) ensures Separated(Run(l, cs).trace) {
        SilentFits(l, open, cs);
        OneDisconnectPerAttempt(l, open, cs);
      }
    } else {
      var cs := [Core([], true)];
      FatalIsExact(l, open);
      assert Run(l, cs) == Run(Step(l, cs[0]), []);
      assert Silent(cs) && !Separated(Run(l, cs).trace);
    }
  }

  lemma UnseparatedIsUnsafe(l: Life)
    requires !Separated(l.trace)
    ensures !Safe(l)
  {
    assert Silent([]) && Run(l, []) == l;
  }

  /** The call fits, and a connection it leaves up with Disconnected standing
      reported still shows it. */
  predicate Orderly(l: Life, open: bool, c: Call) {
    Fits(l, open, c) && Steady(Step(l, c), OpenAfterCall(l, open, c))
  }

  predicate OrderlyRun(l: Life, open: bool, cs: seq<Call>)
    decreases |cs|
  {
    cs == [] || (Orderly(l, open, cs[0]) && OrderlyRun(Step(l, cs[0]), OpenAfterCall(l, open, cs[0]), cs[1..]))
  }

  lemma OrderlyIsSafe(l: Life, open: bool, c: Call)
    requires Tracks(l, open) && Down(l)
    ensures Orderly(l, open, c) <==> Safe(Step(l, c))
  {
    StepIsExact(l, open, c);
    StepKeepsDown(l, c);
    if Fits(l, open, c) {
      SafeIsExact(Step(l, c), OpenAfterCall(l, open, c));
    } else {
      UnseparatedIsUnsafe(Step(l, c));
    }
  }

  /** The core keeps every later behaviour of C harmless, after every call of a
      run, if and only if the run is orderly. */
  lemma {:induction false} OrderlyIsExact(l: Life, open: bool, cs: seq<Call>)
    requires Tracks(l, open) && Down(l) && Steady(l, open)
    ensures OrderlyRun(l, open, cs) <==> forall n | 0 <= n <= |cs| :: Safe(Run(l, cs[..n]))
    decreases |cs|
  {
    SafeIsExact(l, open);
    assert Run(l, cs[..0]) == l;
    if cs != [] {
      var l', open' := Step(l, cs[0]), OpenAfterCall(l, open, cs[0]);
      forall n | 0 < n <= |cs| ensures Run(l, cs[..n]) == Run(l', cs[1..][..n - 1]) {
        assert cs[..n][1..] == cs[1..][..n - 1];
      }
      assert Run(l, cs[..1]) == l';
      OrderlyIsSafe(l, open, cs[0]);
      if Orderly(l, open, cs[0]) {
        StepIsExact(l, open, cs[0]);
        StepKeepsDown(l, cs[0]);
        OrderlyIsExact(l', open', cs[1..]);
        assert forall n | 0 <= n < |cs| :: Run(l, cs[..n + 1]) == Run(l', cs[1..][..n]);
      }
    }
  }

  // ---- A rule a core can keep ----

  /** Nothing is reported after Disconnected. */
  predicate Final(gone: bool, emits: seq<State>)
    decreases |emits|
  {
    emits == [] || (!gone && Final(emits[0].Disconnected?, emits[1..]))
  }

  /** Whether the core has reported Disconnected on the current connection. */
  function GoneAfterAll(gone: bool, emits: seq<State>): bool
    decreases |emits|
  {
    if emits == [] then gone else GoneAfterAll(emits[0].Disconnected?, emits[1..])
  }

  function GoneAfterCall(l: Life, gone: bool, c: Call): bool {
    if c.Connect? then gone && Step(l, c) == l
    else if l.live then GoneAfterAll(gone, c.emits)
    else gone
  }

  /** On each connection, Disconnected is the last thing the core reports. */
  predicate FinalRun(l: Life, gone: bool, cs: seq<Call>)
    decreases |cs|
  {
    cs == []
    || ((cs[0].Connect? || !l.live || Final(gone, cs[0].emits)) && FinalRun(Step(l, cs[0]), GoneAfterCall(l, gone, cs[0]), cs[1..]))
  }

  lemma {:induction false} FinalIsQuiet(l: Life, gone: bool, emits: seq<State>)
    requires Final(gone, emits) && (gone ==> l.state == HeDisconnected)
    ensures Quiet(gone, emits) && OpenAfterAll(gone, emits) == GoneAfterAll(gone, emits)
    ensures GoneAfterAll(gone, emits) ==> Emit(l, emits).state == HeDisconnected
    decreases |emits|
  {
    if emits != [] {
      FinalIsQuiet(Notify(l, StateToC(emits[0])), emits[0].Disconnected?, emits[1..]);
    }
  }

  lemma FinalStep(l: Life, open: bool, gone: bool, c: Call)
    requires Tracks(l, open) && Down(l) && (l.live ==> open == gone && (gone ==> l.state == HeDisconnected))
    requires c.Connect? || !l.live || Final(gone, c.emits)
    ensures Orderly(l, open, c)
    ensures Step(l, c).live ==>
      OpenAfterCall(l, open, c) == GoneAfterCall(l, gone, c) && (GoneAfterCall(l, gone, c) ==> Step(l, c).state == HeDisconnected)
  {
    if !c.Connect? && l.live {
      FinalIsQuiet(l, gone, c.emits);
      EmitExtends(l, c.emits);
    } else if open {
      var i: nat :| OpenAt(l.trace, i);
    }
  }

  /** A core that reports nothing after Disconnected makes every run orderly, so
      C sees at most one DISCONNECTED per attempt whatever it calls. */
  lemma {:induction false} LastWordIsOrderly(l: Life, open: bool, gone: bool, cs: seq<Call>)
    requires Tracks(l, open) && Down(l) && (l.live ==> open == gone && (gone ==> l.state == HeDisconnected))
    requires FinalRun(l, gone, cs)
    ensures OrderlyRun(l, open, cs) && Separated(Run(l, cs).trace)
    decreases |cs|
  {
    if cs != [] {
      FinalStep(l, open, gone, cs[0]);
      StepIsExact(l, open, cs[0]);
      StepKeepsDown(l, cs[0]);
      LastWordIsOrderly(Step(l, cs[0]), OpenAfterCall(l, open, cs[0]), GoneAfterCall(l, gone, cs[0]), cs[1..]);
    }
  }

  /** It is not enough that the core reports Disconnected once per connection:
      if it goes Online again and then fails, C sees a second DISCONNECTED. */
  lemma ReportingOnceIsNotEnough()
    ensures !Separated(Run(BORN, [Connect(true), Core([Disconnected, Online], false), Core([], true)]).trace)
  {
    var l1 := Step(BORN, Connect(true));
    var emits := [Disconnected, Online];
    var l2 := Step(l1, Core(emits, false));
    assert emits[1..] == [Online] && emits[1..][1..] == [];
    assert l2 == Notify(Notify(l1, HeDisconnected), HeOnline);
    var l3 := Step(l2, Core([], true));
    var cs := [Connect(true), Core(emits, false), Core([], true)];
    assert cs[1..] == [Core(emits, false), Core([], true)] && cs[1..][1..] == [Core([], true)] && cs[1..][1..][1..] == [];
    assert Run(BORN, cs) == Run(l1, cs[1..]);
    assert Run(l1, cs[1..]) == Run(l2, cs[1..][1..]);
    assert Run(l2, cs[1..][1..]) == l3;
    assert l3.trace == [HeConnecting, HeDisconnected, HeOnline, HeDisconnected];
    assert l3.trace[1] == l3.trace[3] == HeDisconnected;
  }
}
