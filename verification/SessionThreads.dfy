/**
 The session's locks and atomics under every interleaving of any number of
 threads. A thread's program counter says which locks it holds; each step is
 one atomic load, store, lock or unlock; a cipher call is any number of steps.
 */
module SessionThreads {
  import opened Word64
  import opened Aead
  import R = SessionRuns

  type Tid = nat

  datatype Call = Reserve | Stage(key: Key) | Promote | Encrypt | Install(key: Key) | Receive | Query

  datatype Pc =
    | Idle
    | StageWait(key: Key) | StageHold(key: Key) | StageDone
    | PromoteWait | PromoteHold | PromoteTaken(key: Key) | PromoteWriting(key: Key) | PromoteWritten | PromoteFlag | PromoteDone
    | EncryptWait | EncryptHold | Sealing(used: seq<Key>) | EncryptDone
    | InstallWait(key: Key) | InstallHold(key: Key) | InstallMoved(key: Key) | InstallFlag | InstallDone
    | ReceiveWait | ReceiveHold
    | QuerySelf

  datatype Shared = Shared(
    // next_self and current_self, with the locks around them
    nextLock: Option<Tid>, next: Option<Key>,
    readers: set<Tid>, writer: Option<Tid>, current: Option<Key>, selfFlag: bool,
    // the receive state behind its one lock
    rxLock: Option<Tid>, peer: Option<Key>, previous: Option<Key>, peerFlag: bool,
    counter: u64,
    // every key staged, promoted or installed, in the order of the stores
    rotations: seq<R.TxEvent>, installs: seq<Key>,
    // what the calls returned, in order
    reserved: seq<u64>, emitted: seq<seq<Key>>, answers: seq<bool>)

  datatype State = State(pc: map<Tid, Pc>, shared: Shared)

  /** What the scheduler lets a thread do next. `finish` ends a sealing; until
      then each step seals another piece. */
  datatype Move = Move(tid: Tid, call: Call, finish: bool)

  /** A thread is blocked only where it waits for a lock. */
  predicate Enabled(h: Shared, p: Pc) {
    match p
    case StageWait(_) => h.nextLock.None?
    case PromoteWait => h.nextLock.None?
    case PromoteTaken(_) => h.writer.None? && h.readers == {}
    case EncryptWait => h.writer.None?
    case InstallWait(_) => h.rxLock.None?
    case ReceiveWait => h.rxLock.None?
    case _ => true
  }

  function Begin(h: Shared, c: Call): (Shared, Pc) {
    match c
    case Reserve =>
      var n := (h.counter + 1) % TWO_64;
      (h.(counter := n, reserved := h.reserved + [n]), Idle)
    case Stage(k) => (h, if IsInvalid(k) then Idle else StageWait(k))
    case Promote => (h, PromoteWait)
    case Encrypt => (h, EncryptWait)
    case Install(k) => (h, if IsInvalid(k) then Idle else InstallWait(k))
    case Receive => (h, ReceiveWait)
    case Query => if h.peerFlag then (h, QuerySelf) else (h.(answers := h.answers + [false]), Idle)
  }

  /** One step of thread `t` from program point `p`. */
  function Act(h: Shared, t: Tid, p: Pc, m: Move): (Shared, Pc) {
    match p
    case Idle => Begin(h, m.call)
    case StageWait(k) => (h.(nextLock := Some(t)), StageHold(k))
    case StageHold(k) => (h.(next := Some(k), rotations := h.rotations + [R.Stage(k)]), StageDone)
    case StageDone => (h.(nextLock := None), Idle)
    case PromoteWait => (h.(nextLock := Some(t)), PromoteHold)
    case PromoteHold =>
      var h' := h.(next := None, rotations := h.rotations + [R.Promote]);
      if h.next.None? then (h', PromoteDone) else (h', PromoteTaken(h.next.value))
    case PromoteTaken(k) => (h.(writer := Some(t)), PromoteWriting(k))
    case PromoteWriting(k) => (h.(current := Some(k)), PromoteWritten)
    case PromoteWritten => (h.(writer := None), PromoteFlag)
    case PromoteFlag => (h.(selfFlag := true), PromoteDone)
    case PromoteDone => (h.(nextLock := None), Idle)
    case EncryptWait => (h.(readers := h.readers + {t}), EncryptHold)
    case EncryptHold =>
      if h.current.None? then (h, EncryptDone) else (h, Sealing([h.current.value]))
    case Sealing(used) =>
      if m.finish || h.current.None? then (h.(emitted := h.emitted + [used]), EncryptDone)
      else (h, Sealing(used + [h.current.value]))
    case EncryptDone => (h.(readers := h.readers - {t}), Idle)
    case InstallWait(k) => (h.(rxLock := Some(t)), InstallHold(k))
    case InstallHold(k) => (h.(previous := h.peer), InstallMoved(k))
    case InstallMoved(k) => (h.(peer := Some(k), installs := h.installs + [k]), InstallFlag)
    case InstallFlag => (h.(peerFlag := true), InstallDone)
    case InstallDone => (h.(rxLock := None), Idle)
    case ReceiveWait => (h.(rxLock := Some(t)), ReceiveHold)
    case ReceiveHold => (h.(rxLock := None), Idle)
    case QuerySelf => (h.(answers := h.answers + [h.selfFlag]), Idle)
  }

  predicate CanMove(s: State, t: Tid) {
    t in s.pc && Enabled(s.shared, s.pc[t])
  }

  function Step(s: State, m: Move): State {
    if !CanMove(s, m.tid) then s
    else
      var (h, p) := Act(s.shared, m.tid, s.pc[m.tid], m);
      State(s.pc[m.tid := p], h)
  }

  function Run(s: State, ms: seq<Move>): State
    decreases |ms|
  {
    if ms == [] then s else Run(Step(s, ms[0]), ms[1..])
  }

  /** No call in progress, no key, nothing reserved. */
  predicate Initial(s: State) {
    (forall t <- s.pc :: s.pc[t].Idle?)
    && s.shared == Shared(None, None, {}, None, None, false, None, None, None, false, 0, [], [], [], [], [])
  }

  // ---- The invariant ----

  predicate HoldsNext(p: Pc) {
    p.StageHold? || p.StageDone? || p.PromoteHold? || p.PromoteTaken? || p.PromoteWriting? || p.PromoteWritten?
    || p.PromoteFlag? || p.PromoteDone?
  }

  predicate HoldsWrite(p: Pc) {
    p.PromoteWriting? || p.PromoteWritten?
  }

  predicate HoldsRead(p: Pc) {
    p.EncryptHold? || p.Sealing? || p.EncryptDone?
  }

  predicate HoldsRx(p: Pc) {
    p.InstallHold? || p.InstallMoved? || p.InstallFlag? || p.InstallDone? || p.ReceiveHold?
  }

  /** A thread holds exactly the locks its program counter says it holds. */
  ghost predicate LocksMatch(s: State) {
    var h := s.shared;
    && (h.nextLock.Some? ==> h.nextLock.value in s.pc)
    && (h.rxLock.Some? ==> h.rxLock.value in s.pc)
    && (h.writer.Some? ==> h.writer.value in s.pc && h.readers == {})
    && h.readers <= s.pc.Keys
    && forall t <- s.pc :: PointLocks(h, t, s.pc[t])
  }

  predicate PointLocks(h: Shared, t: Tid, p: Pc) {
    PointExclusive(h, t, p) && (t in h.readers <==> HoldsRead(p))
  }

  predicate PointExclusive(h: Shared, t: Tid, p: Pc) {
    && (h.nextLock == Some(t) <==> HoldsNext(p))
    && (h.rxLock == Some(t) <==> HoldsRx(p))
    && (h.writer == Some(t) <==> HoldsWrite(p))
  }

  predicate OneKey(used: seq<Key>, k: Key) {
    used != [] && forall u <- used :: u == k
  }

  /** What each program point has established. */
  predicate PointHolds(h: Shared, p: Pc) {
    match p
    case PromoteWritten => h.current.Some?
    case PromoteFlag => h.current.Some?
    case InstallFlag => h.peer.Some?
    case QuerySelf => h.peerFlag
    case Sealing(used) => h.current.Some? && OneKey(used, h.current.value)
    case _ => true
  }

  /** Flags trail the keys they announce. */
  predicate FlagsTrail(h: Shared) {
    (h.selfFlag ==> h.current.Some?) && (h.peerFlag ==> h.peer.Some?)
  }

  /** The k-th reservation is k modulo 2^64; each packet is sealed under one
      key; after a `true` answer every answer is `true`. */
  ghost predicate TracesGood(h: Shared) {
    && h.counter == |h.reserved| % TWO_64
    && (forall i | 0 <= i < |h.reserved| :: h.reserved[i] == (i + 1) % TWO_64)
    && (forall e <- h.emitted :: exists k :: OneKey(e, k))
    && (forall i, j | 0 <= i < j < |h.answers| && h.answers[i] :: h.answers[j])
    && (true in h.answers ==> h.peerFlag && h.selfFlag)
  }

  ghost predicate Inv(s: State) {
    LocksMatch(s) && FlagsTrail(s.shared) && TracesGood(s.shared) && forall t <- s.pc :: PointHolds(s.shared, s.pc[t])
  }

  /** What a step does to the locks: one is taken only when free, and released
      only by its holder. */
  lemma ExclusiveEffects(h: Shared, t: Tid, p: Pc, m: Move)
    requires Enabled(h, p) && PointExclusive(h, t, p)
    ensures var (h', p') := Act(h, t, p, m);
      && PointExclusive(h', t, p')
      && (h'.nextLock != h.nextLock ==> h.nextLock in {None, Some(t)} && h'.nextLock in {None, Some(t)})
      && (h'.rxLock != h.rxLock ==> h.rxLock in {None, Some(t)} && h'.rxLock in {None, Some(t)})
      && (h'.writer != h.writer ==> h.writer in {None, Some(t)} && h'.writer in {None, Some(t)})
  {
  }

  lemma ReaderEffects(h: Shared, t: Tid, p: Pc, m: Move)
    requires Enabled(h, p) && (t in h.readers <==> HoldsRead(p)) && (h.writer.Some? ==> h.readers == {})
    ensures var (h', p') := Act(h, t, p, m);
      && h'.readers == (if HoldsRead(p') then h.readers + {t} else h.readers - {t})
      && (h'.writer.Some? ==> h'.readers == {})
  {
  }

  lemma StepKeepsLocks(s: State, m: Move)
    requires LocksMatch(s)
    ensures LocksMatch(Step(s, m))
  {
    if CanMove(s, m.tid) {
      var s' := Step(s, m);
      ReaderEffects(s.shared, m.tid, s.pc[m.tid], m);
      assert PointLocks(s.shared, m.tid, s.pc[m.tid]);
      ExclusiveEffects(s.shared, m.tid, s.pc[m.tid], m);
    }
  }

  /** Keys and flags only ever go from absent to present, and the send key
      changes only while nobody seals. */
  lemma KeyEffects(h: Shared, t: Tid, p: Pc, m: Move, q: Pc)
    requires PointHolds(h, p) && FlagsTrail(h) && PointHolds(h, q) && (p.PromoteWriting? ==> !q.Sealing?)
    ensures var (h', p') := Act(h, t, p, m); PointHolds(h', p') && PointHolds(h', q) && FlagsTrail(h')
  {
  }

  /** A packet leaves sealed wholly under the key that is active as it leaves. */
  lemma EmissionEffects(h: Shared, t: Tid, p: Pc, m: Move)
    requires PointHolds(h, p)
    ensures var h' := Act(h, t, p, m).0;
      h'.emitted == h.emitted
      || (h.current.Some? && exists used :: h'.emitted == h.emitted + [used] && OneKey(used, h.current.value))
  {
    match p
    case Sealing(used) => assert OneKey(used, h.current.value);
    case _ =>
  }

  /** Reservations count up, and answers follow the flags, which only rise. */
  lemma AnswerEffects(h: Shared, t: Tid, p: Pc, m: Move)
    requires PointHolds(h, p)
    ensures var h' := Act(h, t, p, m).0;
      && ((h'.counter == h.counter && h'.reserved == h.reserved)
          || (h'.counter == (h.counter + 1) % TWO_64 && h'.reserved == h.reserved + [h'.counter]))
      && (h.selfFlag ==> h'.selfFlag) && (h.peerFlag ==> h'.peerFlag)
      && (h'.answers == h.answers || h'.answers == h.answers + [h.peerFlag && h.selfFlag])
  {
  }

  lemma TraceEffects(h: Shared, t: Tid, p: Pc, m: Move)
    requires PointHolds(h, p) && TracesGood(h)
    ensures TracesGood(Act(h, t, p, m).0)
  {
    EmissionEffects(h, t, p, m);
    AnswerEffects(h, t, p, m);
  }

  lemma StepKeepsInv(s: State, m: Move)
    requires Inv(s)
    ensures Inv(Step(s, m))
  {
    StepKeepsLocks(s, m);
    if CanMove(s, m.tid) {
      var p, s' := s.pc[m.tid], Step(s, m);
      TraceEffects(s.shared, m.tid, p, m);
      KeyEffects(s.shared, m.tid, p, m, p);
      forall u <- s.pc ensures PointHolds(s'.shared, s'.pc[u]) {
        assert PointLocks(s.shared, u, s.pc[u]) && PointLocks(s.shared, m.tid, p);
        KeyEffects(s.shared, m.tid, p, m, s.pc[u]);
      }
    }
  }

  /** Every run keeps the invariant. */
  lemma {:induction false} RunKeepsInv(s: State, ms: seq<Move>)
    requires Inv(s)
    ensures Inv(Run(s, ms))
    decreases |ms|
  {
    if ms != [] {
      StepKeepsInv(s, ms[0]);
      RunKeepsInv(Step(s, ms[0]), ms[1..]);
    }
  }

  // ---- What it means for callers ----

  /** The first 2^64 reservations of any run are pairwise distinct. */
  lemma ReservationsDistinct(s: State, ms: seq<Move>, i: nat, j: nat)
    requires Initial(s)
    ensures var r := Run(s, ms).shared.reserved;
      && (i < |r| ==> r[i] == (i + 1) % TWO_64)
      && (i < j < |r| && j < TWO_64 ==> r[i] != r[j])
  {
    RunKeepsInv(s, ms);
    if i < j < |Run(s, ms).shared.reserved| && j < TWO_64 {
      WrapDistinct(i + 1, j + 1);
    }
  }

  /** The lock order never deadlocks: whenever a call is in progress, some call
      in progress can take a step. */
  lemma SomeCallCanMove(s: State, t: Tid) returns (u: Tid)
    requires Inv(s) && t in s.pc && !s.pc[t].Idle?
    ensures CanMove(s, u) && !s.pc[u].Idle?
  {
    var h := s.shared;
    u := t;
    assert PointLocks(h, t, s.pc[t]);
    if !CanMove(s, u) && (s.pc[u].StageWait? || s.pc[u].PromoteWait?) {
      u := h.nextLock.value;
      assert PointLocks(h, u, s.pc[u]);
    }
    if !CanMove(s, u) && (s.pc[u].InstallWait? || s.pc[u].ReceiveWait?) {
      u := h.rxLock.value;
      assert PointLocks(h, u, s.pc[u]);
    }
    if !CanMove(s, u) {
      if h.writer.Some? {
        u := h.writer.value;
      } else {
        u :| u in h.readers;
      }
      assert PointLocks(h, u, s.pc[u]);
    }
  }

  /** A `true` from `has_valid_keys` means both keys are there, and stay. */
  lemma {:induction false} TrueAnswerMeansKeys(s: State, ms: seq<Move>)
    requires Inv(s) && true in s.shared.answers
    ensures Run(s, ms).shared.current.Some? && Run(s, ms).shared.peer.Some?
    ensures s.shared.answers <= Run(s, ms).shared.answers
    ensures forall i | |s.shared.answers| <= i < |Run(s, ms).shared.answers| :: Run(s, ms).shared.answers[i]
    decreases |ms|
  {
    if ms != [] {
      StepKeepsInv(s, ms[0]);
      AnswersGrow(s, ms[0]);
      TrueAnswerMeansKeys(Step(s, ms[0]), ms[1..]);
    }
  }

  lemma AnswersGrow(s: State, m: Move)
    ensures s.shared.answers <= Step(s, m).shared.answers
  {
  }
}
