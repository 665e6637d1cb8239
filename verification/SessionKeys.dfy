/**
 What the interleaved key calls amount to: the key slots follow the order of the
 stores, a finished rotation raises its flag, and a call that runs alone does
 what the sequential call does.
 */
module SessionKeys {
  import opened Word64
  import opened Aead
  import R = SessionRuns
  import opened SessionThreads

  // ---- Slots and flags under every interleaving ----

  /** The program point of the thread that holds a lock, if any does. */
  function PointOf(s: State, holder: Option<Tid>): Pc {
    if holder.Some? && holder.value in s.pc then s.pc[holder.value] else Idle
  }

  /** The key that a promote has taken but not yet stored. */
  function Taken(p: Pc): Option<Key> {
    match p
    case PromoteTaken(k) => Some(k)
    case PromoteWriting(k) => Some(k)
    case _ => None
  }

  /** The send slots are those of the rotations so far, but for a key being
      moved; and a send key is announced, unless its promote is about to. */
  predicate TxSide(h: Shared, q: Pc) {
    TxSlots(R.TxRun(h.rotations), h, q)
  }

  predicate TxSlots(tx: R.Tx, h: Shared, q: Pc) {
    && tx == R.Tx(if Taken(q).Some? then Taken(q) else h.current, h.next)
    && (h.current.Some? ==> h.selfFlag || q.PromoteWritten? || q.PromoteFlag?)
  }

  /** The peer slots are the last two installs, but for one being made; and a
      peer key is announced, unless its install is about to. */
  predicate RxSide(h: Shared, q: Pc) {
    && h.peer == R.Last(h.installs)
    && h.previous == (if q.InstallMoved? then R.Last(h.installs) else R.LastButOne(h.installs))
    && (h.peer.Some? ==> h.peerFlag || q.InstallFlag?)
  }

  ghost predicate KeysInv(s: State) {
    TxSide(s.shared, PointOf(s, s.shared.nextLock)) && RxSide(s.shared, PointOf(s, s.shared.rxLock))
  }

  lemma RotationLogged(es: seq<R.TxEvent>, e: R.TxEvent)
    ensures R.TxRun(es + [e]) == R.TxStep(R.TxRun(es), e)
  {
    assert (es + [e])[..|es|] == es;
  }

  /** The rotation that the store at a program point is, if it is one. */
  function StoreAt(p: Pc): seq<R.TxEvent> {
    match p
    case StageHold(k) => [R.Stage(k)]
    case PromoteHold => [R.Promote]
    case _ => []
  }

  lemma StoresLogged(h: Shared, t: Tid, p: Pc, m: Move)
    ensures Act(h, t, p, m).0.rotations == h.rotations + StoreAt(p)
  {
  }

  lemma OwnTxSlots(tx: R.Tx, h: Shared, t: Tid, p: Pc, m: Move)
    requires HoldsNext(p) && ValidStagePoint(p) && TxSlots(tx, h, p)
    ensures var (h', p') := Act(h, t, p, m); TxSlots(if StoreAt(p) == [] then tx else R.TxStep(tx, StoreAt(p)[0]), h', p')
  {
  }

  lemma OwnTxStep(h: Shared, t: Tid, p: Pc, m: Move)
    requires HoldsNext(p) && ValidStagePoint(p) && TxSide(h, p)
    ensures var (h', p') := Act(h, t, p, m); TxSide(h', p')
  {
    StoresLogged(h, t, p, m);
    OwnTxSlots(R.TxRun(h.rotations), h, t, p, m);
    if StoreAt(p) == [] {
      assert h.rotations + StoreAt(p) == h.rotations;
    } else {
      RotationLogged(h.rotations, StoreAt(p)[0]);
    }
  }

  /** Only keys that are not the all-zero one get past the entry check. */
  predicate ValidStagePoint(p: Pc) {
    (p.StageWait? || p.StageHold? ==> !IsInvalid(p.key))
  }

  lemma OtherTxStep(h: Shared, t: Tid, p: Pc, m: Move)
    requires !HoldsNext(p)
    ensures var (h', p') := Act(h, t, p, m);
      && h'.rotations == h.rotations && h'.current == h.current && h'.next == h.next && h'.selfFlag == h.selfFlag
      && (if HoldsNext(p') then h'.nextLock == Some(t) && (p'.StageHold? || p'.PromoteHold?) else h'.nextLock == h.nextLock)
  {
  }

  lemma OwnRxStep(h: Shared, t: Tid, p: Pc, m: Move)
    requires HoldsRx(p) && RxSide(h, p)
    ensures var (h', p') := Act(h, t, p, m); RxSide(h', p')
  {
    match p
    case InstallMoved(k) => R.LastOfAppended(h.installs, k);
    case _ =>
  }

  lemma OtherRxStep(h: Shared, t: Tid, p: Pc, m: Move)
    requires !HoldsRx(p)
    ensures var (h', p') := Act(h, t, p, m);
      && h'.installs == h.installs && h'.peer == h.peer && h'.previous == h.previous && h'.peerFlag == h.peerFlag
      && (if HoldsRx(p') then h'.rxLock == Some(t) && (p'.InstallHold? || p'.ReceiveHold?) else h'.rxLock == h.rxLock)
  {
  }

  ghost predicate ValidPoints(s: State) {
    forall t <- s.pc :: ValidStagePoint(s.pc[t])
  }

  lemma PointStaysValid(h: Shared, t: Tid, p: Pc, m: Move)
    requires ValidStagePoint(p)
    ensures ValidStagePoint(Act(h, t, p, m).1)
  {
  }

  lemma StepKeepsTxSide(s: State, m: Move)
    requires Inv(s) && ValidPoints(s) && TxSide(s.shared, PointOf(s, s.shared.nextLock)) && CanMove(s, m.tid)
    ensures TxSide(Step(s, m).shared, PointOf(Step(s, m), Step(s, m).shared.nextLock))
  {
    var h, t := s.shared, m.tid;
    var p := s.pc[t];
    assert PointLocks(h, t, p);
    ExclusiveEffects(h, t, p, m);
    if HoldsNext(p) {
      OwnTxStep(h, t, p, m);
    } else {
      OtherTxStep(h, t, p, m);
    }
  }

  lemma StepKeepsRxSide(s: State, m: Move)
    requires Inv(s) && RxSide(s.shared, PointOf(s, s.shared.rxLock)) && CanMove(s, m.tid)
    ensures RxSide(Step(s, m).shared, PointOf(Step(s, m), Step(s, m).shared.rxLock))
  {
    var h, t := s.shared, m.tid;
    var p := s.pc[t];
    assert PointLocks(h, t, p);
    ExclusiveEffects(h, t, p, m);
    if HoldsRx(p) {
      OwnRxStep(h, t, p, m);
    } else {
      OtherRxStep(h, t, p, m);
    }
  }

  lemma StepKeepsKeys(s: State, m: Move)
    requires Inv(s) && ValidPoints(s) && KeysInv(s)
    ensures KeysInv(Step(s, m)) && ValidPoints(Step(s, m))
  {
    if CanMove(s, m.tid) {
      StepKeepsTxSide(s, m);
      StepKeepsRxSide(s, m);
      PointStaysValid(s.shared, m.tid, s.pc[m.tid], m);
    }
  }

  /** In every run from the start the slots follow the stores, and flags lag
      behind keys only inside the rotation that is about to raise them. */
  lemma {:induction false} RunKeepsKeys(s: State, ms: seq<Move>)
    requires Inv(s) && ValidPoints(s) && KeysInv(s)
    ensures Inv(Run(s, ms)) && ValidPoints(Run(s, ms)) && KeysInv(Run(s, ms))
    decreases |ms|
  {
    if ms != [] {
      StepKeepsInv(s, ms[0]);
      StepKeepsKeys(s, ms[0]);
      RunKeepsKeys(Step(s, ms[0]), ms[1..]);
    }
  }

  lemma InitialKeys(s: State)
    requires Initial(s)
    ensures Inv(s) && ValidPoints(s) && KeysInv(s)
  {
  }

  /** A promote that has taken its key, or an install that has begun to move
      keys, and that has not raised its flag yet. */
  predicate Rotating(p: Pc) {
    p.PromoteTaken? || p.PromoteWriting? || p.PromoteWritten? || p.PromoteFlag? || p.InstallMoved? || p.InstallFlag?
  }

  /** With no rotation in progress, the slots are exactly those of all rotations
      and installs so far, the flags say exactly which keys are there, and a
      query answers exactly that. */
  lemma QuietAnswers(s: State, ms: seq<Move>)
    requires Initial(s) && forall t <- Run(s, ms).pc :: !Rotating(Run(s, ms).pc[t])
    ensures var h := Run(s, ms).shared;
      && R.Tx(h.current, h.next) == R.TxRun(h.rotations)
      && h.peer == R.Last(h.installs) && h.previous == R.LastButOne(h.installs)
      && (h.selfFlag <==> h.current.Some?) && (h.peerFlag <==> h.peer.Some?)
      && Sequential(h, Query).answers == h.answers + [h.peer.Some? && h.current.Some?]
  {
    InitialKeys(s);
    RunKeepsKeys(s, ms);
    var r := Run(s, ms);
    assert !Rotating(PointOf(r, r.shared.nextLock)) && !Rotating(PointOf(r, r.shared.rxLock));
  }

  // ---- A call alone ----

  /** What the sequential call does. */
  function Sequential(h: Shared, c: Call): Shared {
    match c
    case Reserve =>
      var n := (h.counter + 1) % TWO_64;
      h.(counter := n, reserved := h.reserved + [n])
    case Stage(k) => if IsInvalid(k) then h else Rotated(h, R.Stage(k))
    case Promote => Rotated(h, R.Promote).(selfFlag := h.selfFlag || h.next.Some?)
    case Encrypt => if h.current.None? then h else h.(emitted := h.emitted + [[h.current.value]])
    case Install(k) =>
      if IsInvalid(k) then h
      else h.(previous := h.peer, peer := Some(k), peerFlag := true, installs := h.installs + [k])
    case Receive => h
    case Query => h.(answers := h.answers + [h.peerFlag && h.selfFlag])
  }

  function Rotated(h: Shared, e: R.TxEvent): Shared {
    var tx := R.TxStep(R.Tx(h.current, h.next), e);
    h.(current := tx.current, next := tx.next, rotations := h.rotations + [e])
  }

  /** Thread `t` takes `n` steps from `p`, and nobody else moves. */
  function Alone(h: Shared, t: Tid, p: Pc, m: Move, n: nat): (Shared, Pc)
    decreases n
  {
    if n == 0 || !Enabled(h, p) then (h, p)
    else
      var (h', p') := Act(h, t, p, m);
      Alone(h', t, p', m, n - 1)
  }

  /** How many steps a call takes alone. */
  function Length(h: Shared, c: Call): nat {
    match c
    case Reserve => 1
    case Stage(k) => if IsInvalid(k) then 1 else 4
    case Promote => if h.next.None? then 4 else 8
    case Encrypt => if h.current.None? then 4 else 5
    case Install(k) => if IsInvalid(k) then 1 else 6
    case Receive => 3
    case Query => if h.peerFlag then 2 else 1
  }

  predicate AllFree(h: Shared) {
    h.nextLock.None? && h.readers == {} && h.writer.None? && h.rxLock.None?
  }

  lemma AloneSteps(h: Shared, t: Tid, p: Pc, m: Move, n: nat)
    requires n > 0 && Enabled(h, p)
    ensures var (h', p') := Act(h, t, p, m); Alone(h, t, p, m, n) == Alone(h', t, p', m, n - 1)
  {
  }

  lemma SoloStage(h: Shared, t: Tid, k: Key)
    requires AllFree(h) && !IsInvalid(k)
    ensures Alone(h, t, Idle, Move(t, Stage(k), true), 4) == (Sequential(h, Stage(k)), Idle)
  {
    var m := Move(t, Stage(k), true);
    var locked := h.(nextLock := Some(t));
    var stored := locked.(next := Some(k), rotations := h.rotations + [R.Stage(k)]);
    AloneSteps(h, t, Idle, m, 4);
    AloneSteps(h, t, StageWait(k), m, 3);
    AloneSteps(locked, t, StageHold(k), m, 2);
    AloneSteps(stored, t, StageDone, m, 1);
    assert stored.(nextLock := None) == Sequential(h, Stage(k));
  }

  lemma SoloPromote(h: Shared, t: Tid)
    requires AllFree(h)
    ensures Alone(h, t, Idle, Move(t, Promote, true), Length(h, Promote)) == (Sequential(h, Promote), Idle)
  {
    var m := Move(t, Promote, true);
    var n := Length(h, Promote);
    var locked := h.(nextLock := Some(t));
    var taken := locked.(next := None, rotations := h.rotations + [R.Promote]);
    AloneSteps(h, t, Idle, m, n);
    AloneSteps(h, t, PromoteWait, m, n - 1);
    AloneSteps(locked, t, PromoteHold, m, n - 2);
    if h.next.None? {
      AloneSteps(taken, t, PromoteDone, m, 1);
      assert taken.(nextLock := None) == Sequential(h, Promote);
    } else {
      SoloStore(taken, t, h.next.value, m);
      assert taken.(current := h.next, selfFlag := true, nextLock := None) == Sequential(h, Promote);
    }
  }

  lemma SoloStore(taken: Shared, t: Tid, k: Key, m: Move)
    requires taken.readers == {} && taken.writer.None? && taken.nextLock == Some(t)
    ensures Alone(taken, t, PromoteTaken(k), m, 5) == (taken.(current := Some(k), selfFlag := true, nextLock := None), Idle)
  {
    var writing := taken.(writer := Some(t));
    var written := writing.(current := Some(k));
    var released := taken.(current := Some(k));
    assert written.(writer := None) == released;
    AloneSteps(taken, t, PromoteTaken(k), m, 5);
    AloneSteps(writing, t, PromoteWriting(k), m, 4);
    AloneSteps(written, t, PromoteWritten, m, 3);
    AloneSteps(released, t, PromoteFlag, m, 2);
    AloneSteps(released.(selfFlag := true), t, PromoteDone, m, 1);
  }

  lemma SoloInstall(h: Shared, t: Tid, k: Key)
    requires AllFree(h) && !IsInvalid(k)
    ensures Alone(h, t, Idle, Move(t, Install(k), true), 6) == (Sequential(h, Install(k)), Idle)
  {
    var m := Move(t, Install(k), true);
    var locked := h.(rxLock := Some(t));
    var moved := locked.(previous := h.peer);
    var stored := moved.(peer := Some(k), installs := h.installs + [k]);
    AloneSteps(h, t, Idle, m, 6);
    AloneSteps(h, t, InstallWait(k), m, 5);
    AloneSteps(locked, t, InstallHold(k), m, 4);
    AloneSteps(moved, t, InstallMoved(k), m, 3);
    SoloRaise(stored, t, m);
    assert stored.(peerFlag := true, rxLock := None) == Sequential(h, Install(k));
  }

  lemma SoloRaise(stored: Shared, t: Tid, m: Move)
    ensures Alone(stored, t, InstallFlag, m, 2) == (stored.(peerFlag := true, rxLock := None), Idle)
  {
    AloneSteps(stored, t, InstallFlag, m, 2);
    AloneSteps(stored.(peerFlag := true), t, InstallDone, m, 1);
  }

  lemma SoloEncrypt(h: Shared, t: Tid)
    requires AllFree(h)
    ensures Alone(h, t, Idle, Move(t, Encrypt, true), Length(h, Encrypt)) == (Sequential(h, Encrypt), Idle)
  {
    var m := Move(t, Encrypt, true);
    var n := Length(h, Encrypt);
    var reading := h.(readers := {t});
    assert h.readers + {t} == {t} && {t} - {t} == {};
    AloneSteps(h, t, Idle, m, n);
    AloneSteps(h, t, EncryptWait, m, n - 1);
    AloneSteps(reading, t, EncryptHold, m, n - 2);
    if h.current.None? {
      AloneSteps(reading, t, EncryptDone, m, 1);
      assert reading.(readers := {}) == Sequential(h, Encrypt);
    } else {
      var k := h.current.value;
      AloneSteps(reading, t, Sealing([k]), m, 2);
      AloneSteps(reading.(emitted := h.emitted + [[k]]), t, EncryptDone, m, 1);
      assert reading.(emitted := h.emitted + [[k]], readers := {}) == Sequential(h, Encrypt);
    }
  }

  lemma SoloReceive(h: Shared, t: Tid)
    requires AllFree(h)
    ensures Alone(h, t, Idle, Move(t, Receive, true), 3) == (h, Idle)
  {
    var m := Move(t, Receive, true);
    var locked := h.(rxLock := Some(t));
    AloneSteps(h, t, Idle, m, 3);
    AloneSteps(h, t, ReceiveWait, m, 2);
    AloneSteps(locked, t, ReceiveHold, m, 1);
    assert locked.(rxLock := None) == h;
  }

  lemma SoloQuery(h: Shared, t: Tid)
    ensures Alone(h, t, Idle, Move(t, Query, true), Length(h, Query)) == (Sequential(h, Query), Idle)
  {
    var m := Move(t, Query, true);
    AloneSteps(h, t, Idle, m, Length(h, Query));
    if h.peerFlag {
      AloneSteps(h, t, QuerySelf, m, 1);
    }
  }

  /** A call that finds every lock free and runs alone does what the sequential
      call does. */
  lemma SoloCall(h: Shared, t: Tid, c: Call)
    requires AllFree(h)
    ensures Alone(h, t, Idle, Move(t, c, true), Length(h, c)) == (Sequential(h, c), Idle)
  {
    match c
    case Reserve => AloneSteps(h, t, Idle, Move(t, c, true), 1);
    case Stage(k) => if IsInvalid(k) { AloneSteps(h, t, Idle, Move(t, c, true), 1); } else { SoloStage(h, t, k); }
    case Promote => SoloPromote(h, t);
    case Encrypt => SoloEncrypt(h, t);
    case Install(k) => if IsInvalid(k) { AloneSteps(h, t, Idle, Move(t, c, true), 1); } else { SoloInstall(h, t, k); }
    case Receive => SoloReceive(h, t);
    case Query => SoloQuery(h, t);
  }

  /** Steps taken alone are steps of a run. */
  lemma {:induction false} AloneIsRun(s: State, m: Move, n: nat)
    requires m.tid in s.pc
    ensures var (h, p) := Alone(s.shared, m.tid, s.pc[m.tid], m, n);
      Run(s, seq(n, _ => m)) == State(s.pc[m.tid := p], h)
    decreases n
  {
    var ms := seq(n, _ => m);
    if n == 0 {
      assert s.pc[m.tid := s.pc[m.tid]] == s.pc;
    } else {
      assert ms[0] == m && ms[1..] == seq(n - 1, _ => m);
      var s' := Step(s, m);
      AloneIsRun(s', m, n - 1);
      if CanMove(s, m.tid) {
        AloneSteps(s.shared, m.tid, s.pc[m.tid], m, n);
        var p := Alone(s'.shared, m.tid, s'.pc[m.tid], m, n - 1).1;
        assert s'.pc[m.tid := p] == s.pc[m.tid := p];
      }
    }
  }

  // ---- Who waits for whom ----

  /** A thread at `p` waits for one at `q`. Encryptors wait for a promote that
      writes, never for one another. */
  predicate WaitsFor(p: Pc, q: Pc) {
    || ((p.StageWait? || p.PromoteWait?) && HoldsNext(q))
    || (p.PromoteTaken? && (HoldsRead(q) || HoldsWrite(q)))
    || (p.EncryptWait? && HoldsWrite(q))
    || ((p.InstallWait? || p.ReceiveWait?) && HoldsRx(q))
  }

  /** A call cannot move exactly when it waits for a call of another thread. */
  lemma BlockedExactly(s: State, t: Tid)
    requires Inv(s) && t in s.pc
    ensures !CanMove(s, t) <==> exists u <- s.pc :: WaitsFor(s.pc[t], s.pc[u])
  {
    var h, p := s.shared, s.pc[t];
    forall u <- s.pc ensures PointLocks(h, u, s.pc[u]) {
    }
    if !CanMove(s, t) {
      var u := Blocker(h, p);
      assert u in s.pc && PointLocks(h, u, s.pc[u]);
      assert WaitsFor(p, s.pc[u]);
    }
  }

  /** Somebody who holds what `p` waits for. */
  ghost function Blocker(h: Shared, p: Pc): Tid
    requires !Enabled(h, p)
  {
    match p
    case StageWait(_) => h.nextLock.value
    case PromoteWait => h.nextLock.value
    case PromoteTaken(_) => if h.writer.Some? then h.writer.value else var u :| u in h.readers; u
    case EncryptWait => h.writer.value
    case _ => if h.rxLock.Some? then h.rxLock.value else 0
  }
}
