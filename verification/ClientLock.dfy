/**
 The client lock: a mutex that is not re-entrant, and beside it the token of
 the thread that holds it, so that a call made from inside a callback is turned
 away instead of waiting for itself. Any number of threads and clients, calls
 nested to any depth, bodies left normally or by a panic.
 */
module ClientLock {
  import opened Aead

  /** Threads are named by their token; tokens start at 1, and 0 is nobody. */
  type Tid = t: int | 1 <= t witness 1
  type Cid = nat

  /** How far a call of the locking function has come. */
  datatype Point = Checking | Waiting | Acquired | Inside | Leaving(panicking: bool)

  datatype Frame = Frame(client: Cid, at: Point)

  datatype Lock = Lock(holder: Option<Tid>, owner: nat, poisoned: bool)

  /** The innermost call is last. `refused` records who was turned away. */
  datatype State = State(locks: map<Cid, Lock>, stacks: map<Tid, seq<Frame>>, refused: seq<(Tid, Cid)>)

  /** The scheduler picks a thread. Where the thread is outside any call or in
      a body, it makes a call or leaves the body. */
  datatype Move = Move(tid: Tid, calls: Option<Cid>, panics: bool)

  function Top(stack: seq<Frame>): Frame
    requires stack != []
  {
    stack[|stack| - 1]
  }

  function Below(stack: seq<Frame>): seq<Frame>
    requires stack != []
  {
    stack[..|stack| - 1]
  }

  /** Only a thread waiting for a held mutex is blocked. */
  predicate Blocked(s: State, t: Tid) {
    t in s.stacks && s.stacks[t] != [] && Top(s.stacks[t]).at.Waiting?
    && Top(s.stacks[t]).client in s.locks && s.locks[Top(s.stacks[t]).client].holder.Some?
  }

  /** Enter the locking function, if the client exists. */
  function Call(s: State, stack: seq<Frame>, c: Cid): seq<Frame> {
    if c in s.locks then stack + [Frame(c, Checking)] else stack
  }

  /** A step of the innermost call, on the lock of its client. A call that
      finds its own thread's token is turned away. */
  function Act(lock: Lock, t: Tid, f: Frame, panics: bool): (Lock, Option<Point>) {
    match f.at
    case Checking => (lock, if lock.owner == t then None else Some(Waiting))
    case Waiting => (lock.(holder := Some(t)), Some(Acquired))
    case Acquired => (lock.(owner := t), Some(Inside))
    case Inside => (lock.(owner := 0), Some(Leaving(panics)))
    case Leaving(p) => (Lock(None, lock.owner, lock.poisoned || p), None)
  }

  /** The stack once the innermost call has moved to `p`, or is over. */
  function Moved(stack: seq<Frame>, p: Option<Point>): seq<Frame>
    requires stack != []
  {
    if p.Some? then Below(stack) + [Frame(Top(stack).client, p.value)] else Below(stack)
  }

  predicate MakesCall(stack: seq<Frame>, m: Move) {
    m.calls.Some? && (stack == [] || Top(stack).at.Inside?)
  }

  predicate InCall(s: State, t: Tid) {
    t in s.stacks && s.stacks[t] != [] && Top(s.stacks[t]).client in s.locks
  }

  function Step(s: State, m: Move): State {
    var t := m.tid;
    if t in s.stacks && MakesCall(s.stacks[t], m) then
      s.(stacks := s.stacks[t := Call(s, s.stacks[t], m.calls.value)])
    else if !InCall(s, t) || Blocked(s, t) then s
    else
      var f := Top(s.stacks[t]);
      var (lock, p) := Act(s.locks[f.client], t, f, m.panics);
      State(s.locks[f.client := lock], s.stacks[t := Moved(s.stacks[t], p)],
            if f.at.Checking? && p.None? then s.refused + [(t, f.client)] else s.refused)
  }

  function Run(s: State, ms: seq<Move>): State
    decreases |ms|
  {
    if ms == [] then s else Run(Step(s, ms[0]), ms[1..])
  }

  // ---- The invariant ----

  predicate Holding(p: Point) {
    p.Acquired? || p.Inside? || p.Leaving?
  }

  /** The thread holds `c`'s mutex. */
  predicate Holds(stack: seq<Frame>, c: Cid) {
    exists f <- stack :: f.client == c && Holding(f.at)
  }

  /** The thread is in a body on `c`. */
  predicate IsInside(stack: seq<Frame>, c: Cid) {
    Frame(c, Inside) in stack
  }

  predicate InBodies(stack: seq<Frame>) {
    forall i | 0 <= i < |stack| :: stack[i].at.Inside?
  }

  /** All calls but the innermost are in their bodies, and a call past its
      check is on a client the calls around it do not hold. */
  predicate WellNested(stack: seq<Frame>) {
    && (forall i | 0 <= i < |stack| - 1 :: stack[i].at.Inside?)
    && (forall i, j | 0 <= i < j < |stack| && !stack[j].at.Checking? :: stack[i].client != stack[j].client)
  }

  /** Mutex and token of `c` agree with what `t` is doing. */
  predicate Matches(lock: Lock, t: Tid, stack: seq<Frame>, c: Cid) {
    && (lock.holder == Some(t) <==> Holds(stack, c))
    && (lock.owner == t <==> IsInside(stack, c))
  }

  predicate LockMatches(s: State, c: Cid, t: Tid)
    requires c in s.locks && t in s.stacks
  {
    Matches(s.locks[c], t, s.stacks[t], c)
  }

  predicate StackGood(s: State, stack: seq<Frame>) {
    WellNested(stack) && forall f <- stack :: f.client in s.locks
  }

  ghost predicate Inv(s: State) {
    && (forall t <- s.stacks :: StackGood(s, s.stacks[t]))
    && (forall c <- s.locks, t <- s.stacks :: LockMatches(s, c, t))
    && (forall c <- s.locks | s.locks[c].holder.Some? :: s.locks[c].holder.value in s.stacks)
  }

  /** What one more call on the stack adds. */
  lemma Push(stack: seq<Frame>, f: Frame, c: Cid)
    ensures Holds(stack + [f], c) <==> (f.client == c && Holding(f.at)) || Holds(stack, c)
    ensures IsInside(stack + [f], c) <==> f == Frame(c, Inside) || IsInside(stack, c)
  {
    if f.client == c && Holding(f.at) {
      assert f in stack + [f];
    } else if Holds(stack, c) {
      var g :| g in stack && g.client == c && Holding(g.at);
      assert g in stack + [f];
    }
  }

  lemma PushNests(stack: seq<Frame>, f: Frame)
    ensures WellNested(stack + [f]) <==>
      WellNested(stack) && InBodies(stack) && (!f.at.Checking? ==> !IsInside(stack, f.client))
  {
    var longer := stack + [f];
    assert longer[|stack|] == f && forall i | 0 <= i < |stack| :: longer[i] == stack[i];
    if WellNested(longer) {
      assert forall i | 0 <= i < |stack| :: longer[i].at.Inside? && (!f.at.Checking? ==> longer[i].client != f.client);
    }
  }

  /** In bodies only, holding a client is being in a body on it. */
  lemma InsideHolds(stack: seq<Frame>, c: Cid)
    ensures IsInside(stack, c) ==> Holds(stack, c)
    ensures InBodies(stack) && Holds(stack, c) ==> IsInside(stack, c)
  {
  }

  /** A step keeps the lock in line with the moving thread. */
  lemma OwnEffects(lock: Lock, t: Tid, stack: seq<Frame>, panics: bool)
    requires stack != [] && WellNested(stack) && Matches(lock, t, stack, Top(stack).client)
    ensures var (lock', p) := Act(lock, t, Top(stack), panics);
      WellNested(Moved(stack, p)) && Matches(lock', t, Moved(stack, p), Top(stack).client)
  {
    var below, f := Below(stack), Top(stack);
    var p := Act(lock, t, f, panics).1;
    assert stack == below + [f];
    PushNests(below, f);
    Push(below, f, f.client);
    InsideHolds(below, f.client);
    if p.Some? {
      PushNests(below, Frame(f.client, p.value));
      Push(below, Frame(f.client, p.value), f.client);
    }
  }

  /** It keeps other locks in line with the moving thread, */
  lemma OtherLockEffects(lock: Lock, t: Tid, stack: seq<Frame>, p: Option<Point>, c: Cid)
    requires stack != [] && c != Top(stack).client && Matches(lock, t, stack, c)
    ensures Matches(lock, t, Moved(stack, p), c)
  {
    assert stack == Below(stack) + [Top(stack)];
    Push(Below(stack), Top(stack), c);
    if p.Some? {
      Push(Below(stack), Frame(Top(stack).client, p.value), c);
    }
  }

  /** and its own lock in line with other threads. */
  lemma OtherThreadEffects(lock: Lock, t: Tid, stack: seq<Frame>, panics: bool, u: Tid, other: seq<Frame>)
    requires stack != [] && t != u && (Top(stack).at.Waiting? ==> lock.holder.None?)
    requires var c := Top(stack).client; Matches(lock, t, stack, c) && Matches(lock, u, other, c)
    ensures Matches(Act(lock, t, Top(stack), panics).0, u, other, Top(stack).client)
  {
    InsideHolds(other, Top(stack).client);
  }

  lemma CallKeepsMatches(s: State, m: Move, c: Cid, u: Tid)
    requires Inv(s) && m.tid in s.stacks && MakesCall(s.stacks[m.tid], m) && c in s.locks && u in s.stacks
    ensures LockMatches(Step(s, m), c, u)
  {
    assert LockMatches(s, c, u);
    Push(s.stacks[m.tid], Frame(m.calls.value, Checking), c);
  }

  /** A new call goes on top of calls that are all in their bodies. */
  lemma PushGood(s: State, stack: seq<Frame>, c: Cid)
    requires StackGood(s, stack) && c in s.locks && (stack == [] || Top(stack).at.Inside?)
    ensures StackGood(s, stack + [Frame(c, Checking)])
  {
    assert InBodies(stack);
    PushNests(stack, Frame(c, Checking));
  }

  lemma CallKeepsStack(s: State, m: Move, u: Tid)
    requires Inv(s) && m.tid in s.stacks && MakesCall(s.stacks[m.tid], m) && u in s.stacks
    ensures StackGood(Step(s, m), Step(s, m).stacks[u])
  {
    var stack := s.stacks[u];
    assert StackGood(s, stack) && Step(s, m).locks == s.locks;
    if u == m.tid && m.calls.value in s.locks {
      PushGood(s, stack, m.calls.value);
      assert Step(s, m).stacks[u] == stack + [Frame(m.calls.value, Checking)];
    } else {
      assert Step(s, m).stacks[u] == stack;
    }
  }

  lemma CallKeepsInv(s: State, m: Move)
    requires Inv(s) && m.tid in s.stacks && MakesCall(s.stacks[m.tid], m)
    ensures Inv(Step(s, m))
  {
    var s' := Step(s, m);
    forall u <- s.stacks ensures StackGood(s', s'.stacks[u]) {
      CallKeepsStack(s, m, u);
    }
    forall c <- s.locks, u <- s.stacks ensures LockMatches(s', c, u) {
      CallKeepsMatches(s, m, c, u);
    }
  }

  lemma MoveKeepsMatches(s: State, m: Move, c: Cid, u: Tid)
    requires Inv(s) && c in s.locks && u in s.stacks
    requires InCall(s, m.tid) && !MakesCall(s.stacks[m.tid], m) && !Blocked(s, m.tid)
    ensures LockMatches(Step(s, m), c, u)
  {
    var t, stack := m.tid, s.stacks[m.tid];
    var d := Top(stack).client;
    var (lock, p) := Act(s.locks[d], t, Top(stack), m.panics);
    assert LockMatches(s, c, u) && LockMatches(s, d, t);
    if u == t && c == d {
      OwnEffects(lock := s.locks[d], t := t, stack := stack, panics := m.panics);
    } else if u == t {
      OtherLockEffects(s.locks[c], t, stack, p, c);
    } else if c == d {
      OtherThreadEffects(s.locks[d], t, stack, m.panics, u, s.stacks[u]);
    }
  }

  lemma StepKeepsInv(s: State, m: Move)
    requires Inv(s)
    ensures Inv(Step(s, m))
  {
    if m.tid in s.stacks && MakesCall(s.stacks[m.tid], m) {
      CallKeepsInv(s, m);
    } else if InCall(s, m.tid) && !Blocked(s, m.tid) {
      var s', stack := Step(s, m), s.stacks[m.tid];
      assert LockMatches(s, Top(stack).client, m.tid);
      OwnEffects(s.locks[Top(stack).client], m.tid, stack, m.panics);
      assert StackGood(s', s'.stacks[m.tid]);
      forall t <- s.stacks ensures StackGood(s', s'.stacks[t]) {
      }
      forall c <- s.locks, t <- s.stacks ensures LockMatches(s', c, t) {
        MoveKeepsMatches(s, m, c, t);
      }
    }
  }

  lemma {:induction false} RunKeepsInv(s: State, ms: seq<Move>)
    requires Inv(s)
    ensures Inv(Run(s, ms))
    decreases |ms|
  {
    if ms != [] {
      StepKeepsInv(s, ms[0]);
      RunKeepsInv(Step(s, ms[0]), ms[1..]);
    }
  }

  /** Nobody has called yet. */
  predicate Initial(s: State) {
    && s.refused == []
    && (forall c <- s.locks :: s.locks[c] == Lock(None, 0, false))
    && (forall t <- s.stacks :: s.stacks[t] == [])
  }

  // ---- What it means for callers ----

  /** Thread `t` is in a body on `c`, in the call at depth `i`. */
  predicate InBody(s: State, t: Tid, i: nat, c: Cid) {
    t in s.stacks && i < |s.stacks[t]| && s.stacks[t][i] == Frame(c, Inside)
  }

  /** In every reachable state at most one call is in a body on a client. */
  lemma MutualExclusion(s: State, ms: seq<Move>, c: Cid, t: Tid, i: nat, u: Tid, j: nat)
    requires Initial(s) && c in s.locks
    requires InBody(Run(s, ms), t, i, c) && InBody(Run(s, ms), u, j, c)
    ensures t == u && i == j
  {
    RunKeepsInv(s, ms);
    var r := Run(s, ms);
    assert IsInside(r.stacks[t], c) && IsInside(r.stacks[u], c);
    assert LockMatches(r, c, t) && LockMatches(r, c, u);
    assert StackGood(r, r.stacks[t]);
  }

  /** A call is turned away exactly when its own thread holds the client, and
      then at once: it is never left waiting for itself. */
  lemma RefusedExactlyWhenHeld(s: State, m: Move)
    requires Inv(s) && m.tid in s.stacks && s.stacks[m.tid] != [] && Top(s.stacks[m.tid]).at.Checking?
    ensures var stack := s.stacks[m.tid];
      && Step(s, m).refused == (if Holds(Below(stack), Top(stack).client) then s.refused + [(m.tid, Top(stack).client)] else s.refused)
      && Step(s, m).stacks[m.tid] == (if Holds(Below(stack), Top(stack).client) then Below(stack)
                                      else Below(stack) + [Frame(Top(stack).client, Waiting)])
  {
    var stack := s.stacks[m.tid];
    assert Top(stack) in stack;
    assert stack == Below(stack) + [Top(stack)];
    assert LockMatches(s, Top(stack).client, m.tid);
    PushNests(Below(stack), Top(stack));
    Push(Below(stack), Top(stack), Top(stack).client);
    InsideHolds(Below(stack), Top(stack).client);
  }

  /** A thread at the mutex is blocked exactly while another thread holds it. */
  lemma BlockedExactlyWhenHeld(s: State, t: Tid)
    requires Inv(s) && t in s.stacks && s.stacks[t] != [] && Top(s.stacks[t]).at.Waiting?
    ensures Blocked(s, t) <==> exists u <- s.stacks :: u != t && Holds(s.stacks[u], Top(s.stacks[t]).client)
  {
    var stack := s.stacks[t];
    var c := Top(stack).client;
    assert StackGood(s, stack) && Top(stack) in stack;
    forall u <- s.stacks ensures LockMatches(s, c, u) {
    }
    if Blocked(s, t) {
      NeverWaitsForItself(s, t);
      var u := s.locks[c].holder.value;
      assert LockMatches(s, c, u);
    }
  }

  /** A blocked thread waits for another thread. */
  lemma NeverWaitsForItself(s: State, t: Tid)
    requires Inv(s) && Blocked(s, t)
    ensures s.locks[Top(s.stacks[t]).client].holder != Some(t)
  {
    var stack := s.stacks[t];
    assert LockMatches(s, Top(stack).client, t);
    assert StackGood(s, stack);
    assert !Holds(stack, Top(stack).client);
  }

  /** Leaving a body, normally or by a panic, clears the token before it
      frees the mutex, so the thread's next call is not taken for a nested one. */
  lemma LeavingClearsToken(s: State, t: Tid, p: bool)
    requires Inv(s) && InCall(s, t) && Top(s.stacks[t]).at == Leaving(p)
    ensures var c := Top(s.stacks[t]).client;
      var s' := Step(s, Move(t, None, false));
      && s.locks[c].holder == Some(t) && s.locks[c].owner != t
      && s'.locks[c].holder == None && s'.locks[c].owner != t
      && s'.stacks[t] == Below(s.stacks[t]) && !Holds(s'.stacks[t], c)
  {
    var stack := s.stacks[t];
    assert stack == Below(stack) + [Top(stack)] && StackGood(s, stack);
    assert LockMatches(s, Top(stack).client, t) && Top(stack) in stack;
    PushNests(Below(stack), Top(stack));
    InsideHolds(Below(stack), Top(stack).client);
  }
}
