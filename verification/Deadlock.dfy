/**
 How the client locks can deadlock: only by threads waiting for one another in
 a cycle. That takes two clients and calls from inside callbacks, and such a
 cycle is for good.
 */
module Deadlock {
  import opened Aead
  import opened ClientLock

  /** Thread `t` waits for a client that `u` holds. */
  predicate WaitsFor(s: State, t: Tid, u: Tid) {
    Blocked(s, t) && s.locks[Top(s.stacks[t]).client].holder == Some(u)
  }

  predicate WaitChain(s: State, ts: seq<Tid>) {
    forall i | 0 <= i < |ts| - 1 :: WaitsFor(s, ts[i], ts[i + 1])
  }

  /** Threads each waiting for a client the next one holds, and the last for
      one the first holds. */
  predicate WaitCycle(s: State, ts: seq<Tid>) {
    ts != [] && WaitChain(s, ts) && WaitsFor(s, ts[|ts| - 1], ts[0])
  }

  /** No call in progress can go on. */
  predicate Stuck(s: State) {
    forall t <- s.stacks | s.stacks[t] != [] :: Blocked(s, t)
  }

  // ---- No cycle, no deadlock ----

  lemma HolderIsInCall(s: State, t: Tid, u: Tid)
    requires Inv(s) && WaitsFor(s, t, u)
    ensures u != t && u in s.stacks && s.stacks[u] != [] && Holds(s.stacks[u], Top(s.stacks[t]).client)
  {
    NeverWaitsForItself(s, t);
    assert LockMatches(s, Top(s.stacks[t]).client, u);
  }

  lemma ChainExtends(s: State, path: seq<Tid>, u: Tid)
    requires path != [] && WaitChain(s, path) && WaitsFor(s, path[|path| - 1], u)
    ensures WaitChain(s, path + [u])
  {
  }

  lemma ChainCloses(s: State, path: seq<Tid>, j: nat)
    requires WaitChain(s, path) && j < |path| && WaitsFor(s, path[|path| - 1], path[j])
    ensures WaitCycle(s, path[j..])
  {
    var ts := path[j..];
    forall i | 0 <= i < |ts| - 1 ensures WaitsFor(s, ts[i], ts[i + 1]) {
      assert ts[i] == path[j + i] && ts[i + 1] == path[j + i + 1];
    }
  }

  function Members(path: seq<Tid>): set<Tid> {
    set t <- path
  }

  lemma FollowWaits(s: State, path: seq<Tid>) returns (ts: seq<Tid>)
    requires Inv(s) && Stuck(s) && path != [] && WaitChain(s, path)
    requires path[|path| - 1] in s.stacks && s.stacks[path[|path| - 1]] != []
    ensures WaitCycle(s, ts) && |ts| >= 2
    decreases s.stacks.Keys - Members(path)
  {
    var last := path[|path| - 1];
    assert Blocked(s, last);
    var u := s.locks[Top(s.stacks[last]).client].holder.value;
    assert WaitsFor(s, last, u);
    HolderIsInCall(s, last, u);
    if u in path {
      var j :| 0 <= j < |path| && path[j] == u;
      ChainCloses(s, path, j);
      ts := path[j..];
    } else {
      ChainExtends(s, path, u);
      assert Members(path + [u]) == Members(path) + {u};
      ts := FollowWaits(s, path + [u]);
    }
  }

  /** If no call in progress can go on, threads wait for one another in a
      cycle. */
  lemma StuckHasCycle(s: State, t: Tid) returns (ts: seq<Tid>)
    requires Inv(s) && Stuck(s) && t in s.stacks && s.stacks[t] != []
    ensures WaitCycle(s, ts) && |ts| >= 2
  {
    ts := FollowWaits(s, [t]);
  }

  /** Unless threads wait for one another in a cycle, some thread in a call can
      go on. */
  lemma SomeThreadCanMove(s: State, t: Tid) returns (u: Tid)
    requires Inv(s) && t in s.stacks && s.stacks[t] != []
    requires forall ts :: !WaitCycle(s, ts)
    ensures u in s.stacks && s.stacks[u] != [] && !Blocked(s, u)
  {
    if Stuck(s) {
      var ts := StuckHasCycle(s, t);
      assert false;
    }
    u :| u in s.stacks && s.stacks[u] != [] && !Blocked(s, u);
  }

  // ---- What a cycle takes ----

  function Next(ts: seq<Tid>, i: nat): Tid
    requires i < |ts|
  {
    if i == |ts| - 1 then ts[0] else ts[i + 1]
  }

  lemma InCycle(s: State, ts: seq<Tid>, i: nat)
    requires WaitCycle(s, ts) && i < |ts|
    ensures WaitsFor(s, ts[i], Next(ts, i))
  {
  }

  /** Everyone in a cycle waits for one client from inside a body on another. */
  lemma CycleNests(s: State, ts: seq<Tid>, i: nat)
    requires Inv(s) && WaitCycle(s, ts) && i < |ts|
    ensures ts[i] in s.stacks && |s.stacks[ts[i]]| >= 2
    ensures exists c <- s.locks :: c != Top(s.stacks[ts[i]]).client && IsInside(s.stacks[ts[i]], c)
  {
    var j := if i == 0 then |ts| - 1 else i - 1;
    InCycle(s, ts, j);
    InCycle(s, ts, i);
    HolderIsInCall(s, ts[j], ts[i]);
    HeldIsBody(s, ts[i], Top(s.stacks[ts[j]]).client);
  }

  lemma HeldIsBody(s: State, t: Tid, c: Cid)
    requires Inv(s) && Blocked(s, t) && Holds(s.stacks[t], c)
    ensures |s.stacks[t]| >= 2 && c in s.locks && c != Top(s.stacks[t]).client && IsInside(s.stacks[t], c)
  {
    var stack := s.stacks[t];
    var below, top := Below(stack), Top(stack);
    assert StackGood(s, stack) && stack == below + [top];
    Push(below, top, c);
    PushNests(below, top);
    InsideHolds(below, c);
    assert Frame(c, Inside) in stack;
  }

  /** With a single client there is none. */
  lemma OneClientNeverDeadlocks(s: State, t: Tid, c: Cid) returns (u: Tid)
    requires Inv(s) && s.locks.Keys == {c} && t in s.stacks && s.stacks[t] != []
    ensures u in s.stacks && s.stacks[u] != [] && !Blocked(s, u)
  {
    forall ts ensures !WaitCycle(s, ts) {
      if WaitCycle(s, ts) {
        CycleNests(s, ts, 0);
      }
    }
    u := SomeThreadCanMove(s, t);
  }

  // ---- A cycle is for good ----

  /** A step leaves a held mutex with its holder, unless the holder makes it. */
  lemma WaitStays(s: State, m: Move, t: Tid, u: Tid)
    requires Inv(s) && WaitsFor(s, t, u) && Blocked(s, u)
    ensures WaitsFor(Step(s, m), t, u)
  {
    if InCall(s, m.tid) && !Blocked(s, m.tid) && !MakesCall(s.stacks[m.tid], m) {
      var top := Top(s.stacks[m.tid]);
      assert top in s.stacks[m.tid];
      assert LockMatches(s, top.client, m.tid);
    }
  }

  lemma CycleStaysOneStep(s: State, ts: seq<Tid>, m: Move)
    requires Inv(s) && WaitCycle(s, ts)
    ensures WaitCycle(Step(s, m), ts)
  {
    forall i | 0 <= i < |ts| ensures WaitsFor(Step(s, m), ts[i], Next(ts, i)) {
      InCycle(s, ts, i);
      InCycle(s, ts, if i == |ts| - 1 then 0 else i + 1);
      WaitStays(s, m, ts[i], Next(ts, i));
    }
    forall i | 0 <= i < |ts| - 1 ensures WaitsFor(Step(s, m), ts[i], ts[i + 1]) {
      assert Next(ts, i) == ts[i + 1];
    }
    assert Next(ts, |ts| - 1) == ts[0];
  }

  /** A cycle never comes apart: whatever the scheduler does, its threads stay
      blocked. */
  lemma {:induction false} CycleStays(s: State, ts: seq<Tid>, ms: seq<Move>)
    requires Inv(s) && WaitCycle(s, ts)
    ensures WaitCycle(Run(s, ms), ts)
    decreases |ms|
  {
    if ms != [] {
      CycleStaysOneStep(s, ts, ms[0]);
      StepKeepsInv(s, ms[0]);
      CycleStays(Step(s, ms[0]), ts, ms[1..]);
    }
  }

  // ---- Two clients are enough for one ----

  lemma {:induction false} RunConcat(s: State, a: seq<Move>, b: seq<Move>)
    ensures Run(s, a + b) == Run(Run(s, a), b)
    decreases |a|
  {
    if a == [] {
      assert a + b == b;
    } else {
      assert (a + b)[1..] == a[1..] + b;
      RunConcat(Step(s, a[0]), a[1..], b);
    }
  }

  lemma RunTwo(s: State, ms: seq<Move>)
    requires |ms| == 2
    ensures Run(s, ms) == Step(Step(s, ms[0]), ms[1])
  {
    assert Run(s, ms) == Run(Step(s, ms[0]), ms[1..]);
    assert ms[1..][1..] == [] && ms[1..][0] == ms[1];
  }

  /** Thread `t` calls for `c`, up to the mutex. */
  function Asking(t: Tid, c: Cid): seq<Move> {
    [Move(t, Some(c), false), Move(t, None, false)]
  }

  /** It takes the mutex and enters the body. */
  function Taking(t: Tid): seq<Move> {
    [Move(t, None, false), Move(t, None, false)]
  }

  function Entering(t: Tid, c: Cid): seq<Move> {
    Asking(t, c) + Taking(t)
  }

  lemma AskingWaits(s: State, t: Tid, c: Cid)
    requires c in s.locks && s.locks[c].owner != t && t in s.stacks && (s.stacks[t] == [] || Top(s.stacks[t]).at.Inside?)
    ensures Run(s, Asking(t, c)) == s.(stacks := s.stacks[t := s.stacks[t] + [Frame(c, Waiting)]])
  {
    RunTwo(s, Asking(t, c));
    var s1 := Step(s, Asking(t, c)[0]);
    assert s1.stacks[t] == s.stacks[t] + [Frame(c, Checking)];
    assert Below(s1.stacks[t]) == s.stacks[t];
    var s2 := Step(s1, Asking(t, c)[1]);
    assert s2.locks == s.locks && s2.stacks == s.stacks[t := s.stacks[t] + [Frame(c, Waiting)]];
  }

  lemma TakingEnters(s: State, t: Tid, c: Cid, below: seq<Frame>)
    requires c in s.locks && s.locks[c].holder.None? && t in s.stacks && s.stacks[t] == below + [Frame(c, Waiting)]
    ensures Run(s, Taking(t)) == s.(locks := s.locks[c := Lock(Some(t), t, s.locks[c].poisoned)],
                                    stacks := s.stacks[t := below + [Frame(c, Inside)]])
  {
    RunTwo(s, Taking(t));
    assert Below(s.stacks[t]) == below;
    var s1 := Step(s, Taking(t)[0]);
    assert s1.stacks[t] == below + [Frame(c, Acquired)] && Below(s1.stacks[t]) == below;
    var s2 := Step(s1, Taking(t)[1]);
    assert s2.locks == s.locks[c := Lock(Some(t), t, s.locks[c].poisoned)] && s2.stacks == s.stacks[t := below + [Frame(c, Inside)]];
  }

  /** A thread outside any call enters a free client. */
  lemma EnteringEnters(s: State, t: Tid, c: Cid)
    requires c in s.locks && s.locks[c] == FREE && t in s.stacks && s.stacks[t] == []
    ensures Run(s, Entering(t, c)) == s.(locks := s.locks[c := Lock(Some(t), t, false)], stacks := s.stacks[t := [Frame(c, Inside)]])
  {
    var none: seq<Frame> := [];
    AskingWaits(s, t, c);
    var s1 := Run(s, Asking(t, c));
    TakingEnters(s1, t, c, none);
    RunConcat(s, Asking(t, c), Taking(t));
    assert none + [Frame(c, Inside)] == [Frame(c, Inside)];
    assert s1.stacks[t := [Frame(c, Inside)]] == s.stacks[t := [Frame(c, Inside)]];
  }

  /** Two clients and two threads. */
  function Two(first: Lock, second: Lock, a: seq<Frame>, b: seq<Frame>): State {
    State(map[0 := first, 1 := second], map[1 := a, 2 := b], [])
  }

  const FREE: Lock := Lock(None, 0, false)

  lemma TwoUpdates(first: Lock, second: Lock, a: seq<Frame>, b: seq<Frame>, lock: Lock, stack: seq<Frame>)
    ensures var s := Two(first, second, a, b);
      && s.locks[0 := lock] == Two(lock, second, a, b).locks && s.locks[1 := lock] == Two(first, lock, a, b).locks
      && s.stacks[1 := stack] == Two(first, second, stack, b).stacks && s.stacks[2 := stack] == Two(first, second, a, stack).stacks
  {
  }

  lemma {:induction false} RunFour(s: State, a: seq<Move>, b: seq<Move>, c: seq<Move>, d: seq<Move>)
    ensures Run(s, a + b + c + d) == Run(Run(Run(Run(s, a), b), c), d)
  {
    RunConcat(s, a, b);
    RunConcat(s, a + b, c);
    RunConcat(s, a + b + c, d);
  }

  function HeldBy(t: Tid): Lock {
    Lock(Some(t), t, false)
  }

  lemma BothEnter()
    ensures Run(Run(Two(FREE, FREE, [], []), Entering(1, 0)), Entering(2, 1))
            == Two(HeldBy(1), HeldBy(2), [Frame(0, Inside)], [Frame(1, Inside)])
  {
    var s0, s1 := Two(FREE, FREE, [], []), Two(HeldBy(1), FREE, [Frame(0, Inside)], []);
    assert Run(s0, Entering(1, 0)) == s1 by {
      EnteringEnters(s0, 1, 0);
      TwoUpdates(FREE, FREE, [], [], HeldBy(1), [Frame(0, Inside)]);
    }
    EnteringEnters(s1, 2, 1);
    TwoUpdates(HeldBy(1), FREE, [Frame(0, Inside)], [], HeldBy(2), [Frame(1, Inside)]);
  }

  lemma BothAsk(a: seq<Frame>, b: seq<Frame>)
    requires a == [Frame(0, Inside)] && b == [Frame(1, Inside)]
    ensures Run(Run(Two(HeldBy(1), HeldBy(2), a, b), Asking(1, 1)), Asking(2, 0))
            == Two(HeldBy(1), HeldBy(2), a + [Frame(1, Waiting)], b + [Frame(0, Waiting)])
  {
    var s0, s1 := Two(HeldBy(1), HeldBy(2), a, b), Two(HeldBy(1), HeldBy(2), a + [Frame(1, Waiting)], b);
    assert Run(s0, Asking(1, 1)) == s1 by {
      AskingWaits(s0, 1, 1);
      TwoUpdates(HeldBy(1), HeldBy(2), a, b, FREE, a + [Frame(1, Waiting)]);
    }
    AskingWaits(s1, 2, 0);
    TwoUpdates(HeldBy(1), HeldBy(2), a + [Frame(1, Waiting)], b, FREE, b + [Frame(0, Waiting)]);
  }

  lemma CrossedWait(a: seq<Frame>, b: seq<Frame>)
    ensures WaitCycle(Two(HeldBy(1), HeldBy(2), a + [Frame(1, Waiting)], b + [Frame(0, Waiting)]), [1, 2])
  {
    var s := Two(HeldBy(1), HeldBy(2), a + [Frame(1, Waiting)], b + [Frame(0, Waiting)]);
    assert WaitsFor(s, 1, 2) && WaitsFor(s, 2, 1);
  }

  lemma CrossingWaits(start: State, a: seq<Move>, b: seq<Move>, c: seq<Move>, d: seq<Move>)
    requires start == Two(FREE, FREE, [], []) && a == Entering(1, 0) && b == Entering(2, 1) && c == Asking(1, 1) && d == Asking(2, 0)
    ensures WaitCycle(Run(start, a + b + c + d), [1, 2])
  {
    RunFour(start, a, b, c, d);
    BothEnter();
    BothAsk([Frame(0, Inside)], [Frame(1, Inside)]);
    CrossedWait([Frame(0, Inside)], [Frame(1, Inside)]);
  }

  /** With two clients a cycle can be reached from the start: each thread enters
      its own client and then calls the other's from inside, and a call is
      turned away only from a client its own thread holds. */
  lemma TwoClientsCanDeadlock() returns (s: State, ms: seq<Move>)
    ensures Initial(s) && |s.locks| == 2 && WaitCycle(Run(s, ms), [1, 2])
  {
    s := Two(FREE, FREE, [], []);
    ms := Entering(1, 0) + Entering(2, 1) + Asking(1, 1) + Asking(2, 0);
    assert s.locks.Keys == {0, 1};
    CrossingWaits(s, Entering(1, 0), Entering(2, 1), Asking(1, 1), Asking(2, 0));
  }
}
