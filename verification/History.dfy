/**
 What a replay window has to decide, without any window: an unbounded set of
 the counters accepted so far.
 */
module History {
  import opened Word64

  const WINDOW_SIZE: nat := 8192

  /** A counter is fresh when it was never accepted and no accepted counter is
      a whole window ahead of it. */
  ghost predicate Accepts(h: set<u64>, c: u64) {
    c !in h && forall x <- h :: x < c + WINDOW_SIZE
  }

  ghost function Commit(h: set<u64>, c: u64): set<u64> {
    if Accepts(h, c) then h + {c} else h
  }

  /** The history after committing `cs` in order. */
  ghost function Run(h: set<u64>, cs: seq<u64>): set<u64>
    decreases |cs|
  {
    if cs == [] then h else Run(Commit(h, cs[0]), cs[1..])
  }

  /** The answer to each commit of `cs` in order. */
  ghost function Verdicts(h: set<u64>, cs: seq<u64>): (r: seq<bool>)
    ensures |r| == |cs|
    decreases |cs|
  {
    if cs == [] then [] else [Accepts(h, cs[0])] + Verdicts(Commit(h, cs[0]), cs[1..])
  }

  /** The maximum-based rule of the windows is the same decision. */
  lemma AcceptsByMaximum(h: set<u64>, max: u64, c: u64)
    requires max in h && forall x <- h :: x <= max
    ensures Accepts(h, c) <==> c > max || (max - c < WINDOW_SIZE && c !in h)
  {
  }

  lemma {:induction false} RunExtends(h: set<u64>, cs: seq<u64>, c: u64)
    ensures Run(h, cs + [c]) == Commit(Run(h, cs), c)
    ensures Verdicts(h, cs + [c]) == Verdicts(h, cs) + [Accepts(Run(h, cs), c)]
    decreases |cs|
  {
    if cs == [] {
      assert cs + [c] == [c];
    } else {
      assert (cs + [c])[1..] == cs[1..] + [c];
      RunExtends(Commit(h, cs[0]), cs[1..], c);
    }
  }

  /** A run keeps what it accepted, and accepts nothing it holds already. */
  lemma {:induction false} RunGrows(h: set<u64>, cs: seq<u64>)
    ensures h <= Run(h, cs)
    ensures forall i | 0 <= i < |cs| && Verdicts(h, cs)[i] :: cs[i] !in h
    ensures forall i | 0 <= i < |cs| && Verdicts(h, cs)[i] :: cs[i] in Run(h, cs)
    decreases |cs|
  {
    if cs != [] {
      RunGrows(Commit(h, cs[0]), cs[1..]);
    }
  }

  /** No counter is accepted twice in any run. */
  lemma {:induction false} AcceptedAtMostOnce(h: set<u64>, cs: seq<u64>, i: nat, j: nat)
    requires i < j < |cs|
    requires Verdicts(h, cs)[i] && Verdicts(h, cs)[j]
    ensures cs[i] != cs[j]
    decreases |cs|
  {
    var h' := Commit(h, cs[0]);
    if i == 0 {
      RunGrows(h', cs[1..]);
      assert Verdicts(h', cs[1..])[j - 1];
    } else {
      AcceptedAtMostOnce(h', cs[1..], i - 1, j - 1);
    }
  }

  ghost function CountTrue(r: seq<bool>): nat {
    if r == [] then 0 else Digit(r[0]) + CountTrue(r[1..])
  }

  /** Acceptances are counted exactly by the size of the history. */
  lemma {:induction false} RunCounts(h: set<u64>, cs: seq<u64>)
    ensures |Run(h, cs)| == |h| + CountTrue(Verdicts(h, cs))
    decreases |cs|
  {
    if cs != [] {
      RunCounts(Commit(h, cs[0]), cs[1..]);
      assert Verdicts(h, cs)[1..] == Verdicts(Commit(h, cs[0]), cs[1..]);
    }
  }

  /** Once the largest counter is accepted, everything a window below it is
      refused by every later commit of every run. */
  lemma {:induction false} Stalls(h: set<u64>, cs: seq<u64>, i: nat)
    requires MAX in h && i < |cs| && cs[i] + WINDOW_SIZE <= MAX
    ensures !Verdicts(h, cs)[i]
    decreases |cs|
  {
    if i > 0 {
      Stalls(Commit(h, cs[0]), cs[1..], i - 1);
    }
  }

  /** Removing the refused commits from a run changes neither the history nor
      the remaining verdicts. */
  ghost function AcceptedOnly(h: set<u64>, cs: seq<u64>): seq<u64>
    decreases |cs|
  {
    if cs == [] then []
    else if Accepts(h, cs[0]) then [cs[0]] + AcceptedOnly(h + {cs[0]}, cs[1..])
    else AcceptedOnly(h, cs[1..])
  }

  lemma {:induction false} RefusalsDoNotMatter(h: set<u64>, cs: seq<u64>)
    ensures Run(h, AcceptedOnly(h, cs)) == Run(h, cs)
    ensures forall v <- Verdicts(h, AcceptedOnly(h, cs)) :: v
    decreases |cs|
  {
    if cs != [] {
      var h' := Commit(h, cs[0]);
      RefusalsDoNotMatter(h', cs[1..]);
      if Accepts(h, cs[0]) {
        assert AcceptedOnly(h, cs)[1..] == AcceptedOnly(h', cs[1..]);
      }
    }
  }

  /** At most `max + 1` counters lie at or below `max`. */
  lemma {:induction false} SizeBound(h: set<u64>, max: int)
    requires max >= -1 && forall x <- h :: x <= max
    ensures |h| <= max + 1
    decreases max + 1
  {
    if max == -1 {
      assert h == {};
    } else {
      SizeBound(h - {max}, max - 1);
    }
  }

  /** A history that holds every counter from 0 to `max` has `max + 1` members. */
  lemma {:induction false} SizeOfAll(h: set<u64>, max: int)
    requires -1 <= max < TWO_64 && forall x: u64 | x <= max :: x in h
    ensures |h| >= max + 1
    decreases max + 1
  {
    if max >= 0 {
      SizeOfAll(h - {max}, max - 1);
    }
  }

  /** A 64-bit count of the history is exact as long as some counter is still
      missing, and wraps to 0 exactly when all 2^64 counters were accepted. */
  lemma CountExactUntilFull(h: set<u64>)
    ensures |h| % TWO_64 == |h| <==> exists c: u64 :: c !in h
    ensures (forall c: u64 :: c in h) ==> |h| == TWO_64
  {
    SizeBound(h, MAX);
    if c: u64 :| c !in h {
      SizeBound(h + {c}, MAX);
    } else {
      SizeOfAll(h, MAX);
    }
  }
}
