/**
 * Traversal of a join container from `begin()` to `end()`: the logical
 * sequence the cursor walks, the states a walk can reach, and the theorem that
 * a walk over non-empty sources yields every projected element in order and
 * stops exactly at `end()`.
 */
module Traversal {
  import opened JoinIterator

  /** Number of elements in the sources before source `k`. */
  function Offset<E, V>(jc: JoinContainer<E, V>, k: nat): nat
    requires k <= |jc.sources|
  {
    if k == 0 then 0 else Offset(jc, k - 1) + |jc.sources[k - 1]|
  }

  /** Number of elements in all sources. */
  function Total<E, V>(jc: JoinContainer<E, V>): nat
  {
    Offset(jc, |jc.sources|)
  }

  /** Source `i` with its projection applied to every element. */
  function Projected<E, V>(jc: JoinContainer<E, V>, i: nat): seq<V>
    requires i < |jc.sources|
  {
    seq(|jc.sources[i]|, p requires 0 <= p < |jc.sources[i]| => jc.project(i, jc.sources[i][p]))
  }

  /** The projected sources before source `k`, one after another. */
  function Flatten<E, V>(jc: JoinContainer<E, V>, k: nat): (s: seq<V>)
    requires k <= |jc.sources|
    ensures |s| == Offset(jc, k)
  {
    if k == 0 then [] else Flatten(jc, k - 1) + Projected(jc, k - 1)
  }

  /** The one logical sequence the container stands for. */
  function Joined<E, V>(jc: JoinContainer<E, V>): seq<V>
  {
    Flatten(jc, |jc.sources|)
  }

  /** The plain concatenation of a list of sequences. */
  function Concat<E>(ss: seq<seq<E>>): seq<E>
  {
    if |ss| == 0 then [] else Concat(ss[..|ss| - 1]) + ss[|ss| - 1]
  }

  predicate AllNonEmpty<E, V>(jc: JoinContainer<E, V>)
  {
    forall i :: 0 <= i < |jc.sources| ==> |jc.sources[i]| > 0
  }

  /**
   * The states a walk from `begin()` can reach: the windows point into the
   * sources, the sources before the active one are used up, those after it are
   * untouched, and the active window is at its end only if its source is empty.
   */
  predicate Consistent<E, V>(jc: JoinContainer<E, V>, c: Cursor)
  {
    && PointsInto(jc, c)
    && c.active <= |c.windows|
    && (forall i :: 0 <= i < c.active ==> c.windows[i].cur == c.windows[i].end)
    && (forall i :: c.active < i < |c.windows| ==> c.windows[i].cur == 0)
    && (c.active < |c.windows| ==>
          c.windows[c.active].cur < c.windows[c.active].end || c.windows[c.active].end == 0)
  }

  /** How many elements a consistent cursor has already passed. */
  function Position<E, V>(jc: JoinContainer<E, V>, c: Cursor): nat
    requires Consistent(jc, c)
  {
    Offset(jc, c.active) + if c.active < |c.windows| then c.windows[c.active].cur else 0
  }

  lemma {:induction false} OffsetMonotone<E, V>(jc: JoinContainer<E, V>, j: nat, k: nat)
    requires j <= k <= |jc.sources|
    ensures Offset(jc, j) <= Offset(jc, k)
    decreases k
  {
    if j < k {
      OffsetMonotone(jc, j, k - 1);
    }
  }

  /** Element `p` of source `j` sits at `Offset(j) + p` of the flattened sequence, projected by `j`'s projection. */
  lemma {:induction false} FlattenAt<E, V>(jc: JoinContainer<E, V>, k: nat, j: nat, p: nat)
    requires j < k <= |jc.sources|
    requires p < |jc.sources[j]|
    ensures Offset(jc, j) + p < |Flatten(jc, k)|
    ensures Flatten(jc, k)[Offset(jc, j) + p] == jc.project(j, jc.sources[j][p])
    decreases k
  {
    if j < k - 1 {
      FlattenAt(jc, k - 1, j, p);
      OffsetMonotone(jc, j + 1, k - 1);
    }
  }

  /** Every position of a consistent cursor is within the joined sequence. */
  lemma PositionBound<E, V>(jc: JoinContainer<E, V>, c: Cursor)
    requires Consistent(jc, c)
    ensures Position(jc, c) <= Total(jc)
    ensures c.active < |c.windows| ==> Position(jc, c) <= Offset(jc, c.active + 1)
  {
    if c.active < |c.windows| {
      OffsetMonotone(jc, c.active + 1, |jc.sources|);
    }
  }

  /** `begin()`: index 0, every window spanning its source, at position 0. */
  lemma BeginStartsTraversal<E, V>(jc: JoinContainer<E, V>)
    ensures Begin(jc).active == 0 && |Begin(jc).windows| == |jc.sources|
    ensures forall i :: 0 <= i < |jc.sources| ==> Begin(jc).windows[i] == Window(0, |jc.sources[i]|)
    ensures Consistent(jc, Begin(jc)) && Position(jc, Begin(jc)) == 0
  {
  }

  /** `end()`: index N, every window empty at its source's end, past every element. */
  lemma EndIsTerminal<E, V>(jc: JoinContainer<E, V>)
    ensures End(jc).active == |jc.sources| && |End(jc).windows| == |jc.sources|
    ensures forall i :: 0 <= i < |jc.sources| ==>
      End(jc).windows[i] == Window(|jc.sources[i]|, |jc.sources[i]|)
    ensures Consistent(jc, End(jc)) && Position(jc, End(jc)) == Total(jc)
  {
  }

  /** With no sources at all, `begin()` already equals `end()`. */
  lemma NoSourcesBeginIsEnd<E, V>(jc: JoinContainer<E, V>)
    requires |jc.sources| == 0
    ensures !NotEqual(Begin(jc), End(jc))
    ensures Total(jc) == 0 && Joined(jc) == []
  {
  }

  /** Dispatching on a terminal cursor fails with out-of-range and touches nothing. */
  lemma TerminalDispatchFails<E, V>(jc: JoinContainer<E, V>, c: Cursor)
    requires PointsInto(jc, c)
    requires c.active >= |c.windows|
    ensures Advance(c) == Err(OutOfRange(c.active, |jc.sources|))
    ensures Deref(jc, c) == Err(OutOfRange(c.active, |jc.sources|))
  {
  }

  /** A consistent cursor over non-empty sources can always be stepped and dereferenced. */
  lemma ConsistentNotExhausted<E, V>(jc: JoinContainer<E, V>, c: Cursor)
    requires Consistent(jc, c) && AllNonEmpty(jc)
    ensures ActiveNotExhausted(c)
  {
  }

  /** `operator++` keeps a walk consistent and moves it one element forward. */
  lemma AdvanceKeepsConsistent<E, V>(jc: JoinContainer<E, V>, c: Cursor)
    requires Consistent(jc, c) && ActiveNotExhausted(c)
    requires c.active < |c.windows|
    ensures Advance(c).Ok?
    ensures Consistent(jc, Advance(c).value)
    ensures Position(jc, Advance(c).value) == Position(jc, c) + 1
  {
  }

  /** `operator*` on a walk yields the joined sequence's element at the walk's position. */
  lemma DerefAtPosition<E, V>(jc: JoinContainer<E, V>, c: Cursor)
    requires Consistent(jc, c) && ActiveNotExhausted(c)
    requires c.active < |c.windows|
    ensures Position(jc, c) < |Joined(jc)|
    ensures Deref(jc, c) == Ok(Joined(jc)[Position(jc, c)])
    ensures Joined(jc)[Position(jc, c)] == jc.project(c.active, jc.sources[c.active][c.windows[c.active].cur])
  {
    FlattenAt(jc, |jc.sources|, c.active, c.windows[c.active].cur);
  }

  /**
   * Over non-empty sources a walk differs from `end()` exactly while elements
   * are left, and it equals `end()` once all are passed.
   */
  lemma NotEqualEndIffElementsLeft<E, V>(jc: JoinContainer<E, V>, c: Cursor)
    requires Consistent(jc, c) && AllNonEmpty(jc)
    ensures NotEqual(c, End(jc)) <==> Position(jc, c) < Total(jc)
    ensures NotEqual(c, End(jc)) <==> c.active < |jc.sources|
  {
    PositionBound(jc, c);
    if c.active < |jc.sources| {
      OffsetMonotone(jc, c.active + 1, |jc.sources|);
    } else {
      assert c.windows == End(jc).windows;
    }
  }

  /**
   * Over non-empty sources the all-windows comparison of two walks agrees
   * with comparing how far they got: no two distinct reachable cursors share
   * a position.
   */
  lemma NotEqualIffPositionsDiffer<E, V>(jc: JoinContainer<E, V>, a: Cursor, b: Cursor)
    requires Consistent(jc, a) && Consistent(jc, b) && AllNonEmpty(jc)
    ensures NotEqual(a, b) <==> Position(jc, a) != Position(jc, b)
  {
    PositionBound(jc, a);
    PositionBound(jc, b);
    if a.active < b.active {
      OffsetMonotone(jc, a.active + 1, b.active);
    } else if b.active < a.active {
      OffsetMonotone(jc, b.active + 1, a.active);
    } else if Position(jc, a) == Position(jc, b) {
      assert a.windows == b.windows;
    }
  }

  /** The cursor reached from `c` after `n` calls of `operator++`. */
  function AdvanceN<E, V>(jc: JoinContainer<E, V>, c: Cursor, n: nat): (r: Cursor)
    requires Consistent(jc, c) && AllNonEmpty(jc)
    requires Position(jc, c) + n <= Total(jc)
    ensures Consistent(jc, r)
    ensures Position(jc, r) == Position(jc, c) + n
    decreases n
  {
    if n == 0 then
      c
    else
      NotEqualEndIffElementsLeft(jc, c);
      AdvanceKeepsConsistent(jc, c);
      AdvanceN(jc, Advance(c).value, n - 1)
  }

  /**
   * The full traversal: over non-empty sources (or none), `begin()` reaches a
   * cursor equal to `end()` after exactly Total steps; every cursor before
   * that differs from `end()` and dereferences to the next element of the
   * projected sources, in order.
   */
  lemma {:induction false} TraversalYieldsJoined<E, V>(jc: JoinContainer<E, V>)
    requires AllNonEmpty(jc)
    ensures !NotEqual(AdvanceN(jc, Begin(jc), Total(jc)), End(jc))
    ensures forall n :: 0 <= n < Total(jc) ==>
      && NotEqual(AdvanceN(jc, Begin(jc), n), End(jc))
      && Deref(jc, AdvanceN(jc, Begin(jc), n)) == Ok(Joined(jc)[n])
  {
    NotEqualEndIffElementsLeft(jc, AdvanceN(jc, Begin(jc), Total(jc)));
    forall n | 0 <= n < Total(jc)
      ensures NotEqual(AdvanceN(jc, Begin(jc), n), End(jc))
      ensures Deref(jc, AdvanceN(jc, Begin(jc), n)) == Ok(Joined(jc)[n])
    {
      var c := AdvanceN(jc, Begin(jc), n);
      NotEqualEndIffElementsLeft(jc, c);
      DerefAtPosition(jc, c);
    }
  }

  /** With the default projection, the joined sequence is the plain concatenation of the sources. */
  lemma {:induction false} DefaultProjectionIsConcat<E>(sources: seq<seq<E>>, k: nat)
    requires k <= |sources|
    ensures Flatten(WithDefaultProjection(sources), k) == Concat(sources[..k])
    decreases k
  {
    if k > 0 {
      DefaultProjectionIsConcat(sources, k - 1);
      assert sources[..k][..k - 1] == sources[..k - 1];
      var jc := WithDefaultProjection(sources);
      assert forall p {:trigger sources[k - 1][p]} | 0 <= p < |sources[k - 1]| ::
        Projected(jc, k - 1)[p] == ExtractValue(k - 1, sources[k - 1][p]);
      assert Projected(jc, k - 1) == sources[k - 1];
    }
  }

  /** One turn of a loop over non-empty sources: the dereferenced value extends the collected prefix by one. */
  lemma CollectStep<E, V>(jc: JoinContainer<E, V>, c: Cursor, out: seq<V>)
    requires Consistent(jc, c) && AllNonEmpty(jc)
    requires NotEqual(c, End(jc))
    requires Position(jc, c) <= |Joined(jc)| && out == Joined(jc)[..Position(jc, c)]
    ensures ActiveNotExhausted(c) && Deref(jc, c).Ok? && Advance(c).Ok?
    ensures Consistent(jc, Advance(c).value)
    ensures Position(jc, Advance(c).value) == Position(jc, c) + 1 <= |Joined(jc)|
    ensures out + [Deref(jc, c).value] == Joined(jc)[..Position(jc, Advance(c).value)]
  {
    NotEqualEndIffElementsLeft(jc, c);
    DerefAtPosition(jc, c);
    AdvanceKeepsConsistent(jc, c);
    PositionBound(jc, Advance(c).value);
  }

  /**
   * The range-based `for` loop over a join container: compare against
   * `end()`, dereference, step in place, until the cursor equals `end()`.
   */
  method CollectAll<E, V>(jc: JoinContainer<E, V>) returns (out: seq<V>)
    requires AllNonEmpty(jc)
    ensures out == Joined(jc)
  {
    var it := new JoinCursor(Begin(jc).windows);
    var last := End(jc);
    out := [];
    while NotEqual(it.State(), last)
      invariant fresh(it.windows)
      invariant Consistent(jc, it.State())
      invariant Position(jc, it.State()) <= |Joined(jc)|
      invariant out == Joined(jc)[..Position(jc, it.State())]
      decreases Total(jc) - Position(jc, it.State())
    {
      ghost var before := it.State();
      CollectStep(jc, before, out);
      var v := Deref(jc, it.State());
      out := out + [v.value];
      var _ := it.Increment();
      assert it.State() == Advance(before).value;
    }
    NotEqualEndIffElementsLeft(jc, it.State());
  }
}
