/**
 * The sources of the demonstration program, and what a walk does on sources
 * that contain an empty one.
 */
module Demo {
  import opened JoinIterator
  import opened Traversal

  /**
   * The native elements of the demonstration's sources: the plain values of
   * the two vectors and the entries of the ordered map.
   */
  datatype Native = Element(value: int) | MapEntry(key: int, mapped: real)

  /** The vectors keep the default projection; the map's entries project to their keys. */
  function ProjectDemo(i: nat, e: Native): int
  {
    match e
    case Element(v) => v
    case MapEntry(k, _) => k
  }

  /** A vector 1,2,3,4, a map with keys 15,16,17 and a vector 101,102. */
  function DemoJoin(): JoinContainer<Native, int>
  {
    JoinContainer(
      [ [Element(1), Element(2), Element(3), Element(4)],
        [MapEntry(15, 34.0), MapEntry(16, 34.0), MapEntry(17, 34.0)],
        [Element(101), Element(102)] ],
      ProjectDemo)
  }

  /** The demonstration's joined sequence: the vector, the map's keys, the second vector. */
  lemma {:induction false} DemoJoined()
    ensures Total(DemoJoin()) == 9
    ensures Joined(DemoJoin()) == [1, 2, 3, 4, 15, 16, 17, 101, 102]
  {
    var jc := DemoJoin();
    var p0, p1, p2 := Projected(jc, 0), Projected(jc, 1), Projected(jc, 2);
    forall i, e | 0 <= i < 3 ensures jc.project(i, e) == ProjectDemo(i, e) { }
    assert p0 == [1, 2, 3, 4] by {
      assert p0[1] == ProjectDemo(0, Element(2)) && p0[2] == ProjectDemo(0, Element(3));
      assert p0[3] == ProjectDemo(0, Element(4));
    }
    assert p1 == [15, 16, 17] by {
      assert p1[1] == ProjectDemo(1, MapEntry(16, 34.0)) && p1[2] == ProjectDemo(1, MapEntry(17, 34.0));
    }
    assert p2 == [101, 102] by {
      assert p2[1] == ProjectDemo(2, Element(102));
    }
    assert Flatten(jc, 3) == p0 + p1 + p2;
  }

  /** The demonstration walks those nine values in order and then equals `end()`. */
  lemma DemoTraversal()
    ensures !NotEqual(AdvanceN(DemoJoin(), Begin(DemoJoin()), 9), End(DemoJoin()))
    ensures forall n :: 0 <= n < 9 ==>
      Deref(DemoJoin(), AdvanceN(DemoJoin(), Begin(DemoJoin()), n)) == Ok([1, 2, 3, 4, 15, 16, 17, 101, 102][n])
  {
    DemoJoined();
    TraversalYieldsJoined(DemoJoin());
  }

  /**
   * An empty first source is not skipped: `begin()` sits on source 0 with its
   * window at its end, yet differs from `end()`, so a loop would dereference
   * and step a past-the-end position.
   */
  lemma EmptyFirstSourceNotSkipped(tail: seq<int>)
    ensures Begin(WithDefaultProjection([[], tail])).active == 0
    ensures !ActiveNotExhausted(Begin(WithDefaultProjection([[], tail])))
    ensures NotEqual(Begin(WithDefaultProjection([[], tail])), End(WithDefaultProjection([[], tail])))
  {
  }

  /**
   * Promotion onto an empty source stops there: after the last element of
   * source `k` the cursor is active on an empty source `k + 1`, whose window is
   * already at its end, and it still differs from `end()`.
   */
  lemma PromotionOntoEmptySource<E, V>(jc: JoinContainer<E, V>, c: Cursor)
    requires Consistent(jc, c) && ActiveNotExhausted(c)
    requires c.active + 1 < |jc.sources| && |jc.sources[c.active + 1]| == 0
    requires c.windows[c.active].cur + 1 == c.windows[c.active].end
    ensures Advance(c).Ok? && Advance(c).value.active == c.active + 1
    ensures Consistent(jc, Advance(c).value)
    ensures !ActiveNotExhausted(Advance(c).value)
    ensures NotEqual(Advance(c).value, End(jc))
  {
    AdvanceKeepsConsistent(jc, c);
  }
}
