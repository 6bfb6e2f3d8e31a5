/**
 * The join-iterator engine: a read-only cursor that walks N sources one after
 * another as if they were one sequence, projecting every element to a common
 * value type.
 *
 * A source is a `seq<E>`; a native iterator is a position into it, so the
 * iterator pair of one source is a `Window(cur, end)` of two naturals.  The
 * projection that the C++ code selects per iterator type at compile time is a
 * function of the source index and the native element.
 */
module JoinIterator {

  /** What the bounds-checked dispatch table throws (`std::out_of_range`). */
  datatype Error = OutOfRange(index: nat, size: nat)

  datatype Result<T> = Ok(value: T) | Err(error: Error)

  datatype Outcome = Pass | Fail(error: Error)

  /**
   * One source's iterator pair: `cur` is the moving position (the field the
   * C++ code calls `begin`), `end` the source's end position.
   */
  datatype Window = Window(cur: nat, end: nat)

  /** The value of a cursor: the active source index and one window per source. */
  datatype Cursor = Cursor(active: nat, windows: seq<Window>)

  /**
   * The container: its own copies of the N sources, and the projection that
   * maps an element of source `i` to the common value type.
   */
  datatype JoinContainer<!E, V> = JoinContainer(sources: seq<seq<E>>, project: (nat, E) -> V)

  /** The default projection: the dereferenced element itself. */
  function ExtractValue<E>(i: nat, e: E): E
  {
    e
  }

  /** A container whose every source uses the default projection. */
  function WithDefaultProjection<E>(sources: seq<seq<E>>): JoinContainer<E, E>
  {
    JoinContainer(sources, ExtractValue)
  }

  /** `begin()`: source 0 is active and every window spans its whole source. */
  function Begin<E, V>(jc: JoinContainer<E, V>): Cursor
  {
    Cursor(0, seq(|jc.sources|, i requires 0 <= i < |jc.sources| => Window(0, |jc.sources[i]|)))
  }

  /** `end()`: the terminal index N and every window empty at its source's end. */
  function End<E, V>(jc: JoinContainer<E, V>): Cursor
  {
    Cursor(|jc.sources|,
           seq(|jc.sources|, i requires 0 <= i < |jc.sources| => Window(|jc.sources[i]|, |jc.sources[i]|)))
  }

  /**
   * Every window of `c` lies inside the matching source of `jc`: the cursor
   * was built from this container.
   */
  predicate PointsInto<E, V>(jc: JoinContainer<E, V>, c: Cursor)
  {
    && |c.windows| == |jc.sources|
    && forall i :: 0 <= i < |c.windows| ==>
         c.windows[i].cur <= c.windows[i].end && c.windows[i].end == |jc.sources[i]|
  }

  /**
   * The active window, if there is one, has an element left.  Stepping or
   * dereferencing a window whose `cur` is at its `end` is undefined in C++.
   */
  predicate ActiveNotExhausted(c: Cursor)
  {
    c.active < |c.windows| ==> c.windows[c.active].cur < c.windows[c.active].end
  }

  /**
   * `operator++` on a cursor value: step the active window by one and promote
   * the active index once that window reaches its end.  An index outside the
   * dispatch table is reported, and no window is touched.
   */
  function Advance(c: Cursor): (r: Result<Cursor>)
    requires ActiveNotExhausted(c)
    ensures r.Err? <==> c.active >= |c.windows|
    ensures r.Err? ==> r.error == OutOfRange(c.active, |c.windows|)
    ensures r.Ok? ==>
      && |r.value.windows| == |c.windows|
      && (forall i :: 0 <= i < |c.windows| && i != c.active ==> r.value.windows[i] == c.windows[i])
      && r.value.windows[c.active].cur == c.windows[c.active].cur + 1
      && r.value.windows[c.active].end == c.windows[c.active].end
      && (r.value.active == c.active || r.value.active == c.active + 1)
      && (r.value.active == c.active + 1 <==> r.value.windows[c.active].cur == r.value.windows[c.active].end)
  {
    if c.active >= |c.windows| then
      Err(OutOfRange(c.active, |c.windows|))
    else
      var w := c.windows[c.active];
      var stepped := Window(w.cur + 1, w.end);
      var reachedEnd := stepped.cur == stepped.end;
      Ok(Cursor(if reachedEnd then c.active + 1 else c.active, c.windows[c.active := stepped]))
  }

  /**
   * `operator*`: the projection of the active window's current element, or the
   * dispatch table's out-of-range error on a terminal cursor.
   */
  function Deref<E, V>(jc: JoinContainer<E, V>, c: Cursor): (r: Result<V>)
    requires PointsInto(jc, c) && ActiveNotExhausted(c)
    ensures r.Err? <==> c.active >= |c.windows|
    ensures r.Err? ==> r.error == OutOfRange(c.active, |c.windows|)
  {
    if c.active >= |c.windows| then
      Err(OutOfRange(c.active, |c.windows|))
    else
      var w := c.windows[c.active];
      Ok(jc.project(c.active, jc.sources[c.active][w.cur]))
  }

  /** `is_same`: both positions of the two windows agree. */
  predicate SameWindow(lhs: Window, rhs: Window)
  {
    lhs.cur == rhs.cur && lhs.end == rhs.end
  }

  /** The fold over the first `n` window pairs: does any of them differ? */
  function AnyWindowDiffers(xs: seq<Window>, ys: seq<Window>, n: nat): (r: bool)
    requires n <= |xs| && |xs| == |ys|
    ensures r <==> exists i :: 0 <= i < n && xs[i] != ys[i]
  {
    n > 0 && (AnyWindowDiffers(xs, ys, n - 1) || !SameWindow(xs[n - 1], ys[n - 1]))
  }

  /**
   * `operator!=`: the cursors differ in the active index or in ANY window,
   * not only the active one.  Both cursors have the same type, so the same
   * number of windows.
   */
  function NotEqual(a: Cursor, b: Cursor): (r: bool)
    requires |a.windows| == |b.windows|
    ensures r <==> a != b
  {
    a.active != b.active || AnyWindowDiffers(a.windows, b.windows, |a.windows|)
  }

  /**
   * The cursor object: its active index and its N windows are updated in
   * place by `operator++`.
   */
  class JoinCursor {
    var active: nat
    const windows: array<Window>

    /** The cursor's current value. */
    function State(): Cursor
      reads this, windows
    {
      Cursor(active, windows[..])
    }

    /** Builds the cursor from one iterator pair per source; source 0 starts active. */
    constructor (pairs: seq<Window>)
      ensures State() == Cursor(0, pairs)
      ensures fresh(windows)
    {
      windows := new Window[|pairs|](i requires 0 <= i < |pairs| => pairs[i]);
      active := 0;
    }

    /** `operator++`, in place. */
    method Increment() returns (outcome: Outcome)
      requires ActiveNotExhausted(State())
      modifies this, windows
      ensures outcome.Pass? <==> Advance(old(State())).Ok?
      ensures outcome.Fail? ==> outcome.error == Advance(old(State())).error
      ensures State() == if outcome.Pass? then Advance(old(State())).value else old(State())
    {
      if active >= windows.Length {
        return Fail(OutOfRange(active, windows.Length));
      }
      var w := windows[active];
      windows[active] := Window(w.cur + 1, w.end);
      if w.cur + 1 == w.end {
        active := active + 1;
      }
      return Pass;
    }
  }
}
