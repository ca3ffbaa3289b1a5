/** The bounded trajectory history of a body: every new position is pushed
    at the end, and once the history holds more than `Capacity` entries the
    oldest one is dropped. */
module Trajectory {
  import opened Vectors

  const Capacity: nat := 500

  /** One push with eviction of the oldest entry, as `Body::update` does it. */
  function Record(t: seq<Vec3>, p: Vec3): (r: seq<Vec3>)
    ensures |r| == if |t| < Capacity then |t| + 1 else |t|
    ensures r[|r| - 1] == p
  {
    var pushed := t + [p];
    if |pushed| > Capacity then pushed[1..] else pushed
  }

  /** The push-evict step: the new position is always the last entry; below
      capacity nothing is dropped, at capacity exactly the oldest entry is,
      so a trajectory within capacity stays within it. */
  lemma RecordShape(t: seq<Vec3>, p: Vec3)
    ensures |Record(t, p)| > 0 && Record(t, p)[|Record(t, p)| - 1] == p
    ensures |t| < Capacity ==> Record(t, p) == t + [p]
    ensures |t| >= Capacity ==> Record(t, p) == t[1..] + [p]
    ensures |t| <= Capacity ==> |Record(t, p)| <= Capacity
  {
    if |t| >= Capacity {
      assert (t + [p])[1..] == t[1..] + [p];
    }
  }

  /** Records every position of `ps` in turn. */
  function RecordAll(t: seq<Vec3>, ps: seq<Vec3>): seq<Vec3>
    decreases |ps|
  {
    if ps == [] then t else RecordAll(Record(t, ps[0]), ps[1..])
  }

  /** The last `Capacity` positions of a complete history (all of it when
      it is shorter). */
  function Window(h: seq<Vec3>): (w: seq<Vec3>)
  {
    if |h| <= Capacity then h else h[|h| - Capacity..]
  }

  /** Pushing onto the window of a history gives the window of the longer
      history: the bounded list never loses a position it should keep and
      never keeps one it should have dropped. */
  lemma RecordKeepsWindow(h: seq<Vec3>, p: Vec3)
    ensures Record(Window(h), p) == Window(h + [p])
  {
    var h' := h + [p];
    if |h| >= Capacity {
      assert Window(h)[1..] + [p] == h'[|h'| - Capacity..];
    }
  }

  /** Starting from the window of `h` and recording `ps` one by one gives the
      window of `h + ps`; from an empty trajectory, the result is the last
      `Capacity` positions of `ps`. */
  lemma {:induction false} RecordAllWindow(h: seq<Vec3>, ps: seq<Vec3>)
    ensures RecordAll(Window(h), ps) == Window(h + ps)
    decreases |ps|
  {
    if ps != [] {
      var h' := h + [ps[0]];
      calc {
        RecordAll(Window(h), ps);
        RecordAll(Record(Window(h), ps[0]), ps[1..]);
        { RecordKeepsWindow(h, ps[0]); }
        RecordAll(Window(h'), ps[1..]);
        { RecordAllWindow(h', ps[1..]); }
        Window(h' + ps[1..]);
        { assert h' + ps[1..] == h + ps; }
        Window(h + ps);
      }
    }
  }

  /** Once at least `Capacity` positions were recorded the window is full,
      its newest entry is the last position recorded and its oldest is the
      one recorded `Capacity - 1` steps before that. */
  lemma FullWindow(h: seq<Vec3>)
    requires |h| >= Capacity
    ensures |Window(h)| == Capacity
    ensures Window(h)[Capacity - 1] == h[|h| - 1]
    ensures Window(h)[0] == h[|h| - Capacity]
  {
  }
}
