/** The pointer (`cursorRef`): the latest fingertip position, the bounded
    trail of recent samples that both draws the blade and gives the slice
    segment, and the blade's facing angle. */
module Trail {
  import opened Geometry

  /** Maximum number of samples kept in the trail. */
  const TrailLength := 8

  /** The angle follows the pointer only after a move longer than this. */
  const AngleThreshold := 2

  /** `history.push(p)` followed by one `shift()` when the trail is too long. */
  function Pushed(h: seq<Point>, p: Point): seq<Point>
  {
    var h' := h + [p];
    if |h'| > TrailLength then h'[1..] else h'
  }

  /** Whether a move from `from` to `to` is long enough to turn the blade:
      `Math.hypot(dx, dy) > 2`, on squares. */
  predicate TurnsBlade(from: Point, to: Point) {
    DistSq(from, to) > (AngleThreshold * AngleThreshold) as real
  }

  /** The trail after the given samples arrived, one per frame, starting
      from the empty trail of a fresh round. */
  function TrailOf(samples: seq<Point>): seq<Point>
  {
    if samples == [] then [] else Pushed(TrailOf(samples[..|samples| - 1]), samples[|samples| - 1])
  }

  /** One push keeps a well-formed trail within bounds, puts the new sample
      last and evicts nothing but the oldest sample, and only on overflow. */
  lemma PushedKeepsWindow(h: seq<Point>, p: Point)
    requires |h| <= TrailLength
    ensures |Pushed(h, p)| <= TrailLength
    ensures Pushed(h, p)[|Pushed(h, p)| - 1] == p
    ensures |h| < TrailLength ==> Pushed(h, p) == h + [p]
    ensures |h| == TrailLength ==> Pushed(h, p) == h[1..] + [p]
  {
  }

  /** The trail is always the most recent samples, at most eight of them,
      in arrival order: a sliding window over the pointer's history. */
  lemma {:induction false} TrailIsLatestSamples(samples: seq<Point>)
    ensures |TrailOf(samples)| == if |samples| < TrailLength then |samples| else TrailLength
    ensures TrailOf(samples) == samples[|samples| - |TrailOf(samples)|..]
  {
    if samples != [] {
      var init := samples[..|samples| - 1];
      TrailIsLatestSamples(init);
      var k := |TrailOf(init)|;
      assert init[|init| - k..] + [samples[|samples| - 1]] == samples[|samples| - k - 1..];
    }
  }

  class Cursor {
    var x: real
    var y: real
    var history: seq<Point>
    var angle: real

    /** The trail never holds more than TrailLength samples. */
    predicate Valid()
      reads this
    {
      |history| <= TrailLength
    }

    /** The initial `cursorRef`: off-screen, no trail, angle 0. */
    constructor ()
      ensures Valid()
      ensures x == -100.0 && y == -100.0 && history == [] && angle == 0.0
    {
      x, y := -100.0, -100.0;
      history := [];
      angle := 0.0;
    }

    /** A fingertip sample p arrives. `heading` is `Math.atan2(dy, dx)` of
        the move from the previous sample, computed by the caller. */
    method Sample(p: Point, heading: real)
      requires Valid()
      modifies this
      ensures Valid()
      ensures history == Pushed(old(history), p)
      ensures x == p.x && y == p.y
      ensures angle == if old(history) != [] && TurnsBlade(old(history)[|old(history)| - 1], p)
                       then heading else old(angle)
    {
      if |history| > 0 {
        var last := history[|history| - 1];
        if TurnsBlade(last, p) {
          angle := heading;
        }
      }
      x := p.x;
      y := p.y;
      history := history + [p];
      if |history| > TrailLength {
        history := history[1..];
      }
    }

    /** `cursorRef.current.history = []` when a round starts. */
    method ClearTrail()
      modifies this
      ensures Valid()
      ensures history == [] && x == old(x) && y == old(y) && angle == old(angle)
    {
      history := [];
    }
  }
}
