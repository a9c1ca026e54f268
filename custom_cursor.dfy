/** The custom cursor: its position and flags, and a trail of the most recent
    pointer positions, at most eight long. */
module CustomCursor {
  import opened Sequences

  /** The trail never holds more than this many points. */
  const MaxTrail: nat := 8

  datatype Position = Position(x: int, y: int)

  /** A trail entry: the pointer coordinates and the key built from
      `performance.now()` and `Math.random()`. */
  datatype TrailPoint = TrailPoint(x: int, y: int, id: string)

  /** The trail updater of `handleMouseMove`: append the point, then drop the
      oldest entry if the trail has grown past its bound. */
  function Appended(prev: seq<TrailPoint>, p: TrailPoint): (r: seq<TrailPoint>)
    ensures |r| > 0 && r[|r| - 1] == p
    ensures |prev| <= MaxTrail ==> |r| <= MaxTrail
    ensures |prev| < MaxTrail ==> r == prev + [p]
    ensures |prev| >= MaxTrail ==> r == prev[1..] + [p]
  {
    var next := prev + [p];
    if |next| > MaxTrail then next[1..] else next
  }

  /** The last `n` elements of `s` (all of them if there are fewer). */
  function Newest<T>(s: seq<T>, n: nat): (r: seq<T>)
  {
    if |s| <= n then s else s[|s| - n..]
  }

  /** The trail after the moves `moves`, one after another, from `prev`. */
  function TrailAfter(prev: seq<TrailPoint>, moves: seq<TrailPoint>): seq<TrailPoint>
    decreases |moves|
  {
    if moves == [] then prev else TrailAfter(Appended(prev, moves[0]), moves[1..])
  }

  /** Whatever the moves, the trail is exactly the newest eight of the points seen. */
  lemma {:induction false} TrailKeepsNewest(prev: seq<TrailPoint>, moves: seq<TrailPoint>)
    requires |prev| <= MaxTrail
    ensures TrailAfter(prev, moves) == Newest(prev + moves, MaxTrail)
    decreases |moves|
  {
    if moves != [] {
      var p, rest := moves[0], moves[1..];
      assert moves == [p] + rest;
      calc {
        TrailAfter(prev, moves);
        TrailAfter(Appended(prev, p), rest);
        { TrailKeepsNewest(Appended(prev, p), rest); }
        Newest(Appended(prev, p) + rest, MaxTrail);
        { AppendedKeepsNewest(prev, p, rest); }
        Newest(prev + [p] + rest, MaxTrail);
        { assert prev + [p] + rest == prev + moves; }
        Newest(prev + moves, MaxTrail);
      }
    }
  }

  /** One move does not change which points are the newest eight of those seen. */
  lemma AppendedKeepsNewest(prev: seq<TrailPoint>, p: TrailPoint, rest: seq<TrailPoint>)
    requires |prev| <= MaxTrail
    ensures Newest(Appended(prev, p) + rest, MaxTrail) == Newest(prev + [p] + rest, MaxTrail)
  {
    if |prev| == MaxTrail {
      assert Appended(prev, p) + rest == (prev + [p] + rest)[1..];
    } else {
      assert Appended(prev, p) == prev + [p];
    }
  }

  /** A JavaScript number, as far as the prune needs it: NaN or a finite value. */
  datatype JsNumber = NaN | Finite(v: real)

  /** Subtraction; NaN in, NaN out. */
  function Minus(a: JsNumber, b: JsNumber): JsNumber
  {
    if a.NaN? || b.NaN? then NaN else Finite(a.v - b.v)
  }

  /** `a < b`; every comparison with NaN is false. */
  predicate Less(a: JsNumber, b: JsNumber)
  {
    a.Finite? && b.Finite? && a.v < b.v
  }

  /** `Number(id)` for a trail id. The id reads "<time>-<random>", which is not
      numeric text because of the inner '-', so it converts to NaN. */
  const IdAsNumber: JsNumber := NaN

  /** The age test of the periodic prune, `Date.now() - item.id < 200`: the
      subtraction coerces the id to NaN, so the test fails for every point. */
  function YoungAsWritten(now: int, p: TrailPoint): (r: bool)
    ensures !r
  {
    Less(Minus(Finite(now as real), IdAsNumber), Finite(200.0))
  }

  /** The prune as written empties the trail. */
  lemma PruneAsWrittenEmpties(trail: seq<TrailPoint>, now: int)
    ensures Filter(trail, p => YoungAsWritten(now, p)) == []
  {
    var kept := Filter(trail, p => YoungAsWritten(now, p));
    assert forall i :: 0 <= i < |kept| ==> kept[i] in kept;
  }

  class Cursor {
    var position: Position
    var isHovering: bool
    var isClicking: bool
    var isVisible: bool
    var trail: seq<TrailPoint>

    ghost predicate Valid()
      reads this
    {
      |trail| <= MaxTrail
    }

    constructor ()
      ensures Valid()
      ensures position == Position(0, 0) && trail == []
      ensures !isHovering && !isClicking && !isVisible
    {
      position := Position(0, 0);
      isHovering := false;
      isClicking := false;
      isVisible := false;
      trail := [];
    }

    /** `handleMouseMove`; `id` is the key the handler builds for the new point. */
    method MouseMove(clientX: int, clientY: int, id: string)
      requires Valid()
      modifies this
      ensures Valid()
      ensures position == Position(clientX, clientY) && isVisible
      ensures trail == Appended(old(trail), TrailPoint(clientX, clientY, id))
      ensures isHovering == old(isHovering) && isClicking == old(isClicking)
    {
      position := Position(clientX, clientY);
      isVisible := true;
      var newTrail := trail + [TrailPoint(clientX, clientY, id)];
      if |newTrail| > MaxTrail {
        newTrail := newTrail[1..];
      }
      trail := newTrail;
    }

    method MouseDown()
      modifies this
      ensures isClicking
      ensures position == old(position) && trail == old(trail)
      ensures isHovering == old(isHovering) && isVisible == old(isVisible)
    {
      isClicking := true;
    }

    method MouseUp()
      modifies this
      ensures !isClicking
      ensures position == old(position) && trail == old(trail)
      ensures isHovering == old(isHovering) && isVisible == old(isVisible)
    {
      isClicking := false;
    }

    method MouseLeave()
      modifies this
      ensures !isVisible
      ensures position == old(position) && trail == old(trail)
      ensures isHovering == old(isHovering) && isClicking == old(isClicking)
    {
      isVisible := false;
    }

    method MouseEnter()
      modifies this
      ensures isVisible
      ensures position == old(position) && trail == old(trail)
      ensures isHovering == old(isHovering) && isClicking == old(isClicking)
    {
      isVisible := true;
    }

    /** `checkHover`; `overHoverable` says whether the target lies inside a link,
        a button or an element marked hoverable. */
    method MouseOver(overHoverable: bool)
      modifies this
      ensures isHovering == overHoverable
      ensures position == old(position) && trail == old(trail)
      ensures isClicking == old(isClicking) && isVisible == old(isVisible)
    {
      isHovering := overHoverable;
    }

    /** The periodic prune, with the age test `young` as a parameter. */
    method Prune(young: TrailPoint -> bool)
      requires Valid()
      modifies this
      ensures Valid()
      ensures trail == Filter(old(trail), young)
      ensures SubsequenceOf(trail, old(trail)) && |trail| <= |old(trail)|
      ensures position == old(position) && isHovering == old(isHovering)
      ensures isClicking == old(isClicking) && isVisible == old(isVisible)
    {
      trail := Filter(trail, young);
    }
  }
}
