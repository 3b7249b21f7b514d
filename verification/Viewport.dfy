/** Pan and zoom of the design canvas: the transform updated in place, and the world point that stays put. */
module Viewport {

  /** Screen = offset + scale × world. */
  datatype Transform = Transform(x: real, y: real, scale: real)

  datatype Point = Point(x: real, y: real)

  function Clamp(lo: real, hi: real, s: real): real {
    var atLeast := if lo >= s then lo else s;
    if hi <= atLeast then hi else atLeast
  }

  /** A scale inside the limits is the one asked for; beyond them it is the limit. */
  lemma ClampKeepsWithin(lo: real, hi: real, s: real)
    requires lo <= hi
    ensures lo <= s <= hi ==> Clamp(lo, hi, s) == s
    ensures s <= lo ==> Clamp(lo, hi, s) == lo
    ensures hi <= s ==> Clamp(lo, hi, s) == hi
  {
  }

  /** On one axis: the world coordinate seen at screen position `p`, when the offset is `x`. */
  function Seen(p: real, x: real, scale: real): real
    requires scale > 0.0
  {
    (p - x) / scale
  }

  /** On one axis: the offset that shows world coordinate `w` at screen position `p`. */
  function Shown(w: real, p: real, scale: real): real {
    p - w * scale
  }

  /** On one axis: the offset after the distance to `p` is stretched by `k`. */
  function Stretched(p: real, x: real, k: real): real {
    p - (p - x) * k
  }

  /** The world point shown at a screen position. */
  ghost function WorldAt(t: Transform, px: real, py: real): Point
    requires t.scale > 0.0
  {
    Point(Seen(px, t.x, t.scale), Seen(py, t.y, t.scale))
  }

  /** The transform that shows the world point `w` at the screen position, at a given scale. */
  ghost function Showing(w: Point, px: real, py: real, scale: real): Transform {
    Transform(Shown(w.x, px, scale), Shown(w.y, py, scale), scale)
  }

  /** `t` rescaled to `next` about a screen position. */
  ghost function Rescaled(t: Transform, px: real, py: real, next: real): Transform
    requires t.scale > 0.0
  {
    Showing(WorldAt(t, px, py), px, py, next)
  }

  lemma SeenShown(w: real, p: real, scale: real)
    requires scale > 0.0
    ensures Seen(p, Shown(w, p, scale), scale) == w
  {
    assert (w * scale) / scale == w;
  }

  lemma WorldAtShowing(w: Point, px: real, py: real, scale: real)
    requires scale > 0.0
    ensures WorldAt(Showing(w, px, py, scale), px, py) == w
  {
    SeenShown(w.x, px, scale);
    SeenShown(w.y, py, scale);
  }

  lemma StretchedIsShown(p: real, x: real, scale: real, next: real)
    requires scale > 0.0
    ensures Stretched(p, x, next / scale) == Shown(Seen(p, x, scale), p, next)
  {
    assert (p - x) * (next / scale) == (p - x) / scale * next;
  }

  /** How the code computes it: the offset from the cursor is stretched by the change of scale. */
  function Zoomed(t: Transform, px: real, py: real, next: real): Transform
    requires t.scale > 0.0
  {
    var k := next / t.scale;
    Transform(Stretched(px, t.x, k), Stretched(py, t.y, k), next)
  }

  lemma ZoomIsRescale(t: Transform, px: real, py: real, next: real)
    requires t.scale > 0.0 && next > 0.0
    ensures Zoomed(t, px, py, next) == Rescaled(t, px, py, next)
    ensures WorldAt(Rescaled(t, px, py, next), px, py) == WorldAt(t, px, py)
  {
    StretchedIsShown(px, t.x, t.scale, next);
    StretchedIsShown(py, t.y, t.scale, next);
    WorldAtShowing(WorldAt(t, px, py), px, py, next);
  }

  class View {
    const left: real
    const top: real
    const minScale: real
    const maxScale: real
    var tf: Transform
    var gsBase: real

    ghost predicate Valid()
      reads this
    {
      0.0 < minScale <= maxScale && minScale <= tf.scale <= maxScale && gsBase > 0.0
    }

    constructor (left: real, top: real, minScale: real, maxScale: real)
      requires 0.0 < minScale <= 1.0 <= maxScale
      ensures Valid() && tf == Transform(0.0, 0.0, 1.0)
    {
      this.left, this.top, this.minScale, this.maxScale := left, top, minScale, maxScale;
      tf := Transform(0.0, 0.0, 1.0);
      gsBase := 1.0;
    }

    /** The world point under the cursor stays under the cursor, whatever the factor; the scale is
        the asked-for one, clamped. */
    method ZoomAt(cx: real, cy: real, factor: real)
      requires Valid()
      modifies this`tf
      ensures Valid()
      ensures tf == Rescaled(old(tf), cx - left, cy - top, Clamp(minScale, maxScale, old(tf).scale * factor))
      ensures WorldAt(tf, cx - left, cy - top) == WorldAt(old(tf), cx - left, cy - top)
      ensures minScale <= old(tf).scale * factor <= maxScale ==> tf.scale == old(tf).scale * factor
    {
      var px, py := cx - left, cy - top;
      var t := tf;
      var next := Clamp(minScale, maxScale, t.scale * factor);
      ZoomIsRescale(t, px, py, next);
      tf := Zoomed(t, px, py, next);
    }

    /** Every screen position shows what stood `dx` to its right and `dy` below it. */
    method Pan(dx: real, dy: real)
      requires Valid()
      modifies this`tf
      ensures Valid() && tf == Transform(old(tf).x - dx, old(tf).y - dy, old(tf).scale)
      ensures forall px, py :: WorldAt(tf, px, py) == WorldAt(old(tf), px + dx, py + dy)
    {
      tf := tf.(x := tf.x - dx, y := tf.y - dy);
    }

    method GestureStart()
      requires Valid()
      modifies this`gsBase
      ensures Valid() && gsBase == tf.scale
    {
      gsBase := tf.scale;
    }

    /** The scale follows the gesture from where it started, not from the last event. */
    method GestureChange(cx: real, cy: real, scale: real)
      requires Valid()
      modifies this`tf
      ensures Valid()
      ensures tf == Rescaled(old(tf), cx - left, cy - top, Goal(minScale, maxScale, gsBase, scale))
      ensures minScale <= gsBase * scale <= maxScale ==> tf.scale == gsBase * scale
    {
      assert tf.scale * ((gsBase * scale) / tf.scale) == gsBase * scale;
      ZoomAt(cx, cy, (gsBase * scale) / tf.scale);
    }
  }

  // ---------------------------------------------------------------- histories

  /** Rescaling twice about one position is rescaling once. */
  lemma RescaleTwice(t: Transform, px: real, py: real, first: real, second: real)
    requires t.scale > 0.0 && first > 0.0
    ensures Rescaled(Rescaled(t, px, py, first), px, py, second) == Rescaled(t, px, py, second)
  {
    WorldAtShowing(WorldAt(t, px, py), px, py, first);
  }

  /** The scale a gesture event asks for. */
  function Goal(lo: real, hi: real, base: real, scale: real): real {
    Clamp(lo, hi, base * scale)
  }

  /** The transform after events at one position that ask for `goals`, one after the other. */
  ghost function Pinched(t: Transform, px: real, py: real, goals: seq<real>): (r: Transform)
    requires t.scale > 0.0 && forall i :: 0 <= i < |goals| ==> goals[i] > 0.0
    ensures r.scale > 0.0
  {
    if goals == [] then t
    else Rescaled(Pinched(t, px, py, goals[..|goals| - 1]), px, py, goals[|goals| - 1])
  }

  /** A pinch held at one position is history-free: the transform is the one its last event alone
      would have produced from the start of the gesture. */
  lemma {:induction false} PinchIsHistoryFree(t: Transform, px: real, py: real, goals: seq<real>)
    requires t.scale > 0.0 && goals != [] && forall i :: 0 <= i < |goals| ==> goals[i] > 0.0
    ensures Pinched(t, px, py, goals) == Rescaled(t, px, py, goals[|goals| - 1])
  {
    var last := |goals| - 1;
    var before := goals[..last];
    if before == [] {
    } else {
      PinchIsHistoryFree(t, px, py, before);
      RescaleTwice(t, px, py, before[last - 1], goals[last]);
    }
  }
}
