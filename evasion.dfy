/**
 * The second screen, TheQuestion: every time the pointer reaches the "No"
 * button (`moveNo`), "Yes" grows, "No" shrinks and "No" jumps to a random
 * spot of the window.
 */
module Evasion {
  import opened Wrappers

  const YES_STEP: real := 0.25
  const YES_MAX: real := 3.0
  const NO_STEP: real := 0.08
  const NO_MIN: real := 0.4
  /** The room kept free to the right of and below the jumped "No" button, in CSS pixels. */
  const NO_WIDTH: int := 120
  const NO_HEIGHT: int := 60

  /** A value of `Math.random()`. */
  type Fraction = r: real | 0.0 <= r < 1.0

  function Min(a: real, b: real): (m: real)
    ensures m <= a && m <= b && (m == a || m == b)
  {
    if a <= b then a else b
  }

  function Max(a: real, b: real): (m: real)
    ensures m >= a && m >= b && (m == a || m == b)
  {
    if a >= b then a else b
  }

  /** `s => Math.min(s + 0.25, 3)`: one step up, never past the cap. */
  function Grow(s: real): (r: real)
    ensures r <= YES_MAX
    ensures s <= YES_MAX ==> s <= r
    ensures r - s <= YES_STEP
    ensures r == YES_MAX <==> s + YES_STEP >= YES_MAX
    ensures r < YES_MAX ==> r == s + YES_STEP
  {
    Min(s + YES_STEP, YES_MAX)
  }

  /** `s => Math.max(s - 0.08, 0.4)`: one step down, never below the floor. */
  function Shrink(s: real): (r: real)
    ensures r >= NO_MIN
    ensures s >= NO_MIN ==> r <= s
    ensures s - r <= NO_STEP
    ensures r == NO_MIN <==> s - NO_STEP <= NO_MIN
    ensures r > NO_MIN ==> r == s - NO_STEP
  {
    Max(s - NO_STEP, NO_MIN)
  }

  /** `window.innerWidth` and `window.innerHeight` when the trigger fires. */
  datatype Viewport = Viewport(innerWidth: int, innerHeight: int)

  /** The two `Math.random()` draws of one trigger. */
  datatype Draw = Draw(rx: Fraction, ry: Fraction)

  datatype Point = Point(x: real, y: real)

  /**
   * A random fraction of `extent`: inside [0, extent) when the extent is
   * positive, 0 when it is 0, and inside (extent, 0] when it is negative.
   */
  function Scaled(r: Fraction, extent: int): (v: real)
    ensures extent > 0 ==> 0.0 <= v < extent as real
    ensures extent == 0 ==> v == 0.0
    ensures extent < 0 ==> extent as real < v <= 0.0
  {
    var e := extent as real;
    assert e - r * e == (1.0 - r) * e;
    SignOfProduct(r, e);
    SignOfProduct(1.0 - r, e);
    r * e
  }

  /** The sign of a product of reals follows from the signs of its factors. */
  lemma SignOfProduct(a: real, b: real)
    ensures a >= 0.0 && b >= 0.0 ==> a * b >= 0.0
    ensures a > 0.0 && b > 0.0 ==> a * b > 0.0
    ensures a >= 0.0 && b <= 0.0 ==> a * b <= 0.0
    ensures a > 0.0 && b < 0.0 ==> a * b < 0.0
  {
  }

  /**
   * Where "No" jumps: `x = Math.random() * (innerWidth - 120)`,
   * `y = Math.random() * (innerHeight - 60)`. In a window larger than the
   * button the point leaves the button's room on screen; in a narrower or
   * lower one it lies at or left of / above the window's origin.
   */
  function Place(vp: Viewport, d: Draw): (p: Point)
    ensures vp.innerWidth > NO_WIDTH ==> 0.0 <= p.x < (vp.innerWidth - NO_WIDTH) as real
    ensures vp.innerHeight > NO_HEIGHT ==> 0.0 <= p.y < (vp.innerHeight - NO_HEIGHT) as real
    ensures vp.innerWidth <= NO_WIDTH ==> (vp.innerWidth - NO_WIDTH) as real <= p.x <= 0.0
    ensures vp.innerHeight <= NO_HEIGHT ==> (vp.innerHeight - NO_HEIGHT) as real <= p.y <= 0.0
  {
    Point(Scaled(d.rx, vp.innerWidth - NO_WIDTH), Scaled(d.ry, vp.innerHeight - NO_HEIGHT))
  }

  /** The state of one mount of TheQuestion; `noPos == None` is the docked "No" button. */
  datatype EvasionState = EvasionState(yesScale: real, noScale: real, noPos: Option<Point>)

  const Initial: EvasionState := EvasionState(1.0, 1.0, None)

  /** Both scales inside the bounds the clamps keep them in. */
  ghost predicate InRange(s: EvasionState) {
    1.0 <= s.yesScale <= YES_MAX && NO_MIN <= s.noScale <= 1.0
  }

  /** One pointer encounter with the "No" button (mouse-enter or click). */
  datatype Encounter = Encounter(viewport: Viewport, draw: Draw)

  /**
   * `moveNo`: the button leaves its dock (or its last spot) for a fresh
   * point, and the two scales each take one clamped step, in range and
   * in their own direction.
   */
  function Trigger(s: EvasionState, e: Encounter): (r: EvasionState)
    ensures r.noPos == Some(Place(e.viewport, e.draw))
    ensures InRange(s) ==> InRange(r) && s.yesScale <= r.yesScale && r.noScale <= s.noScale
  {
    EvasionState(Grow(s.yesScale), Shrink(s.noScale), Some(Place(e.viewport, e.draw)))
  }

  /** The state after a sequence of encounters, oldest first. */
  function Run(s: EvasionState, es: seq<Encounter>): EvasionState
    decreases |es|
  {
    if es == [] then s else Trigger(Run(s, es[..|es| - 1]), es[|es| - 1])
  }

  /** The "Yes" scale after `n` triggers from 1. */
  function YesAfter(n: nat): real {
    if n == 0 then 1.0 else Grow(YesAfter(n - 1))
  }

  /** The "No" scale after `n` triggers from 1. */
  function NoAfter(n: nat): real {
    if n == 0 then 1.0 else Shrink(NoAfter(n - 1))
  }

  /** Closed forms: after n triggers "Yes" is min(1 + 0.25 n, 3) and "No" is max(1 - 0.08 n, 0.4). */
  lemma {:induction false} ScalesClosedForm(n: nat)
    ensures YesAfter(n) == Min(1.0 + YES_STEP * n as real, YES_MAX)
    ensures NoAfter(n) == Max(1.0 - NO_STEP * n as real, NO_MIN)
  {
    if n > 0 {
      ScalesClosedForm(n - 1);
    }
  }

  /** Both scales are saturated after exactly 8 triggers: still moving before, fixed at (3, 0.4) from then on. */
  lemma SaturatesAtEight(n: nat)
    ensures n >= 8 ==> YesAfter(n) == YES_MAX && NoAfter(n) == NO_MIN
    ensures n < 8 ==> YesAfter(n) < YES_MAX && NoAfter(n) > NO_MIN
  {
    ScalesClosedForm(n);
  }

  /** One trigger from the start gives (1.25, 0.92). */
  lemma FirstTrigger(e: Encounter)
    ensures Trigger(Initial, e).yesScale == 1.25 && Trigger(Initial, e).noScale == 0.92
  {
  }

  /**
   * A mount that has seen `es`: the scales are the n-step values for
   * n = |es|, and "No" is docked exactly when nothing has happened yet,
   * otherwise at the spot drawn by the latest encounter.
   */
  lemma {:induction false} RunFromInitial(es: seq<Encounter>)
    ensures Run(Initial, es).yesScale == YesAfter(|es|)
    ensures Run(Initial, es).noScale == NoAfter(|es|)
    ensures Run(Initial, es).noPos.None? <==> es == []
    ensures es != [] ==> Run(Initial, es).noPos == Some(Place(es[|es| - 1].viewport, es[|es| - 1].draw))
    decreases |es|
  {
    if es != [] {
      RunFromInitial(es[..|es| - 1]);
    }
  }

  /**
   * Along any run from an in-range state the scales never reverse and stay
   * in range, and once "No" has left its dock it never returns to it.
   */
  lemma {:induction false} RunMonotone(s: EvasionState, es: seq<Encounter>, k: nat)
    requires InRange(s)
    requires k <= |es|
    ensures InRange(Run(s, es[..k])) && InRange(Run(s, es))
    ensures Run(s, es[..k]).yesScale <= Run(s, es).yesScale
    ensures Run(s, es).noScale <= Run(s, es[..k]).noScale
    ensures Run(s, es[..k]).noPos.Some? ==> Run(s, es).noPos.Some?
    decreases |es|
  {
    if k < |es| {
      var init := es[..|es| - 1];
      assert init[..k] == es[..k];
      RunMonotone(s, init, k);
    } else {
      assert es[..k] == es;
      if es != [] {
        RunMonotone(s, es[..|es| - 1], |es| - 1);
        assert es[..|es| - 1][..|es| - 1] == es[..|es| - 1];
      }
    }
  }

  /** A "No" button on screen: the inline one beside "Yes", or the fixed-position one. */
  datatype NoButton = Docked | Floating(at: Point)

  /**
   * The two conditional renderings `{!noPos && …}` and `{noPos && …}`:
   * exactly one "No" button is on screen, docked while there is no
   * position and floating at the position once there is one. Both carry
   * `moveNo` as their mouse-enter and click handler.
   */
  function NoButtons(noPos: Option<Point>): (r: seq<NoButton>)
    ensures |r| == 1
    ensures r[0].Docked? <==> noPos.None?
    ensures noPos.Some? ==> r[0] == Floating(noPos.value)
  {
    (if noPos.None? then [Docked] else []) + (if noPos.Some? then [Floating(noPos.value)] else [])
  }

  /** One mount of TheQuestion: its three `useState` slots. */
  class TheQuestion {
    var yesScale: real
    var noScale: real
    var noPos: Option<Point>
    /** The encounters this mount has seen, oldest first. */
    ghost var encounters: seq<Encounter>

    function State(): EvasionState
      reads this
    {
      EvasionState(yesScale, noScale, noPos)
    }

    ghost predicate Valid()
      reads this
    {
      State() == Run(Initial, encounters)
    }

    /** A fresh mount starts docked at scale 1, whatever an earlier mount went through. */
    constructor ()
      ensures Valid() && encounters == []
      ensures State() == Initial
    {
      yesScale, noScale, noPos := 1.0, 1.0, None;
      encounters := [];
    }

    /** `moveNo`, fired by mouse-enter or click on either "No" button. */
    method MoveNo(vp: Viewport, d: Draw)
      requires Valid()
      modifies this
      ensures Valid() && encounters == old(encounters) + [Encounter(vp, d)]
      ensures State() == Trigger(old(State()), Encounter(vp, d))
      ensures yesScale == YesAfter(|encounters|) && noScale == NoAfter(|encounters|)
      ensures old(yesScale) <= yesScale <= YES_MAX && NO_MIN <= noScale <= old(noScale)
      ensures noPos.Some?
    {
      ghost var before, e := encounters, Encounter(vp, d);
      RunFromInitial(before);
      var maxX := vp.innerWidth - NO_WIDTH;
      var maxY := vp.innerHeight - NO_HEIGHT;
      noPos := Some(Point(d.rx * maxX as real, d.ry * maxY as real));
      yesScale := Min(yesScale + YES_STEP, YES_MAX);
      noScale := Max(noScale - NO_STEP, NO_MIN);
      encounters := encounters + [e];
      assert encounters[..|encounters| - 1] == before;
      assert noPos.value == Point(Scaled(d.rx, maxX), Scaled(d.ry, maxY)) == Place(vp, d);
      RunFromInitial(encounters);
    }
  }
}
