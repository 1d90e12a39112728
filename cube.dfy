/** The angle arithmetic of cube/cube.js, over whole degrees: `normalizeDeg`, the snap to
    the nearest quarter turn when a drag ends, and the goal a control button animates to. */
module Cube {

  /** JavaScript's `deg % 360`: the remainder takes the sign of `deg` (it truncates toward
      zero, unlike Dafny's `%`). */
  function Rem360(deg: int): (r: int)
    ensures deg >= 0 ==> 0 <= r < 360
    ensures deg < 0 ==> -360 < r <= 0
    ensures (deg - r) % 360 == 0
  {
    if deg >= 0 then deg % 360 else -((-deg) % 360)
  }

  /** normalizeDeg: the angle brought into [-180, 180]. */
  function NormalizeDeg(deg: int): (v: int)
    ensures -180 <= v <= 180
    ensures (deg - v) % 360 == 0
    ensures -180 <= deg <= 180 ==> v == deg
  {
    var value := Rem360(deg);
    if value > 180 then value - 360
    else if value < -180 then value + 360
    else value
  }

  /** Normalizing twice is normalizing once. */
  lemma NormalizeIdempotent(deg: int)
    ensures NormalizeDeg(NormalizeDeg(deg)) == NormalizeDeg(deg)
  {
  }

  /** `Math.round(spin / 90) * 90`: the quarter turn nearest to `spin`, halves rounded up. */
  function SnapTarget(spin: int): (t: int)
    ensures t % 90 == 0
    ensures spin - 45 < t <= spin + 45
  {
    ((2 * spin + 90) / 180) * 90
  }

  /** The snapped angle is the only quarter turn within half a quarter turn above or at `spin`. */
  lemma SnapTargetUnique(spin: int, t: int)
    requires t % 90 == 0 && spin - 45 < t <= spin + 45
    ensures t == SnapTarget(spin)
  {
    var s := SnapTarget(spin);
    assert (t - s) % 90 == 0;
    assert -90 < t - s < 90;
  }

  datatype Direction = Left | Right | Up | Down

  /** directionSteps: the quarter turn each control button adds, on the x and y spins. */
  function StepX(d: Direction): int {
    match d
    case Up => -90
    case Down => 90
    case _ => 0
  }

  function StepY(d: Direction): int {
    match d
    case Left => 90
    case Right => -90
    case _ => 0
  }

  /** Where an animation ends: both targets normalized (animateTo). */
  datatype Goal = Goal(x: int, y: int)

  /** A face of the cube faces the viewer: both spins are quarter turns in [-180, 180]. */
  predicate FacingGoal(g: Goal) {
    g.x % 90 == 0 && -180 <= g.x <= 180 && g.y % 90 == 0 && -180 <= g.y <= 180
  }

  /** snapToNearest, when a drag ends. */
  function SnapGoal(spinX: int, spinY: int): (g: Goal)
    ensures FacingGoal(g)
    ensures (g.x - SnapTarget(spinX)) % 360 == 0 && (g.y - SnapTarget(spinY)) % 360 == 0
  {
    QuarterTurnGoal(SnapTarget(spinX));
    QuarterTurnGoal(SnapTarget(spinY));
    Goal(NormalizeDeg(SnapTarget(spinX)), NormalizeDeg(SnapTarget(spinY)))
  }

  /** A control button: one quarter turn on from the nearest quarter turn. */
  function ControlGoal(spinX: int, spinY: int, d: Direction): (g: Goal)
    ensures FacingGoal(g)
    ensures (g.x - (SnapTarget(spinX) + StepX(d))) % 360 == 0
    ensures (g.y - (SnapTarget(spinY) + StepY(d))) % 360 == 0
  {
    var tx, ty := SnapTarget(spinX) + StepX(d), SnapTarget(spinY) + StepY(d);
    QuarterTurnGoal(tx);
    QuarterTurnGoal(ty);
    Goal(NormalizeDeg(tx), NormalizeDeg(ty))
  }

  /** A quarter turn stays a quarter turn once normalized. */
  lemma QuarterTurnGoal(t: int)
    requires t % 90 == 0
    ensures NormalizeDeg(t) % 90 == 0
  {
    var v := NormalizeDeg(t);
    var k := (t - v) / 360;
    assert t - v == 360 * k;
    assert v == t - 90 * (4 * k);
  }
}
