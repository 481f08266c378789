/**
 * `Movement_Component` of maze_game/movement_component.js: a maximum speed,
 * an acceleration, a latched `on_ground` flag and a lazily created direction
 * vector, driving the velocity of a physics body.
 *
 * The physics body is the engine's object: only its id and its velocity,
 * which the component updates in place, are modelled. Contact events are
 * inputs: the contact normal `ni` and the id of the contact's body `bi`.
 */
module Movement {
  import opened Wrappers
  import opened Vectors

  /** The default `#max_speed`. */
  const DefaultMaxSpeed: real := 5.0

  /** The part of a physics body the component reads and writes. */
  class Body {
    const id: int
    var velocity: Vec3

    constructor(id: int, velocity: Vec3)
      ensures this.id == id && this.velocity == velocity
    {
      this.id := id;
      this.velocity := velocity;
    }
  }

  /**
   * The normal `on_collide` tests: a clone of `ni`. When the body is the
   * contact's `bi` the clone is sent `negate()`, but the engine's `negate`
   * writes the negation into a new vector and returns it, and that result
   * is dropped, so the clone keeps `ni`'s value whoever `bi` is.
   */
  function ContactNormal(ni: Vec3, biId: int, bodyId: int): (n: Vec3)
    ensures n == ni
    ensures biId == bodyId ==> n != Negate(ni) || ni == Zero
  {
    var normal := ni;
    var dropped := if biId == bodyId then Negate(normal) else normal;
    normal
  }

  /** A contact counts as ground when the normal points down by more than half. */
  predicate Grounding(n: Vec3) {
    n.y < -0.5
  }

  /**
   * Ground is latched exactly when the raw normal `ni` points down by more
   * than half, whether the body is the contact's `bi` or the other party.
   */
  lemma GroundingOfContact(ni: Vec3, biId: int, bodyId: int)
    ensures Grounding(ContactNormal(ni, biId, bodyId)) <==> ni.y < -0.5
    ensures Grounding(ContactNormal(ni, biId, bodyId)) == Grounding(ContactNormal(ni, bodyId, bodyId))
  {
  }

  /**
   * With this body as `bi`, an upward `ni` does not latch ground and a
   * downward one does: the same outcome as for the other party.
   */
  lemma BiDoesNotFlip(bodyId: int)
    ensures !Grounding(ContactNormal(Vec3(0.0, 1.0, 0.0), bodyId, bodyId))
    ensures Grounding(ContactNormal(Vec3(0.0, -1.0, 0.0), bodyId, bodyId))
  {
  }

  /** `velocity.length() < max`, stated without a square root: a length is never negative. */
  predicate BelowSpeed(v: Vec3, max: real) {
    max > 0.0 && Norm2(v) < max * max
  }

  /**
   * The velocity after one `physics_update` of a component with a body:
   * unchanged for a zero-length direction or at or above the maximum speed,
   * otherwise increased by `acceleration * direction`.
   */
  function NextVelocity(v: Vec3, dir: Vec3, acceleration: real, max: real): (v': Vec3) {
    if Norm2(dir) == 0.0 then v
    else if BelowSpeed(v, max) then Add(v, Scale(dir, acceleration))
    else v
  }

  /** A zero-length direction leaves the velocity alone, however often the update runs. */
  lemma {:induction false} IdleUpdatesIdempotent(v: Vec3, dir: Vec3, acceleration: real, max: real, n: nat)
    requires Norm2(dir) == 0.0
    ensures Iterate(v, dir, acceleration, max, n) == v
  {
    if n > 0 {
      IdleUpdatesIdempotent(v, dir, acceleration, max, n - 1);
    }
  }

  /** The direction `get_direction` creates is the zero vector, so until it is set the body is never pushed. */
  lemma DefaultDirectionIdles(v: Vec3, acceleration: real, max: real, n: nat)
    ensures Iterate(v, Zero, acceleration, max, n) == v
  {
    IdleUpdatesIdempotent(v, Zero, acceleration, max, n);
  }

  /** n updates in a row with the same direction. */
  function Iterate(v: Vec3, dir: Vec3, acceleration: real, max: real, n: nat): (v': Vec3) {
    if n == 0 then v else NextVelocity(Iterate(v, dir, acceleration, max, n - 1), dir, acceleration, max)
  }

  /** Once at or above the maximum speed the velocity is frozen, whatever the direction. */
  lemma {:induction false} FastStaysPut(v: Vec3, dir: Vec3, acceleration: real, max: real, n: nat)
    requires !BelowSpeed(v, max)
    ensures Iterate(v, dir, acceleration, max, n) == v
  {
    if n > 0 {
      FastStaysPut(v, dir, acceleration, max, n - 1);
    }
  }

  /**
   * There is no clamp: an update just below the maximum speed can leave the
   * body faster than the maximum.
   */
  lemma NoClamp()
    ensures var v' := NextVelocity(Vec3(4.5, 0.0, 0.0), Vec3(1.0, 0.0, 0.0), 1.0, DefaultMaxSpeed);
      BelowSpeed(Vec3(4.5, 0.0, 0.0), DefaultMaxSpeed) && !BelowSpeed(v', DefaultMaxSpeed)
  {
    var v' := NextVelocity(Vec3(4.5, 0.0, 0.0), Vec3(1.0, 0.0, 0.0), 1.0, DefaultMaxSpeed);
    assert v' == Vec3(5.5, 0.0, 0.0);
  }

  lemma NextIdle(v: Vec3, dir: Vec3, acceleration: real, max: real)
    requires Norm2(dir) == 0.0
    ensures NextVelocity(v, dir, acceleration, max) == v
  {
  }

  lemma NextPush(v: Vec3, dir: Vec3, acceleration: real, max: real)
    requires Norm2(dir) != 0.0 && BelowSpeed(v, max)
    ensures NextVelocity(v, dir, acceleration, max) == Add(v, Scale(dir, acceleration))
  {
  }

  lemma NextFast(v: Vec3, dir: Vec3, acceleration: real, max: real)
    requires !BelowSpeed(v, max)
    ensures NextVelocity(v, dir, acceleration, max) == v
  {
  }

  class MovementComponent {
    var body: Body?
    /** `#max_speed`: set once, never reassigned. */
    const maxSpeed: real
    var acceleration: real
    var onGround: bool
    var direction: Option<Vec3>

    constructor()
      ensures body == null && maxSpeed == DefaultMaxSpeed && acceleration == 1.0
      ensures !onGround && direction == None
    {
      body := null;
      maxSpeed := DefaultMaxSpeed;
      acceleration := 1.0;
      onGround := false;
      direction := None;
    }

    /** `get_speed`: the private maximum speed. */
    function GetSpeed(): (s: real)
      ensures s == maxSpeed
    {
      maxSpeed
    }

    /** `get_direction`: the stored direction, created as a zero vector on first use. */
    method GetDirection() returns (d: Vec3)
      modifies this
      ensures old(direction).Some? ==> d == old(direction).value && direction == old(direction)
      ensures old(direction).None? ==> d == Zero && direction == Some(Zero)
      ensures body == old(body) && acceleration == old(acceleration) && onGround == old(onGround)
    {
      if direction.Some? {
        return direction.value;
      }
      direction := Some(Zero);
      d := Zero;
    }

    /**
     * `on_collide`: latches `on_ground` when the contact's `ni` points down;
     * the discarded `negate()` leaves the tested normal at `ni` even when
     * this body is `bi`. Without a body the read of its id fails (`ok` is
     * false) and nothing changes.
     */
    method OnCollide(ni: Vec3, biId: int) returns (ok: bool)
      modifies this
      ensures ok <==> old(body) != null
      ensures ok ==> onGround == (old(onGround) || ni.y < -0.5)
      ensures !ok ==> onGround == old(onGround)
      ensures body == old(body) && acceleration == old(acceleration) && direction == old(direction)
    {
      if body == null {
        return false;
      }
      var normal := ContactNormal(ni, biId, body.id);
      if normal.y < -0.5 {
        onGround := true;
      }
      ok := true;
    }

    /**
     * The velocity step of `physics_update` for a body whose direction is
     * `dir`: nothing for a zero-length direction, else a push of
     * `acceleration * dir` unless the body is at or above the maximum speed.
     */
    method Accelerate(b: Body, dir: Vec3)
      modifies b
      ensures b.velocity == NextVelocity(old(b.velocity), dir, acceleration, maxSpeed)
    {
      if Norm2(dir) == 0.0 {
        NextIdle(b.velocity, dir, acceleration, maxSpeed);
      } else {
        var change := Scale(dir, acceleration);
        if BelowSpeed(b.velocity, GetSpeed()) {
          NextPush(b.velocity, dir, acceleration, maxSpeed);
          b.velocity := Add(b.velocity, change);
        } else {
          NextFast(b.velocity, dir, acceleration, maxSpeed);
        }
      }
    }

    /**
     * `physics_update`: without a body nothing happens; otherwise the
     * direction is fetched (and created if missing) and the body's velocity
     * becomes `NextVelocity` of the old one.
     */
    method PhysicsUpdate()
      modifies this, body
      ensures body == old(body)
      ensures old(body) == null ==> direction == old(direction)
      ensures old(body) != null ==> direction == Some(if old(direction).Some? then old(direction).value else Zero)
      ensures old(body) != null ==> body.velocity == NextVelocity(old(body.velocity), direction.value, acceleration, maxSpeed)
      ensures acceleration == old(acceleration) && onGround == old(onGround)
    {
      if body != null {
        var b := body;
        var dir := GetDirection();
        Accelerate(b, dir);
      }
    }
  }
}
