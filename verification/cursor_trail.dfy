/** The pointer trail of src/components/CursorTrail.tsx: a bounded list of
    particles that every pointer move appends to, a periodic sweep that evicts
    particles by age, an `isMoving` flag cleared by a debounced timeout, and the
    sparkles drawn from the newest particles while the pointer moves.
    `Date.now()` and the pointer coordinates arrive as event fields; the random
    part of a particle id arrives as `jitter`. */
module CursorTrail {
  import opened Seqs

  /** A move keeps at most this many of the previous particles (`slice(-12)`). */
  const KeptOnMove: nat := 12
  /** A sweep evicts particles this many milliseconds old or older. */
  const MaxAgeMs: int := 1000
  /** Sparkles are drawn from at most this many of the newest particles (`slice(-3)`). */
  const SparkleCount: nat := 3

  datatype Point = Point(x: real, y: real)

  datatype Particle = Particle(x: real, y: real, id: real, timestamp: int)

  datatype Trail = Trail(
    mouse: Point,
    particles: seq<Particle>,
    isMoving: bool,
    /** the 100 ms timeout that clears `isMoving` is scheduled */
    moveTimeoutPending: bool)

  datatype Event =
    | MouseMove(x: real, y: real, now: int, jitter: real)
    | MoveTimeout
    | Sweep(now: int)

  function Init(): Trail
  {
    Trail(Point(0.0, 0.0), [], false, false)
  }

  /** `[...prev.slice(-12), p]`: the newest particle last, after the most recent
      (at most twelve) previous ones in their original order. */
  function AddParticle(prev: seq<Particle>, p: Particle): (r: seq<Particle>)
    ensures |r| <= KeptOnMove + 1
    ensures |r| == Min(|prev|, KeptOnMove) + 1
    ensures r[|r| - 1] == p
    ensures r[..|r| - 1] == prev[|prev| - (|r| - 1)..]
  {
    SliceFromEnd(prev, KeptOnMove) + [p]
  }

  predicate IsFresh(p: Particle, now: int)
  {
    now - p.timestamp < MaxAgeMs
  }

  /** The periodic cleanup: keep exactly the particles younger than the age
      limit at `now`, in order. */
  function SweepParticles(prev: seq<Particle>, now: int): (r: seq<Particle>)
    ensures |r| <= |prev|
    ensures forall i :: 0 <= i < |r| ==> r[i] in prev && now - r[i].timestamp < MaxAgeMs
    ensures forall i :: 0 <= i < |prev| && now - prev[i].timestamp < MaxAgeMs ==> prev[i] in r
    ensures IsSubsequence(r, prev)
    ensures forall x :: multiset(r)[x] == if now - x.timestamp < MaxAgeMs then multiset(prev)[x] else 0
  {
    var keep := (p: Particle) => IsFresh(p, now);
    FilterIsSubsequence(prev, keep);
    FilterCounts(prev, keep);
    Filter(prev, keep)
  }

  /** Sweeping twice at the same instant removes nothing more. */
  lemma SweepIdempotent(prev: seq<Particle>, now: int)
    ensures SweepParticles(SweepParticles(prev, now), now) == SweepParticles(prev, now)
  {
    FilterIdempotent(prev, (p: Particle) => IsFresh(p, now));
  }

  /** The sparkles rendered by `isMoving && trails.slice(-3).map(...)`: the
      newest particles, none while the pointer rests. */
  function Sparkles(t: Trail): (r: seq<Particle>)
    ensures |r| <= SparkleCount
    ensures !t.isMoving ==> r == []
    ensures t.isMoving ==> |r| == Min(SparkleCount, |t.particles|)
    ensures r == t.particles[|t.particles| - |r|..]
  {
    if t.isMoving then SliceFromEnd(t.particles, SparkleCount) else []
  }

  function Step(t: Trail, e: Event): Trail
  {
    match e
    case MouseMove(x, y, now, jitter) =>
      // the earlier timeout is cleared and a new one scheduled
      Trail(Point(x, y), AddParticle(t.particles, Particle(x, y, now as real + jitter, now)), true, true)
    case MoveTimeout =>
      if t.moveTimeoutPending then t.(isMoving := false, moveTimeoutPending := false) else t
    case Sweep(now) =>
      t.(particles := SweepParticles(t.particles, now))
  }

  /** A move records the pointer, appends a particle stamped with the event's
      position and time, and raises `isMoving`. */
  lemma MoveAppendsParticle(t: Trail, x: real, y: real, now: int, jitter: real)
    ensures var r := Step(t, MouseMove(x, y, now, jitter));
      && r.mouse == Point(x, y)
      && r.isMoving
      && |r.particles| >= 1
      && var last := r.particles[|r.particles| - 1];
      last.x == x && last.y == y && last.timestamp == now
  {
  }

  /** Only the pending timeout lowers `isMoving`, only a move raises it, and a
      sweep touches nothing but the particle list. */
  lemma MovingFlagTransitions(t: Trail, e: Event)
    ensures t.isMoving && !Step(t, e).isMoving ==> e.MoveTimeout? && t.moveTimeoutPending
    ensures !t.isMoving && Step(t, e).isMoving ==> e.MouseMove?
    ensures e.Sweep? ==> Step(t, e) == t.(particles := Step(t, e).particles)
  {
  }

  function Run(t: Trail, events: seq<Event>): Trail
    decreases |events|
  {
    if |events| == 0 then t else Run(Step(t, events[0]), events[1..])
  }

  predicate Bounded(t: Trail)
  {
    |t.particles| <= KeptOnMove + 1 && (t.isMoving <==> t.moveTimeoutPending)
  }

  /** From the mounted state, whatever the events, the trail never holds more
      than thirteen particles and `isMoving` is raised exactly while its
      clearing timeout is pending. */
  lemma {:induction false} TrailStaysBounded(t: Trail, events: seq<Event>)
    requires Bounded(t)
    ensures Bounded(Run(t, events))
    decreases |events|
  {
    if |events| > 0 {
      TrailStaysBounded(Step(t, events[0]), events[1..]);
    }
  }
}
