// The per-tick systems of src/behavior.rs: pheromone decay, pheromone deposits,
// the choice of a heading from the pheromones in view, and the movement step.
//
// The engine's entity storage is a `Colony` object: the ant entities (Ant + Transform)
// and the pheromone entities (Pheromone + Transform) are sequences that the systems
// update in place. Spawns issued through the engine's command queue are applied when
// the system returns.
module Behavior {
  import opened Math
  import opened BehaviorRules
  import opened Components

  datatype AntEntity = AntEntity(ant: Ant, transform: Transform)

  datatype PheromoneEntity = PheromoneEntity(pheromone: Pheromone, transform: Transform)

  // ---------------------------------------------------------------- decay

  function Decayed(p: PheromoneEntity, dt: real): PheromoneEntity
  {
    p.(pheromone := p.pheromone.(intensity := p.pheromone.intensity - dt * PHEROMONE_DECAY_FACTOR))
  }

  /** Every pheromone after one decay step of length `dt`. */
  function DecayAll(ps: seq<PheromoneEntity>, dt: real): seq<PheromoneEntity>
  {
    seq(|ps|, i requires 0 <= i < |ps| => Decayed(ps[i], dt))
  }

  /** Decay lowers every intensity by exactly dt, keeps kinds and positions, and removes nothing,
      not even a pheromone whose intensity has dropped below zero. */
  lemma DecayLowersEveryIntensity(ps: seq<PheromoneEntity>, dt: real)
    ensures |DecayAll(ps, dt)| == |ps|
    ensures forall i :: 0 <= i < |ps| ==>
      && DecayAll(ps, dt)[i].pheromone.intensity == ps[i].pheromone.intensity - dt
      && DecayAll(ps, dt)[i].pheromone.kind == ps[i].pheromone.kind
      && DecayAll(ps, dt)[i].transform == ps[i].transform
  {
  }

  /** Two decay steps amount to one step over the summed time. */
  lemma {:induction false} DecayAdditive(ps: seq<PheromoneEntity>, dt1: real, dt2: real)
    ensures DecayAll(DecayAll(ps, dt1), dt2) == DecayAll(ps, dt1 + dt2)
  {
    var lhs, rhs := DecayAll(DecayAll(ps, dt1), dt2), DecayAll(ps, dt1 + dt2);
    forall i | 0 <= i < |ps|
      ensures lhs[i] == rhs[i]
    {
      assert lhs[i].pheromone.intensity == ps[i].pheromone.intensity - dt1 - dt2;
    }
  }

  // ---------------------------------------------------------------- deposits

  /** An ant deposits once its countdown is no longer positive. */
  predicate Due(a: Ant)
  {
    !(a.timeUntilPoop > 0.0)
  }

  /** The countdown step of one ant: count down while positive, otherwise restart the interval. */
  function TimerStep(e: AntEntity, dt: real): (r: AntEntity)
    ensures r == e.(ant := e.ant.(timeUntilPoop := r.ant.timeUntilPoop))
    ensures Due(e.ant) ==> r.ant.timeUntilPoop == ANT_POOP_INTERVAL && !Due(r.ant)
    ensures !Due(e.ant) && dt >= 0.0 && e.ant.speed >= 0.0 ==> r.ant.timeUntilPoop <= e.ant.timeUntilPoop
  {
    if e.ant.timeUntilPoop > 0.0 then
      e.(ant := e.ant.(timeUntilPoop := e.ant.timeUntilPoop - dt * e.ant.speed))
    else
      e.(ant := e.ant.(timeUntilPoop := ANT_POOP_INTERVAL))
  }

  /** The pheromone a due ant drops: its own kind, full intensity, at its own transform. */
  function DepositOf(e: AntEntity): PheromoneEntity
  {
    PheromoneEntity(Pheromone(PherToDrop(e.ant.state), DEPOSIT_INTENSITY), e.transform)
  }

  function TimersAdvanced(ants: seq<AntEntity>, dt: real): seq<AntEntity>
  {
    seq(|ants|, i requires 0 <= i < |ants| => TimerStep(ants[i], dt))
  }

  /** The pheromones spawned by one pass over `ants`, in iteration order. */
  function Deposits(ants: seq<AntEntity>): (r: seq<PheromoneEntity>)
    ensures |r| <= |ants|
    ensures forall i :: 0 <= i < |r| ==> r[i].pheromone.intensity == DEPOSIT_INTENSITY
    ensures forall p :: p in r ==> exists j :: 0 <= j < |ants| && Due(ants[j].ant) && p == DepositOf(ants[j])
  {
    if |ants| == 0 then []
    else
      var last := ants[|ants| - 1];
      Deposits(ants[..|ants| - 1]) + (if Due(last.ant) then [DepositOf(last)] else [])
  }

  /** The positions in `ants` of the ants that are due to deposit. */
  function DueIndices(ants: seq<AntEntity>): set<int>
  {
    set i | 0 <= i < |ants| && Due(ants[i].ant)
  }

  /** One deposit per due ant: the number spawned is the number of ants whose timer is not positive. */
  lemma {:induction false} DepositsCount(ants: seq<AntEntity>)
    ensures |Deposits(ants)| == |DueIndices(ants)|
  {
    if |ants| > 0 {
      var n := |ants| - 1;
      var prefix := ants[..n];
      DepositsCount(prefix);
      assert DueIndices(prefix) == set i | 0 <= i < n && Due(ants[i].ant);
      if Due(ants[n].ant) {
        assert DueIndices(ants) == DueIndices(prefix) + {n};
        assert n !in DueIndices(prefix);
      } else {
        assert DueIndices(ants) == DueIndices(prefix);
      }
    }
  }

  /** Every spawned pheromone comes from a due ant, carries the kind that ant drops,
      full intensity and the ant's transform; and every due ant contributes one. */
  lemma {:induction false} DepositsExact(ants: seq<AntEntity>)
    ensures forall d :: d in Deposits(ants) ==>
      exists i :: 0 <= i < |ants| && Due(ants[i].ant) && d == DepositOf(ants[i])
    ensures forall i :: 0 <= i < |ants| && Due(ants[i].ant) ==> DepositOf(ants[i]) in Deposits(ants)
  {
    if |ants| > 0 {
      var n := |ants| - 1;
      var prefix := ants[..n];
      DepositsExact(prefix);
      assert forall i :: 0 <= i < n ==> prefix[i] == ants[i];
    }
  }

  /** The positions of the due ants whose deposit is `d`. */
  function DueWithDeposit(ants: seq<AntEntity>, d: PheromoneEntity): set<int>
  {
    set i | 0 <= i < |ants| && Due(ants[i].ant) && DepositOf(ants[i]) == d
  }

  /** As a multiset the pass spawns exactly the due ants' deposits: each pheromone occurs as
      many times as there are due ants that drop it. */
  lemma {:induction false} DepositsMultiplicity(ants: seq<AntEntity>, d: PheromoneEntity)
    ensures multiset(Deposits(ants))[d] == |DueWithDeposit(ants, d)|
  {
    if |ants| > 0 {
      var n := |ants| - 1;
      var prefix := ants[..n];
      DepositsMultiplicity(prefix, d);
      DepositsStep(ants, d);
      DueWithDepositStep(ants, d);
    }
  }

  /** Extending the ants by one adds one occurrence of `d` exactly when that ant is due and drops `d`. */
  lemma DepositsStep(ants: seq<AntEntity>, d: PheromoneEntity)
    requires |ants| > 0
    ensures var n := |ants| - 1;
      multiset(Deposits(ants))[d] == multiset(Deposits(ants[..n]))[d]
        + (if Due(ants[n].ant) && DepositOf(ants[n]) == d then 1 else 0)
  {
    var n := |ants| - 1;
    var before := Deposits(ants[..n]);
    if Due(ants[n].ant) {
      assert Deposits(ants) == before + [DepositOf(ants[n])];
      assert multiset(Deposits(ants)) == multiset(before) + multiset{DepositOf(ants[n])};
    } else {
      assert Deposits(ants) == before;
    }
  }

  /** Extending the ants by one adds that ant's position exactly when it is due and drops `d`. */
  lemma DueWithDepositStep(ants: seq<AntEntity>, d: PheromoneEntity)
    requires |ants| > 0
    ensures var n := |ants| - 1;
      |DueWithDeposit(ants, d)| == |DueWithDeposit(ants[..n], d)|
        + (if Due(ants[n].ant) && DepositOf(ants[n]) == d then 1 else 0)
  {
    var n := |ants| - 1;
    var before := DueWithDeposit(ants[..n], d);
    assert before == set i | 0 <= i < n && Due(ants[i].ant) && DepositOf(ants[i]) == d;
    if Due(ants[n].ant) && DepositOf(ants[n]) == d {
      assert DueWithDeposit(ants, d) == before + {n};
      assert n !in before;
    } else {
      assert DueWithDeposit(ants, d) == before;
    }
  }

  /** Each spawned pheromone has the kind its ant drops and the deposit intensity. */
  lemma DepositShape(e: AntEntity)
    ensures DepositOf(e).pheromone.kind == PherToDrop(e.ant.state)
    ensures DepositOf(e).pheromone.intensity == 10.0
    ensures DepositOf(e).transform == e.transform
  {
  }

  /** The countdown rules: only the timer changes; a positive timer drops by dt * speed,
      any other is reset to the interval. */
  lemma TimersAdvancedRules(ants: seq<AntEntity>, dt: real)
    ensures forall i :: 0 <= i < |ants| ==>
      var before, after := ants[i], TimersAdvanced(ants, dt)[i];
      && after.transform == before.transform
      && after.ant == before.ant.(timeUntilPoop := after.ant.timeUntilPoop)
      && (before.ant.timeUntilPoop > 0.0 ==>
            after.ant.timeUntilPoop == before.ant.timeUntilPoop - dt * before.ant.speed)
      && (before.ant.timeUntilPoop <= 0.0 ==> after.ant.timeUntilPoop == ANT_POOP_INTERVAL)
  {
  }

  /** An ant that deposits on one tick is not due on the next one. */
  lemma NoDepositsOnConsecutiveTicks(e: AntEntity, dt: real)
    requires Due(e.ant)
    ensures !Due(TimerStep(e, dt).ant)
  {
  }

  // ---------------------------------------------------------------- heading

  /** The two ends of the vision interval, computed as ant_desired_direction does: the "lower" end
      adds half the arc to the heading and the "upper" end subtracts it. */
  function VisionLower(a: Ant, at: Transform, g: Geometry): real
  {
    g.heading(at.rotation) + a.visionArc / 2.0
  }

  function VisionUpper(a: Ant, at: Transform, g: Geometry): real
  {
    g.heading(at.rotation) - a.visionArc / 2.0
  }

  function ToPher(at: Transform, p: PheromoneEntity): Vec2
  {
    XyOfDifference(p.transform.translation, at.translation)
  }

  /** A pheromone is in view when the ant follows its kind, it is within vision range,
      and its bearing passes the wrap-aware interval test. */
  predicate InView(a: Ant, at: Transform, p: PheromoneEntity, g: Geometry)
  {
    var toPher := ToPher(at, p);
    && AntShouldFollow(a.state, p.pheromone.kind)
    && !LongerThan(toPher, a.visionRange)
    && AngleWithinBounds(g.atan2(toPher.y, toPher.x), VisionLower(a, at, g), VisionUpper(a, at, g))
  }

  /** What one pheromone adds to the accumulated direction. */
  function Contribution(a: Ant, at: Transform, p: PheromoneEntity, g: Geometry): (r: Vec2)
    ensures !AntShouldFollow(a.state, p.pheromone.kind) ==> r == ZERO2
    ensures LongerThan(ToPher(at, p), a.visionRange) ==> r == ZERO2
    ensures r != ZERO2 ==> InView(a, at, p, g)
  {
    if InView(a, at, p, g) then Scale2(g.normalize(ToPher(at, p)), p.pheromone.intensity) else ZERO2
  }

  /** The direction accumulated over `ps`, in iteration order. */
  function Attraction(a: Ant, at: Transform, ps: seq<PheromoneEntity>, g: Geometry): (r: Vec2)
    ensures a.visionArc > 0.0 ==> r == ZERO2
  {
    if |ps| == 0 then ZERO2
    else
      var last := ps[|ps| - 1];
      assert a.visionArc > 0.0 ==> !InView(a, at, last, g) by {
        if a.visionArc > 0.0 {
          PositiveArcSeesNothing(a, at, last, g);
        }
      }
      Add2(Attraction(a, at, ps[..|ps| - 1], g), Contribution(a, at, last, g))
  }

  /** The heading the ant chooses: the normalised attraction, or its current facing when nothing attracts it. */
  function DesiredDirection(a: Ant, at: Transform, ps: seq<PheromoneEntity>, g: Geometry): (r: Vec2)
    ensures a.visionArc > 0.0 ==> r == g.normalize(g.forward(at.rotation))
  {
    var cum := Attraction(a, at, ps, g);
    g.normalize(if cum == ZERO2 then g.forward(at.rotation) else cum)
  }

  /** ant_desired_direction: the filter-and-accumulate loop over the pheromone query. */
  method AntDesiredDirection(ant: Ant, antTrans: Transform, pheromones: seq<PheromoneEntity>, g: Geometry)
    returns (dir: Vec2)
    ensures dir == DesiredDirection(ant, antTrans, pheromones, g)
  {
    var antDir := g.heading(antTrans.rotation);
    var visionBoundLower := antDir + ant.visionArc / 2.0;
    var visionBoundUpper := antDir - ant.visionArc / 2.0;

    var cumDir := ZERO2;
    for i := 0 to |pheromones|
      invariant cumDir == Attraction(ant, antTrans, pheromones[..i], g)
    {
      var p := pheromones[i];
      assert pheromones[..i + 1][..i] == pheromones[..i];
      assert Attraction(ant, antTrans, pheromones[..i + 1], g)
          == Add2(cumDir, Contribution(ant, antTrans, p, g));
      if !AntShouldFollow(ant.state, p.pheromone.kind) {
        continue;
      }
      var toPher := XyOfDifference(p.transform.translation, antTrans.translation);
      if LongerThan(toPher, ant.visionRange) {
        continue;
      }
      var angle := g.atan2(toPher.y, toPher.x);
      if !AngleWithinBounds(angle, visionBoundLower, visionBoundUpper) {
        continue;
      }
      cumDir := Add2(cumDir, Scale2(g.normalize(toPher), p.pheromone.intensity));
    }
    assert pheromones[..|pheromones|] == pheromones;

    if cumDir == ZERO2 {
      cumDir := g.forward(antTrans.rotation);
    }
    dir := g.normalize(cumDir);
  }

  /** Accumulation over a concatenation is the sum of the two accumulations. */
  lemma {:induction false} AttractionAppend(a: Ant, at: Transform, ps: seq<PheromoneEntity>, qs: seq<PheromoneEntity>, g: Geometry)
    ensures Attraction(a, at, ps + qs, g) == Add2(Attraction(a, at, ps, g), Attraction(a, at, qs, g))
    decreases |qs|
  {
    if |qs| == 0 {
      assert ps + qs == ps;
    } else {
      var n := |qs| - 1;
      assert (ps + qs)[..|ps + qs| - 1] == ps + qs[..n];
      AttractionAppend(a, at, ps, qs[..n], g);
    }
  }

  /** When no pheromone is in view nothing is accumulated. */
  lemma {:induction false} NothingInViewNoAttraction(a: Ant, at: Transform, ps: seq<PheromoneEntity>, g: Geometry)
    requires forall i :: 0 <= i < |ps| ==> !InView(a, at, ps[i], g)
    ensures Attraction(a, at, ps, g) == ZERO2
  {
    if |ps| > 0 {
      NothingInViewNoAttraction(a, at, ps[..|ps| - 1], g);
    }
  }

  /** The pheromones of the kind the ant drops itself never change its heading. */
  function Followed(s: AntState, ps: seq<PheromoneEntity>): (r: seq<PheromoneEntity>)
    ensures forall p :: p in r <==> p in ps && AntShouldFollow(s, p.pheromone.kind)
  {
    if |ps| == 0 then []
    else Followed(s, ps[..|ps| - 1]) + (if AntShouldFollow(s, ps[|ps| - 1].pheromone.kind) then [ps[|ps| - 1]] else [])
  }

  lemma {:induction false} AttractionIgnoresOwnKind(a: Ant, at: Transform, ps: seq<PheromoneEntity>, g: Geometry)
    ensures Attraction(a, at, ps, g) == Attraction(a, at, Followed(a.state, ps), g)
  {
    if |ps| > 0 {
      var n := |ps| - 1;
      AttractionIgnoresOwnKind(a, at, ps[..n], g);
      var head := Followed(a.state, ps[..n]);
      assert Attraction(a, at, ps, g) == Add2(Attraction(a, at, ps[..n], g), Contribution(a, at, ps[n], g));
      if AntShouldFollow(a.state, ps[n].pheromone.kind) {
        var both := head + [ps[n]];
        assert Followed(a.state, ps) == both;
        assert both[..|head|] == head;
        assert Attraction(a, at, both, g) == Add2(Attraction(a, at, head, g), Contribution(a, at, ps[n], g));
      } else {
        assert Followed(a.state, ps) == head + [];
        assert head + [] == head;
      }
    }
  }

  /** The vision interval as ant_desired_direction computes it is inverted for every positive arc,
      so no pheromone is ever in view. */
  lemma PositiveArcSeesNothing(a: Ant, at: Transform, p: PheromoneEntity, g: Geometry)
    requires a.visionArc > 0.0
    ensures VisionLower(a, at, g) > VisionUpper(a, at, g)
    ensures !InView(a, at, p, g)
  {
    var toPher := ToPher(at, p);
    InvertedBoundsAcceptNothing(g.atan2(toPher.y, toPher.x), VisionLower(a, at, g), VisionUpper(a, at, g));
  }

  /** Hence an ant with a positive vision arc always falls back to its current facing. */
  lemma PositiveArcKeepsFacing(a: Ant, at: Transform, ps: seq<PheromoneEntity>, g: Geometry)
    requires a.visionArc > 0.0
    ensures Attraction(a, at, ps, g) == ZERO2
    ensures DesiredDirection(a, at, ps, g) == g.normalize(g.forward(at.rotation))
  {
    forall i | 0 <= i < |ps|
      ensures !InView(a, at, ps[i], g)
    {
      PositiveArcSeesNothing(a, at, ps[i], g);
    }
    NothingInViewNoAttraction(a, at, ps, g);
  }

  /** A default ant (vision arc 2.0) ignores every pheromone. */
  lemma DefaultAntKeepsFacing(at: Transform, ps: seq<PheromoneEntity>, g: Geometry)
    ensures DesiredDirection(DefaultAnt(), at, ps, g) == g.normalize(g.forward(at.rotation))
  {
    PositiveArcKeepsFacing(DefaultAnt(), at, ps, g);
  }

  // ---------------------------------------------------------------- movement

  /** One ant after update_ant_movement: face the target, then move in the plane keeping depth. */
  function Moved(e: AntEntity, ps: seq<PheromoneEntity>, dt: real, g: Geometry): AntEntity
  {
    var dir := DesiredDirection(e.ant, e.transform, ps, g);
    var chosen := Vec3(dir.x, dir.y, 0.0);
    var newPosition := Add3(e.transform.translation, Scale3(Scale3(chosen, e.ant.speed), dt));
    e.(transform := e.transform.(
      rotation := g.lookingAt(e.transform.translation, newPosition),
      translation := Vec3(newPosition.x, newPosition.y, e.transform.translation.z)))
  }

  function MovedAll(ants: seq<AntEntity>, ps: seq<PheromoneEntity>, dt: real, g: Geometry): seq<AntEntity>
  {
    seq(|ants|, i requires 0 <= i < |ants| => Moved(ants[i], ps, dt, g))
  }

  /** Movement never touches the Ant component, the depth or the scale, and displaces each ant
      by its chosen direction times speed times dt. */
  lemma MovementKeepsAntAndDepth(ants: seq<AntEntity>, ps: seq<PheromoneEntity>, dt: real, g: Geometry)
    ensures forall i :: 0 <= i < |ants| ==>
      var before, after := ants[i], MovedAll(ants, ps, dt, g)[i];
      var dir := DesiredDirection(before.ant, before.transform, ps, g);
      && after.ant == before.ant
      && after.transform.translation.z == before.transform.translation.z
      && after.transform.scale == before.transform.scale
      && after.transform.translation.x == before.transform.translation.x + dir.x * before.ant.speed * dt
      && after.transform.translation.y == before.transform.translation.y + dir.y * before.ant.speed * dt
  {
  }

  /** An ant with a positive vision arc moves along its normalised current facing on this tick. */
  lemma PositiveArcWalksStraight(e: AntEntity, ps: seq<PheromoneEntity>, dt: real, g: Geometry)
    requires e.ant.visionArc > 0.0
    ensures var dir := g.normalize(g.forward(e.transform.rotation));
      && Moved(e, ps, dt, g).transform.translation.x == e.transform.translation.x + dir.x * e.ant.speed * dt
      && Moved(e, ps, dt, g).transform.translation.y == e.transform.translation.y + dir.y * e.ant.speed * dt
  {
    PositiveArcKeepsFacing(e.ant, e.transform, ps, g);
  }

  // ---------------------------------------------------------------- the entity store

  class Colony {
    var ants: seq<AntEntity>
    var pheromones: seq<PheromoneEntity>

    constructor (ants0: seq<AntEntity>, pheromones0: seq<PheromoneEntity>)
      ensures ants == ants0 && pheromones == pheromones0
    {
      ants := ants0;
      pheromones := pheromones0;
    }

    /** decay_pheromones */
    method DecayPheromones(dt: real)
      modifies this
      ensures ants == old(ants)
      ensures pheromones == DecayAll(old(pheromones), dt)
    {
      var i := 0;
      while i < |pheromones|
        invariant 0 <= i <= |pheromones| == |old(pheromones)|
        invariant ants == old(ants)
        invariant forall j :: 0 <= j < i ==> pheromones[j] == Decayed(old(pheromones)[j], dt)
        invariant forall j :: i <= j < |pheromones| ==> pheromones[j] == old(pheromones)[j]
      {
        var p := pheromones[i];
        pheromones := pheromones[i := p.(pheromone := p.pheromone.(
          intensity := p.pheromone.intensity - dt * PHEROMONE_DECAY_FACTOR))];
        i := i + 1;
      }
    }

    /** spawn_pheromones: count each ant's timer down, or drop a pheromone and restart it. */
    method SpawnPheromones(dt: real)
      modifies this
      ensures ants == TimersAdvanced(old(ants), dt)
      ensures pheromones == old(pheromones) + Deposits(old(ants))
    {
      var spawned: seq<PheromoneEntity> := [];
      var i := 0;
      while i < |ants|
        invariant 0 <= i <= |ants| == |old(ants)|
        invariant pheromones == old(pheromones)
        invariant spawned == Deposits(old(ants)[..i])
        invariant forall j :: 0 <= j < i ==> ants[j] == TimerStep(old(ants)[j], dt)
        invariant forall j :: i <= j < |ants| ==> ants[j] == old(ants)[j]
      {
        assert old(ants)[..i + 1][..i] == old(ants)[..i];
        var e := ants[i];
        if e.ant.timeUntilPoop > 0.0 {
          ants := ants[i := e.(ant := e.ant.(timeUntilPoop := e.ant.timeUntilPoop - dt * e.ant.speed))];
        } else {
          spawned := spawned + [PheromoneEntity(Pheromone(PherToDrop(e.ant.state), 10.0), e.transform)];
          ants := ants[i := e.(ant := e.ant.(timeUntilPoop := ANT_POOP_INTERVAL))];
        }
        i := i + 1;
      }
      assert old(ants)[..i] == old(ants);
      pheromones := pheromones + spawned;
    }

    /** update_ant_movement */
    method UpdateAntMovement(dt: real, g: Geometry)
      modifies this
      ensures pheromones == old(pheromones)
      ensures ants == MovedAll(old(ants), pheromones, dt, g)
    {
      var i := 0;
      while i < |ants|
        invariant 0 <= i <= |ants| == |old(ants)|
        invariant pheromones == old(pheromones)
        invariant forall j :: 0 <= j < i ==> ants[j] == Moved(old(ants)[j], pheromones, dt, g)
        invariant forall j :: i <= j < |ants| ==> ants[j] == old(ants)[j]
      {
        var e := ants[i];
        var d := AntDesiredDirection(e.ant, e.transform, pheromones, g);
        var chosenDir := Vec3(d.x, d.y, 0.0);
        var newPosition := Add3(e.transform.translation, Scale3(Scale3(chosenDir, e.ant.speed), dt));
        var rotation := g.lookingAt(e.transform.translation, newPosition);
        var translation := Vec3(newPosition.x, newPosition.y, e.transform.translation.z);
        ants := ants[i := e.(transform := e.transform.(rotation := rotation, translation := translation))];
        assert ants[i] == Moved(old(ants)[i], pheromones, dt, g);
        i := i + 1;
      }
      assert |ants| == |MovedAll(old(ants), pheromones, dt, g)|;
    }
  }
}
