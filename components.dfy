// The component records of src/components.rs and the default ant.
module Components {
  import opened Math
  import opened BehaviorRules

  datatype Ant = Ant(
    state: AntState,
    speed: real,
    visionRange: real,
    visionArc: real,       // in radians
    timeUntilPoop: real,
    secretDesire: Vec2)

  datatype Pheromone = Pheromone(kind: PheromoneKind, intensity: real)

  /** Ant::default() */
  function DefaultAnt(): (a: Ant)
    ensures PherToDrop(a.state) == HomeThisWay && AntShouldFollow(a.state, FoodThisWay)
    ensures a.timeUntilPoop > 0.0
    ensures a.visionArc > 0.0 && a.visionRange > 0.0 && a.speed > 0.0
  {
    Ant(Wandering, 50.0, 1.0, 2.0, ANT_POOP_INTERVAL, ZERO2)
  }

  /** A default ant wanders, so the first pheromone it drops is a home trail. */
  lemma DefaultAntDropsHomeTrail()
    ensures DefaultAnt().state == Wandering
    ensures PherToDrop(DefaultAnt().state) == HomeThisWay
    ensures AntShouldFollow(DefaultAnt().state, FoodThisWay)
  {
  }

  /** The default ant's parameters: its deposit timer starts full and its wander accumulator at zero. */
  lemma DefaultAntParameters()
    ensures DefaultAnt().timeUntilPoop == ANT_POOP_INTERVAL > 0.0
    ensures DefaultAnt().secretDesire == ZERO2
    ensures DefaultAnt().speed == 50.0 && DefaultAnt().visionRange == 1.0
    ensures DefaultAnt().visionArc == 2.0 > 0.0
  {
  }
}
