// The pure rules of src/behavior.rs: which pheromone an ant drops, which it follows,
// and the wrap-aware angle test used by its vision cone.
module BehaviorRules {

  datatype PheromoneKind = HomeThisWay | FoodThisWay

  datatype AntState = Wandering | HasFood

  /** The exact single-precision value of std::f32::consts::TAU. */
  const TAU: real := 13176795.0 / 2097152.0

  const PHEROMONE_DECAY_FACTOR: real := 1.0

  const ANT_POOP_INTERVAL: real := 0.5

  /** The intensity every freshly dropped pheromone starts with. */
  const DEPOSIT_INTENSITY: real := 10.0

  /** An ant drops a home trail while it wanders and a food trail once it carries food. */
  function PherToDrop(s: AntState): (k: PheromoneKind)
    ensures k == HomeThisWay <==> s == Wandering
    ensures k == FoodThisWay <==> s == HasFood
  {
    match s
    case Wandering => HomeThisWay
    case HasFood => FoodThisWay
  }

  /** An ant follows exactly the kind it does not drop itself. */
  function AntShouldFollow(s: AntState, k: PheromoneKind): (r: bool)
    ensures r <==> k != PherToDrop(s)
  {
    match (s, k)
    case (Wandering, HomeThisWay) => false
    case (Wandering, FoodThisWay) => true
    case (HasFood, HomeThisWay) => true
    case (HasFood, FoodThisWay) => false
  }

  /** Whether `theta` lies in [lower, upper], or in that interval shifted by a full turn either way. */
  function AngleWithinBounds(theta: real, lower: real, upper: real): (r: bool)
    ensures lower <= theta <= upper ==> r
    ensures r ==> lower <= upper
    ensures r ==> lower - TAU <= theta <= upper + TAU
  {
    (theta >= lower && theta <= upper)
    || (theta >= lower + TAU && theta <= upper + TAU)
    || (theta >= lower - TAU && theta <= upper - TAU)
  }

  /** Each ant state follows some kind, and every kind is followed by some state. */
  lemma FollowIsComplementOfDrop(s: AntState)
    ensures AntShouldFollow(s, if s == Wandering then FoodThisWay else HomeThisWay)
    ensures !AntShouldFollow(s, PherToDrop(s))
    ensures forall k :: AntShouldFollow(s, k) ==> PherToDrop(if s == Wandering then HasFood else Wandering) == k
  {
  }

  /** An inverted interval accepts no angle at all, whatever the wrap. */
  lemma InvertedBoundsAcceptNothing(theta: real, lower: real, upper: real)
    requires lower > upper
    ensures !AngleWithinBounds(theta, lower, upper)
  {
  }

  /** For a proper interval, an angle inside it is still accepted after a full turn either way. */
  lemma AngleWithinBoundsWraps(theta: real, lower: real, upper: real)
    requires lower <= theta <= upper
    ensures AngleWithinBounds(theta, lower, upper)
    ensures AngleWithinBounds(theta + TAU, lower, upper)
    ensures AngleWithinBounds(theta - TAU, lower, upper)
  {
  }

  /** An angle more than a full turn outside the interval is rejected. */
  lemma AngleFarOutsideRejected(theta: real, lower: real, upper: real)
    requires theta > upper + TAU || theta < lower - TAU
    ensures !AngleWithinBounds(theta, lower, upper)
  {
  }
}
