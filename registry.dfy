/** The slide registry: the fixed, ordered list of the presentation's slides.
    A slide is identified only by the component that renders it; its visual
    content is not modelled. */
module SlideRegistry {

  /** The twelve slide components, in the order they are declared. */
  datatype Slide =
    | SlideTitle
    | SlideAgenda
    | SlideDataset
    | SlideFeatures
    | SlideAnomaly
    | SlideClassification
    | SlideAdversarialFGSM
    | SlideAdversarialPoison
    | SlideRobustness
    | SlideSummary
    | SlideRecommendations
    | SlideEnd

  /** The registry, in presentation order. It is built once and never changes. */
  const Slides: seq<Slide> := [
    SlideTitle,
    SlideAgenda,
    SlideDataset,
    SlideFeatures,
    SlideAnomaly,
    SlideClassification,
    SlideAdversarialFGSM,
    SlideAdversarialPoison,
    SlideRobustness,
    SlideSummary,
    SlideRecommendations,
    SlideEnd
  ]

  /** `slides.length`: the number of slides in the deck. */
  function Count(): (n: nat)
    ensures n == 12
    ensures n == |Slides|
  {
    |Slides|
  }

  /** The positions at which a slide can be looked up. */
  predicate InRange(k: int) {
    0 <= k < |Slides|
  }

  /** `slides[k]`: the slide shown at position `k`. */
  function Lookup(k: int): (s: Slide)
    requires InRange(k)
    ensures Position(s) == k
  {
    if k < 6 then
      assert k == 0 || k == 1 || k == 2 || k == 3 || k == 4 || k == 5;
      Slides[k]
    else
      assert k == 6 || k == 7 || k == 8 || k == 9 || k == 10 || k == 11;
      Slides[k]
  }

  /** The position of each slide in the registry: the inverse of `Lookup`. */
  function Position(s: Slide): (k: nat)
    ensures InRange(k) && Slides[k] == s
  {
    match s
    case SlideTitle => 0
    case SlideAgenda => 1
    case SlideDataset => 2
    case SlideFeatures => 3
    case SlideAnomaly => 4
    case SlideClassification => 5
    case SlideAdversarialFGSM => 6
    case SlideAdversarialPoison => 7
    case SlideRobustness => 8
    case SlideSummary => 9
    case SlideRecommendations => 10
    case SlideEnd => 11
  }

  /** Every position holds a different slide, so the slide on screen
      determines the position it was looked up at. */
  lemma PositionOfLookup(k: int)
    requires InRange(k)
    ensures Position(Lookup(k)) == k
  {
  }

  /** Two positions that show the same slide are the same position. */
  lemma LookupInjective(j: int, k: int)
    requires InRange(j) && InRange(k)
    ensures Lookup(j) == Lookup(k) <==> j == k
  {
    PositionOfLookup(j);
    PositionOfLookup(k);
  }
}
