/** The navigation state machine: the two clamped updaters that `App`
    passes to `setCurrentSlide`, and what any run of them does. */
module Navigation {
  import opened SlideRegistry

  /** `slides.length - 1`: the position of the last slide. */
  const Last: int := |Slides| - 1

  /** `Math.min` and `Math.max` on integers. */
  function Min(a: int, b: int): int { if a <= b then a else b }
  function Max(a: int, b: int): int { if a >= b then a else b }

  /** The updater of `nextSlide`: `prev => Math.min(prev + 1, slides.length - 1)`.
      From a valid position it moves forward by one, except at the last
      slide, where it stays put. */
  function NextIndex(k: int): (r: int)
    ensures r <= Last
    ensures InRange(k) ==> InRange(r)
    ensures InRange(k) ==> (r == k + 1 <==> k < Last) && (r == k <==> k == Last)
  {
    Min(k + 1, Last)
  }

  /** The updater of `prevSlide`: `prev => Math.max(prev - 1, 0)`.
      From a valid position it moves back by one, except at the first
      slide, where it stays put. */
  function PrevIndex(k: int): (r: int)
    ensures 0 <= r
    ensures InRange(k) ==> InRange(r)
    ensures InRange(k) ==> (r == k - 1 <==> k > 0) && (r == k <==> k == 0)
  {
    Max(k - 1, 0)
  }

  /** The two state transitions of the presentation. */
  datatype Action = Advance | Retreat

  function Step(k: int, a: Action): int {
    match a
    case Advance => NextIndex(k)
    case Retreat => PrevIndex(k)
  }

  /** The position reached from `k` by applying `actions` in order. */
  function Run(k: int, actions: seq<Action>): int
    decreases |actions|
  {
    if actions == [] then k else Run(Step(k, actions[0]), actions[1..])
  }

  /** `m` copies of one action. */
  function Repeat(a: Action, m: nat): (s: seq<Action>)
    ensures |s| == m
    ensures forall i :: 0 <= i < m ==> s[i] == a
  {
    if m == 0 then [] else [a] + Repeat(a, m - 1)
  }

  /** The initial position is valid. */
  lemma InitialInRange()
    ensures InRange(0) && Lookup(0) == SlideTitle
  {
  }

  /** Running `xs` and then `ys` is running `xs + ys`. */
  lemma {:induction false} RunAppend(k: int, xs: seq<Action>, ys: seq<Action>)
    ensures Run(k, xs + ys) == Run(Run(k, xs), ys)
    decreases |xs|
  {
    if xs == [] {
      assert xs + ys == ys;
    } else {
      assert (xs + ys)[0] == xs[0];
      assert (xs + ys)[1..] == xs[1..] + ys;
      RunAppend(Step(k, xs[0]), xs[1..], ys);
    }
  }

  /** Boundary invariant: whatever the actions, a valid position stays valid,
      so `slides[currentSlide]` is always defined. */
  lemma {:induction false} RunInRange(k: int, actions: seq<Action>)
    requires InRange(k)
    ensures InRange(Run(k, actions))
    decreases |actions|
  {
    if actions != [] {
      RunInRange(Step(k, actions[0]), actions[1..]);
    }
  }

  /** `m` advances from `k` move `m` slides forward, but never past the last. */
  lemma {:induction false} AdvanceRepeated(k: int, m: nat)
    requires InRange(k)
    ensures Run(k, Repeat(Advance, m)) == Min(k + m, Last)
    decreases m
  {
    if m > 0 {
      var s := Repeat(Advance, m);
      assert s[0] == Advance && s[1..] == Repeat(Advance, m - 1);
      AdvanceRepeated(NextIndex(k), m - 1);
    }
  }

  /** `m` retreats from `k` move `m` slides back, but never before the first. */
  lemma {:induction false} RetreatRepeated(k: int, m: nat)
    requires InRange(k)
    ensures Run(k, Repeat(Retreat, m)) == Max(k - m, 0)
    decreases m
  {
    if m > 0 {
      var s := Repeat(Retreat, m);
      assert s[0] == Retreat && s[1..] == Repeat(Retreat, m - 1);
      RetreatRepeated(PrevIndex(k), m - 1);
    }
  }

  /** Upper clamp: at the last slide any number of advances is a no-op. */
  lemma AdvanceIdempotentAtLast(m: nat)
    ensures Run(Last, Repeat(Advance, m)) == Last
  {
    AdvanceRepeated(Last, m);
  }

  /** Lower clamp: at the first slide any number of retreats is a no-op. */
  lemma RetreatIdempotentAtFirst(m: nat)
    ensures Run(0, Repeat(Retreat, m)) == 0
  {
    RetreatRepeated(0, m);
  }

  /** Every slide is reachable from the start, by `k` advances. */
  lemma EveryPositionReachable(k: int)
    requires InRange(k)
    ensures Run(0, Repeat(Advance, k)) == k
  {
    AdvanceRepeated(0, k);
  }

  /** Eleven advances from the start reach the last slide; a twelfth stays there. */
  lemma ElevenAdvancesReachLast()
    ensures Run(0, Repeat(Advance, 11)) == 11 == Last
    ensures Run(0, Repeat(Advance, 12)) == 11
  {
    AdvanceRepeated(0, 11);
    AdvanceRepeated(0, 12);
  }

  /** Away from the bounds the two transitions undo each other. */
  lemma AdvanceRetreatInverse(k: int)
    requires InRange(k)
    ensures k < Last ==> Run(k, [Advance, Retreat]) == k
    ensures k > 0 ==> Run(k, [Retreat, Advance]) == k
  {
    assert [Advance, Retreat][1..] == [Retreat];
    assert [Retreat, Advance][1..] == [Advance];
  }
}
