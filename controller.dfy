/** The `App` component's navigation state: the single mutable cell
    `currentSlide` and the handlers that update it in place. */
module Controller {
  import opened SlideRegistry
  import opened Navigation
  import opened InputBinding
  import opened Indicator

  class Presentation {
    /** The index of the slide on screen. */
    var currentSlide: int

    /** The position is always one at which a slide can be looked up. */
    ghost predicate Valid()
      reads this
    {
      InRange(currentSlide)
    }

    /** `useState(0)`: the presentation opens on the title slide. */
    constructor ()
      ensures Valid() && currentSlide == 0
      ensures CurrentSlideComponent() == SlideTitle
    {
      currentSlide := 0;
    }

    /** `nextSlide`, also bound to the right-hand button. */
    method NextSlide()
      modifies this
      ensures currentSlide == NextIndex(old(currentSlide))
      ensures old(Valid()) ==> Valid()
    {
      currentSlide := NextIndex(currentSlide);
    }

    /** `prevSlide`, also bound to the left-hand button. */
    method PrevSlide()
      modifies this
      ensures currentSlide == PrevIndex(old(currentSlide))
      ensures old(Valid()) ==> Valid()
    {
      currentSlide := PrevIndex(currentSlide);
    }

    /** `handleKeyDown`: two independent tests of the key. */
    method HandleKeyDown(key: string)
      modifies this
      ensures currentSlide == Run(old(currentSlide), KeyActions(key))
      ensures old(Valid()) ==> Valid()
    {
      KeyEffect(currentSlide, key);
      if key == "ArrowRight" || key == " " {
        NextSlide();
      }
      if key == "ArrowLeft" {
        PrevSlide();
      }
    }

    /** The `onClick` handlers of the two buttons. */
    method OnClick(b: Button)
      modifies this
      ensures currentSlide == Step(old(currentSlide), ButtonAction(b))
      ensures old(Valid()) ==> Valid()
    {
      match b
      case PrevButton => PrevSlide();
      case NextButton => NextSlide();
    }

    /** Dispatches one input event to the handler it reaches. */
    method Handle(e: Input)
      modifies this
      ensures currentSlide == Run(old(currentSlide), InputActions(e))
      ensures old(Valid()) ==> Valid()
    {
      match e
      case KeyDown(key) => HandleKeyDown(key);
      case Click(b) =>
        OnClick(b);
        assert [ButtonAction(b)][1..] == [];
    }

    /** `slides[currentSlide]`: the component rendered for the current position. */
    function CurrentSlideComponent(): (s: Slide)
      reads this
      requires Valid()
      ensures Position(s) == currentSlide
    {
      PositionOfLookup(currentSlide);
      Lookup(currentSlide)
    }

    /** The screen as a whole for the current position. */
    function CurrentView(): (v: View)
      reads this
      requires Valid()
      ensures v.slide == CurrentSlideComponent()
      ensures |v.markers| == Count()
      ensures forall idx :: 0 <= idx < |v.markers| ==> (v.markers[idx] <==> idx == currentSlide)
      ensures Highlighted(v.markers) == 1
      ensures v.position.shown == currentSlide + 1
    {
      RenderConsistent(currentSlide);
      Render(currentSlide)
    }
  }
}
