# Slide presentation navigation, in Dafny

This project models the navigation logic of the `App` component of the
slide web application (`slide-webapp/src/App.jsx`): a fixed registry of
twelve slides, one mutable integer `currentSlide` that selects the slide on
screen, the two clamped transitions `nextSlide` and `prevSlide`, the
`keydown` handler and the two on-screen buttons that trigger them, and the
three read-outs of the state: the slide looked up in the registry, the row
of progress markers, and the "Slide k+1 / N" label.

Modules, one per component:

- `SlideRegistry` (`registry.dfy`): the twelve slide components as a
  datatype, the registry `Slides` in presentation order, and `Position`,
  the inverse of the lookup.
- `Navigation` (`navigation.dfy`): the updaters `NextIndex` and `PrevIndex`,
  actions and runs of them, and the lemmas about runs: the boundary
  invariant, repeated advances and retreats, idempotence at both ends,
  reachability.
- `InputBinding` (`input.dfy`): the key dispatch `KeyActions`, the button
  binding `ButtonAction`, and sessions of mixed input events.
- `Indicator` (`indicator.dfy`): the progress markers, the position label
  and its decimal text, and the rendered `View`.
- `Controller` (`controller.dfy`): the class `Presentation`, whose field
  `currentSlide` the handler methods update in place.

The updaters are total over all integers, as the JavaScript arrow functions
are; the class methods have no precondition and instead promise that a
valid position stays valid (`old(Valid()) ==> Valid()`).

`handleKeyDown` is written as two independent `if` statements, not an
`if`/`else`. The model keeps that shape: `KeyActions` concatenates what
each test fires, and its contract proves that at most one action results,
because the bound keys are distinct strings.

## Model

| member | source | states |
|---|---|---|
| SlideRegistry.Count | slide-webapp/src/App.jsx:863-876 | the registry holds exactly 12 slides |
| SlideRegistry.Lookup | slide-webapp/src/App.jsx:893 | looking up a valid position k yields the slide whose registry position is k |
| SlideRegistry.Position | slide-webapp/src/App.jsx:863-876 | every slide component sits at a valid position of the registry and is the slide found there |
| SlideRegistry.PositionOfLookup | slide-webapp/src/App.jsx:863-876 | the slide at position k has position k: lookup and position are inverse (follows from the contract of Lookup) |
| SlideRegistry.LookupInjective | slide-webapp/src/App.jsx:863-876 | two positions show the same slide if and only if they are equal |
| Navigation.NextIndex | slide-webapp/src/App.jsx:881 | the result never exceeds the last position; from a valid position it is valid, it is k+1 exactly when k is before the last slide, and it equals k exactly at the last slide |
| Navigation.PrevIndex | slide-webapp/src/App.jsx:882 | the result is never negative; from a valid position it is valid, it is k-1 exactly when k > 0, and it equals k exactly at position 0 |
| Navigation.Step | slide-webapp/src/App.jsx:881-882 | which updater one action applies: Advance is NextIndex, Retreat is PrevIndex; its properties are stated by RunInRange, AdvanceRepeated and RetreatRepeated |
| Navigation.InitialInRange | slide-webapp/src/App.jsx:879 | the initial position 0 is valid and shows the title slide |
| Navigation.RunAppend | slide-webapp/src/App.jsx:881-882 | applying two lists of actions in turn equals applying their concatenation |
| Navigation.RunInRange | slide-webapp/src/App.jsx:881-882 | any sequence of next/prev actions from a valid position ends at a valid position |
| Navigation.AdvanceRepeated | slide-webapp/src/App.jsx:881 | m advances from k reach min(k+m, 11) |
| Navigation.RetreatRepeated | slide-webapp/src/App.jsx:882 | m retreats from k reach max(k-m, 0) |
| Navigation.AdvanceIdempotentAtLast | slide-webapp/src/App.jsx:881 | any number of advances at the last slide leave it there |
| Navigation.RetreatIdempotentAtFirst | slide-webapp/src/App.jsx:882 | any number of retreats at the first slide leave it there |
| Navigation.EveryPositionReachable | slide-webapp/src/App.jsx:879-881 | every valid position k is reached from the start by k advances |
| Navigation.ElevenAdvancesReachLast | slide-webapp/src/App.jsx:879-881 | 11 advances from 0 reach 11, the last position, and a 12th still gives 11 |
| Navigation.AdvanceRetreatInverse | slide-webapp/src/App.jsx:881-882 | away from the respective bound, advance then retreat and retreat then advance return to k |
| InputBinding.KeyActions | slide-webapp/src/App.jsx:885-888 | a key fires at most one action; it fires an advance if and only if it is 'ArrowRight' or ' ', and a retreat if and only if it is 'ArrowLeft' |
| InputBinding.KeyEffect | slide-webapp/src/App.jsx:885-888 | 'ArrowRight' and ' ' have exactly the effect of nextSlide, 'ArrowLeft' that of prevSlide, any other key leaves the position unchanged |
| InputBinding.ButtonAction | slide-webapp/src/App.jsx:928-929 | the left button is bound to Retreat and the right one to Advance; see ButtonsMatchKeys |
| InputBinding.ButtonsMatchKeys | slide-webapp/src/App.jsx:928-929 | the left button has the effect of 'ArrowLeft', the right button that of 'ArrowRight' and of ' ' |
| InputBinding.InputActions | slide-webapp/src/App.jsx:885-888 | one key press or click fires at most one action |
| InputBinding.SessionInRange | slide-webapp/src/App.jsx:885-893 | any sequence of key presses and clicks from a valid position keeps the lookup in range |
| InputBinding.UnboundKeysIgnored | slide-webapp/src/App.jsx:885-888 | a sequence of key presses none of which is bound leaves the position unchanged |
| Indicator.Markers | slide-webapp/src/App.jsx:916-918 | one highlight flag per slide, `idx === currentSlide`; see MarkersHighlightCurrent |
| Indicator.HighlightedPrefix | slide-webapp/src/App.jsx:916-918 | among the first n markers exactly one is highlighted when the position is one of them, none otherwise |
| Indicator.MarkersHighlightCurrent | slide-webapp/src/App.jsx:916-918 | there is one marker per slide, the marker at idx is highlighted exactly when idx is the current position, and exactly one is highlighted if and only if the position is valid |
| Indicator.NatText | slide-webapp/src/App.jsx:920 | the rendered number is a non-empty string of decimal digits |
| Indicator.Digit | slide-webapp/src/App.jsx:920 | a digit value renders as a character between '0' and '9' |
| Indicator.ParseNatText | slide-webapp/src/App.jsx:920 | the rendered digits read back as the number rendered |
| Indicator.PositionLabel | slide-webapp/src/App.jsx:920 | the label pairs currentSlide + 1 with slides.length; see LabelInRange |
| Indicator.LabelText | slide-webapp/src/App.jsx:920 | the label text "Slide ", the number, " / ", the total; see LabelInRange |
| Indicator.LabelInRange | slide-webapp/src/App.jsx:920 | at a valid position the label shows a number from 1 to 12, one more than the position, over 12, and its text reads back as that number |
| Indicator.Render | slide-webapp/src/App.jsx:893-920 | the screen for a position: the slide looked up, the markers and the label; see RenderConsistent and RenderInjective |
| Indicator.RenderConsistent | slide-webapp/src/App.jsx:893-920 | the slide shown, the single highlighted marker and the label's number all name the current position |
| Indicator.RenderInjective | slide-webapp/src/App.jsx:893-920 | two positions render the same screen if and only if they are equal |
| Controller.Presentation.constructor | slide-webapp/src/App.jsx:879 | the state starts valid at position 0, showing the title slide |
| Controller.Presentation.NextSlide | slide-webapp/src/App.jsx:881 | the new position is NextIndex of the old one, and a valid state stays valid |
| Controller.Presentation.PrevSlide | slide-webapp/src/App.jsx:882 | the new position is PrevIndex of the old one, and a valid state stays valid |
| Controller.Presentation.HandleKeyDown | slide-webapp/src/App.jsx:885-888 | the new position is the old one after the actions the key fires, and a valid state stays valid |
| Controller.Presentation.OnClick | slide-webapp/src/App.jsx:928-929 | the new position is the old one after the clicked button's action, and a valid state stays valid |
| Controller.Presentation.Handle | slide-webapp/src/App.jsx:885-929 | one input event moves the position by exactly the actions it fires, and a valid state stays valid |
| Controller.Presentation.CurrentSlideComponent | slide-webapp/src/App.jsx:893 | the component rendered is the slide whose registry position is the current one |
| Controller.Presentation.CurrentView | slide-webapp/src/App.jsx:893-920 | the screen shows the current component, one marker per slide with exactly one highlighted, the one at currentSlide, and the label number currentSlide + 1 |

## Left out

- The slide components, `SlideContainer`, `Title`, `SubTitle` and `Card` (App.jsx lines 104-861): visual composition with no behaviour; each slide is an opaque tag of the `Slide` datatype.
- `AnimatedCounter` (lines 11-32): spring animation over floating-point motion values and locale number formatting, both foreign library calls.
- The literal chart datasets (lines 34-102): constants handed to the charting library.
- The framer-motion transitions and `AnimatePresence` (lines 897-925): cosmetic animation that does not gate input.
- `window.addEventListener` and `removeEventListener` (lines 889-890): registration of the handler is DOM I/O; only the handler's dispatch is modelled.
- `new Date().getFullYear()` (line 912): reads the clock.
- React's scheduling of state updates: each updater is applied to the latest state, so the model applies each action to the current position at once.
- Indicator.LabelText: gives the label's text content, "Slide ", the number, " ", "/", " ", the total, which is exactly what the JSX children of line 920 produce; the `uppercase` class of the enclosing element (line 909), which displays it as "SLIDE 1 / 12", and the other CSS classes are not modelled.
- An input event is modelled as reaching exactly one handler; the browser's default activation of a focused button by Space or Enter is not modelled. After a click focus stays on the button, so in the browser one Space press can fire both `handleKeyDown` and the button's `onClick`, and Enter can move the slide. InputActions, Session and UnboundKeysIgnored speak about the handlers of lines 885-888 and 928-929, not about those browser defaults.
