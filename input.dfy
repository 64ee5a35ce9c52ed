/** The two input sources that drive navigation: the `keydown` handler and
    the two on-screen buttons. */
module InputBinding {
  import opened SlideRegistry
  import opened Navigation

  /** What `handleKeyDown` does for one key. The handler is two separate
      `if` statements, so its effect is the concatenation of what each of
      them fires. */
  function KeyActions(key: string): (actions: seq<Action>)
    ensures |actions| <= 1
    ensures Advance in actions <==> key == "ArrowRight" || key == " "
    ensures Retreat in actions <==> key == "ArrowLeft"
  {
    (if key == "ArrowRight" || key == " " then [Advance] else [])
    + (if key == "ArrowLeft" then [Retreat] else [])
  }

  /** The forward keys have exactly the effect of `nextSlide`, the back key
      exactly that of `prevSlide`, and every other key none at all. */
  lemma KeyEffect(k: int, key: string)
    ensures key == "ArrowRight" || key == " " ==> Run(k, KeyActions(key)) == NextIndex(k)
    ensures key == "ArrowLeft" ==> Run(k, KeyActions(key)) == PrevIndex(k)
    ensures key != "ArrowRight" && key != " " && key != "ArrowLeft" ==> Run(k, KeyActions(key)) == k
  {
    var acts := KeyActions(key);
    if acts != [] {
      assert acts == [acts[0]];
      assert Run(k, acts) == Step(k, acts[0]);
    }
  }

  /** The two buttons at the bottom of the screen. */
  datatype Button = PrevButton | NextButton

  /** The `onClick` binding of each button. */
  function ButtonAction(b: Button): Action {
    match b
    case PrevButton => Retreat
    case NextButton => Advance
  }

  /** The buttons perform the same transitions as the keys. */
  lemma ButtonsMatchKeys(k: int)
    ensures Step(k, ButtonAction(PrevButton)) == Run(k, KeyActions("ArrowLeft"))
    ensures Step(k, ButtonAction(NextButton)) == Run(k, KeyActions("ArrowRight"))
    ensures Step(k, ButtonAction(NextButton)) == Run(k, KeyActions(" "))
  {
    KeyEffect(k, "ArrowLeft");
    KeyEffect(k, "ArrowRight");
    KeyEffect(k, " ");
  }

  /** One user input event. */
  datatype Input = KeyDown(key: string) | Click(button: Button)

  function InputActions(e: Input): (actions: seq<Action>)
    ensures |actions| <= 1
  {
    match e
    case KeyDown(key) => KeyActions(key)
    case Click(b) => [ButtonAction(b)]
  }

  /** The position after handling `events` in order, starting at `k`. */
  function Session(k: int, events: seq<Input>): int
    decreases |events|
  {
    if events == [] then k else Session(Run(k, InputActions(events[0])), events[1..])
  }

  /** However the user presses keys and clicks buttons, the position stays valid. */
  lemma {:induction false} SessionInRange(k: int, events: seq<Input>)
    requires InRange(k)
    ensures InRange(Session(k, events))
    decreases |events|
  {
    if events != [] {
      RunInRange(k, InputActions(events[0]));
      SessionInRange(Run(k, InputActions(events[0])), events[1..]);
    }
  }

  /** Keys other than the three bound ones never move the presentation. */
  lemma {:induction false} UnboundKeysIgnored(k: int, events: seq<Input>)
    requires forall i :: 0 <= i < |events| ==>
      events[i].KeyDown? && events[i].key != "ArrowRight" && events[i].key != " "
      && events[i].key != "ArrowLeft"
    ensures Session(k, events) == k
    decreases |events|
  {
    if events != [] {
      KeyEffect(k, events[0].key);
      UnboundKeysIgnored(k, events[1..]);
    }
  }
}
