/** What the screen shows for a position: the current slide, one progress
    marker per slide with the current one highlighted, and the label
    "Slide k+1 / N". */
module Indicator {
  import opened SlideRegistry

  /** `slides.map((_, idx) => idx === currentSlide)`: whether each marker is highlighted. */
  function Markers(k: int): seq<bool> {
    seq(|Slides|, idx => idx == k)
  }

  /** How many markers are highlighted. */
  function Highlighted(m: seq<bool>): nat
    decreases |m|
  {
    if m == [] then 0 else Highlighted(m[..|m| - 1]) + (if m[|m| - 1] then 1 else 0)
  }

  /** Among the first `n` markers exactly the one at `k` is lit, if it is one of them. */
  lemma {:induction false} HighlightedPrefix(k: int, n: nat)
    requires n <= |Slides|
    ensures Highlighted(Markers(k)[..n]) == if 0 <= k < n then 1 else 0
    decreases n
  {
    var m := Markers(k);
    if n > 0 {
      assert m[..n][..n - 1] == m[..n - 1];
      HighlightedPrefix(k, n - 1);
    }
  }

  /** One marker per slide; the marker at `idx` is lit exactly when `idx`
      is the current position; and a valid position lights exactly one. */
  lemma MarkersHighlightCurrent(k: int)
    ensures |Markers(k)| == Count()
    ensures forall idx :: 0 <= idx < |Markers(k)| ==> (Markers(k)[idx] <==> idx == k)
    ensures Highlighted(Markers(k)) == 1 <==> InRange(k)
  {
    HighlightedPrefix(k, |Slides|);
    assert Markers(k)[..|Slides|] == Markers(k);
  }

  /** The decimal digits of a number, as JSX renders `{n}`. */
  function NatText(n: nat): (s: string)
    ensures |s| >= 1
    ensures forall i :: 0 <= i < |s| ==> '0' <= s[i] <= '9'
    decreases n
  {
    if n < 10 then [Digit(n)] else NatText(n / 10) + [Digit(n % 10)]
  }

  function Digit(d: nat): (c: char)
    requires d < 10
    ensures '0' <= c <= '9'
  {
    ('0' as int + d) as char
  }

  /** Reads back a string of decimal digits. */
  function ParseNat(s: string): nat
    decreases |s|
  {
    if s == [] then 0
    else if '0' <= s[|s| - 1] <= '9' then 10 * ParseNat(s[..|s| - 1]) + (s[|s| - 1] as int - '0' as int)
    else 0
  }

  /** The rendered number can be read back: the digits mean `n`. */
  lemma {:induction false} ParseNatText(n: nat)
    ensures ParseNat(NatText(n)) == n
    decreases n
  {
    var s := NatText(n);
    if n >= 10 {
      assert s[..|s| - 1] == NatText(n / 10);
      ParseNatText(n / 10);
    }
  }

  /** The position label: `Slide {currentSlide + 1} / {slides.length}`. */
  datatype Label = Label(shown: int, total: int)

  function PositionLabel(k: int): Label {
    Label(k + 1, |Slides|)
  }

  /** JSX prints an integer with a leading minus sign when it is negative. */
  function IntText(i: int): string {
    if i < 0 then "-" + NatText(-i) else NatText(i)
  }

  /** The label as the text on screen. */
  function LabelText(l: Label): string {
    "Slide " + IntText(l.shown) + " / " + IntText(l.total)
  }

  /** At a valid position the label shows a number from 1 to 12, over 12,
      and the text shown reads back as that number. */
  lemma LabelInRange(k: int)
    requires InRange(k)
    ensures var l := PositionLabel(k);
      1 <= l.shown <= l.total == 12 && l.shown - 1 == k
    ensures var t := LabelText(PositionLabel(k));
      var digits := NatText(k + 1);
      t == "Slide " + digits + " / 12" && ParseNat(digits) == k + 1
  {
    ParseNatText(k + 1);
    assert NatText(12) == "12";
  }

  /** Everything the screen shows for a position. */
  datatype View = View(slide: Slide, markers: seq<bool>, position: Label)

  function Render(k: int): View
    requires InRange(k)
  {
    View(Lookup(k), Markers(k), PositionLabel(k))
  }

  /** The three read-outs agree: the lit marker, the label's number and the
      slide on screen all name the same position, which is `k`. */
  lemma {:induction false} RenderConsistent(k: int)
    requires InRange(k)
    ensures var v := Render(k);
      v.position.shown - 1 == k
      && Position(v.slide) == k
      && |v.markers| == v.position.total
      && Highlighted(v.markers) == 1
      && (forall idx :: 0 <= idx < |v.markers| ==> (v.markers[idx] <==> idx == v.position.shown - 1))
  {
    PositionOfLookup(k);
    MarkersHighlightCurrent(k);
  }

  /** No two positions look alike: the screen determines the state. */
  lemma RenderInjective(j: int, k: int)
    requires InRange(j) && InRange(k)
    ensures Render(j) == Render(k) <==> j == k
  {
    if Render(j) == Render(k) {
      assert PositionLabel(j).shown == PositionLabel(k).shown;
    }
  }
}
