/** The presentation page: four slides, a current-slide index moved by the
    dot buttons and the previous and next controls. */
module Presentation {
  /** The titles of the slides, in order. */
  const SlideTitles: seq<string> := ["Emlak AI", "Özellikler", "İstatistikler", "Teknoloji"]

  const SlideCount: nat := |SlideTitles|

  /** What the user can do: click dot `k`, or press previous or next. */
  datatype Action = Dot(k: nat) | Previous | Next

  /** Only the dots that are drawn can be clicked: one per slide. */
  predicate Clickable(a: Action)
  {
    a.Dot? ==> a.k < SlideCount
  }

  /** The index after one action: a dot selects its slide, previous goes back
      one but not below 0, next goes on one but not past the last slide. */
  function Step(i: nat, a: Action): (j: nat)
    ensures a.Dot? ==> j == a.k
    ensures a == Previous ==> j == if i == 0 then 0 else i - 1
    ensures a == Next ==> j == if i < SlideCount - 1 then i + 1 else SlideCount - 1
  {
    match a
    case Dot(k) => k
    case Previous => Max(0, i - 1)
    case Next => Min(SlideCount - 1, i + 1)
  }

  function Max(a: int, b: int): nat
    requires a >= 0 || b >= 0
  {
    if a >= b then a else b
  }

  function Min(a: nat, b: nat): nat
  {
    if a <= b then a else b
  }

  /** The index after a run of actions. */
  function Run(i: nat, actions: seq<Action>): nat
    decreases |actions|
  {
    if actions == [] then i else Run(Step(i, actions[0]), actions[1..])
  }

  predicate PreviousDisabled(i: nat) { i == 0 }
  predicate NextDisabled(i: nat) { i == SlideCount - 1 }
  /** The link to the platform shows only on the last slide. */
  predicate ShowsCta(i: nat) { i == SlideCount - 1 }

  /** One action from a valid index stays valid. */
  lemma StepInRange(i: nat, a: Action)
    requires i < SlideCount && Clickable(a)
    ensures Step(i, a) < SlideCount
  {
  }

  /** From any slide, the initial slide 0 included, a run of clickable
      actions keeps the index on a slide. */
  lemma {:induction false} RunInRange(i: nat, actions: seq<Action>)
    requires i < SlideCount
    requires forall n :: 0 <= n < |actions| ==> Clickable(actions[n])
    ensures Run(i, actions) < SlideCount
    decreases |actions|
  {
    if actions != [] {
      StepInRange(i, actions[0]);
      RunInRange(Step(i, actions[0]), actions[1..]);
    }
  }

  /** A control is disabled exactly where pressing it would change nothing. */
  lemma DisabledIffNoOp(i: nat)
    requires i < SlideCount
    ensures PreviousDisabled(i) <==> Step(i, Previous) == i
    ensures NextDisabled(i) <==> Step(i, Next) == i
  {
  }

  /** Next then previous returns to the slide, except from the last one;
      previous then next returns, except from the first. */
  lemma NextPreviousInverse(i: nat)
    requires i < SlideCount
    ensures !NextDisabled(i) ==> Step(Step(i, Next), Previous) == i
    ensures !PreviousDisabled(i) ==> Step(Step(i, Previous), Next) == i
  {
  }

  /** Pressing next enough times always reaches the slide with the link. */
  lemma {:induction false} NextReachesCta(i: nat)
    requires i < SlideCount
    ensures ShowsCta(Run(i, Repeat(Next, SlideCount - 1 - i)))
    decreases SlideCount - i
  {
    if i < SlideCount - 1 {
      assert Repeat(Next, SlideCount - 1 - i) == [Next] + Repeat(Next, SlideCount - 1 - (i + 1));
      NextReachesCta(i + 1);
    }
  }

  function Repeat(a: Action, n: nat): seq<Action>
  {
    if n == 0 then [] else [a] + Repeat(a, n - 1)
  }

  /** The page's state: the current slide. */
  class SlideShow {
    var current: nat

    predicate Valid()
      reads this
    {
      current < SlideCount
    }

    constructor ()
      ensures Valid() && current == 0
    {
      current := 0;
    }

    /** A dot button: its slide becomes the current one. */
    method SelectSlide(k: nat)
      requires Valid() && k < SlideCount
      modifies this
      ensures Valid() && current == Step(old(current), Dot(k))
    {
      current := k;
    }

    /** The previous control: back one slide, stopping at the first. */
    method GoPrevious()
      requires Valid()
      modifies this
      ensures Valid() && current == Step(old(current), Previous)
    {
      current := Max(0, current - 1);
    }

    /** The next control: on one slide, stopping at the last. */
    method GoNext()
      requires Valid()
      modifies this
      ensures Valid() && current == Step(old(current), Next)
    {
      current := Min(SlideCount - 1, current + 1);
    }
  }
}
