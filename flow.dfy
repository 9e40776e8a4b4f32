/**
 * The page component `Index`: which of the three screens is shown, and the
 * name and picture carried from the first screen to the other two.
 */
module Flow {

  /** `useState<1 | 2 | 3>`: 1 the name entry, 2 the question, 3 the celebration. */
  type StepNumber = n: int | 1 <= n <= 3 witness 1

  const ENTRY: StepNumber := 1
  const QUESTION: StepNumber := 2
  const CELEBRATION: StepNumber := 3

  datatype Session = Session(step: StepNumber, name: string, image: string)

  const Start: Session := Session(ENTRY, "", "")

  /** The two callbacks `Index` hands down: `onContinue(n, img)` to NameEntry and `onYes()` to TheQuestion. */
  datatype FlowEvent = Continue(name: string, image: string) | Yes

  /** True when the screen that owns the callback of `e` is the one shown. */
  predicate Offered(s: Session, e: FlowEvent) {
    match e
    case Continue(_, _) => s.step == ENTRY
    case Yes => s.step == QUESTION
  }

  /**
   * One callback. An event whose screen is not shown cannot happen, and
   * leaves the session as it is.
   */
  function Next(s: Session, e: FlowEvent): (r: Session)
    ensures s.step <= r.step <= s.step + 1
    ensures r.step != s.step <==> Offered(s, e)
    ensures r != s ==> Offered(s, e)
    ensures s.step == CELEBRATION ==> r == s
    ensures (r.name, r.image) != (s.name, s.image) ==> s.step == ENTRY && e.Continue?
    ensures s.step == ENTRY && e.Continue? ==> r == Session(QUESTION, e.name, e.image)
  {
    match e
    case Continue(n, img) =>
      if s.step == ENTRY then Session(QUESTION, n, img) else s
    case Yes =>
      if s.step == QUESTION then s.(step := CELEBRATION) else s
  }

  /** The session after a sequence of callbacks, oldest first. */
  function Run(s: Session, es: seq<FlowEvent>): Session
    decreases |es|
  {
    if es == [] then s else Next(Run(s, es[..|es| - 1]), es[|es| - 1])
  }

  /** The step never goes back: a later point of a run is never on an earlier screen. */
  lemma {:induction false} StepNeverDecreases(s: Session, es: seq<FlowEvent>, k: nat)
    requires k <= |es|
    ensures Run(s, es[..k]).step <= Run(s, es).step
    decreases |es|
  {
    if k < |es| {
      var init := es[..|es| - 1];
      assert init[..k] == es[..k];
      StepNeverDecreases(s, init, k);
    } else {
      assert es[..k] == es;
    }
  }

  /** Once the name and picture are committed they stay: nothing after the first screen changes them. */
  lemma {:induction false} CommittedValuesFrozen(s: Session, es: seq<FlowEvent>)
    requires s.step != ENTRY
    ensures Run(s, es).name == s.name && Run(s, es).image == s.image
    ensures Run(s, es).step >= s.step
    decreases |es|
  {
    if es != [] {
      CommittedValuesFrozen(s, es[..|es| - 1]);
    }
  }

  /** The celebration is final: no sequence of callbacks leaves it. */
  lemma {:induction false} CelebrationIsFinal(s: Session, es: seq<FlowEvent>)
    requires s.step == CELEBRATION
    ensures Run(s, es) == s
    decreases |es|
  {
    if es != [] {
      CelebrationIsFinal(s, es[..|es| - 1]);
    }
  }

  /**
   * From the start, the celebration is reached only by a Continue followed
   * later by a Yes, and the name shown there is the one that Continue carried.
   */
  lemma {:induction false} CelebrationNeedsContinueThenYes(es: seq<FlowEvent>) returns (i: nat, j: nat)
    requires Run(Start, es).step == CELEBRATION
    ensures i < j < |es| && es[i].Continue? && es[j].Yes?
    ensures es[i].name == Run(Start, es).name && es[i].image == Run(Start, es).image
    decreases |es|
  {
    var init := es[..|es| - 1];
    var before := Run(Start, init);
    if before.step == CELEBRATION {
      i, j := CelebrationNeedsContinueThenYes(init);
      assert es[i] == init[i] && es[j] == init[j];
    } else {
      i := ContinueOf(init);
      j := |es| - 1;
      assert es[i] == init[i];
    }
  }

  /** A run from the start that is on the question screen went through one Continue, which carried its name. */
  lemma {:induction false} ContinueOf(es: seq<FlowEvent>) returns (i: nat)
    requires Run(Start, es).step == QUESTION
    ensures i < |es| && es[i].Continue?
    ensures es[i].name == Run(Start, es).name && es[i].image == Run(Start, es).image
    decreases |es|
  {
    var init := es[..|es| - 1];
    var before := Run(Start, init);
    if before.step == QUESTION {
      i := ContinueOf(init);
      assert es[i] == init[i];
    } else {
      i := |es| - 1;
    }
  }

  /** The component: its three `useState` slots. */
  class Index {
    var step: StepNumber
    var name: string
    var image: string

    function State(): Session
      reads this
    {
      Session(step, name, image)
    }

    constructor ()
      ensures State() == Start
    {
      step, name, image := ENTRY, "", "";
    }

    /** `onContinue`, reachable only while NameEntry is shown. */
    method OnContinue(n: string, img: string)
      requires step == ENTRY
      modifies this
      ensures State() == Next(old(State()), Continue(n, img))
    {
      name := n;
      image := img;
      step := QUESTION;
    }

    /** `onYes`, reachable only while TheQuestion is shown. */
    method OnYes()
      requires step == QUESTION
      modifies this
      ensures State() == Next(old(State()), Yes)
    {
      step := CELEBRATION;
    }
  }
}
