/**
 * The whole page: `Index` shows exactly one of the three screens, and only
 * the shown screen's handlers can fire. NameEntry's state, TheQuestion's
 * state and the session are composed here into one state machine.
 */
module App {
  import opened Wrappers
  import opened Text
  import opened NameGate
  import opened Flow
  import Evasion

  datatype AppState = AppState(session: Session, entry: EntryState, question: Evasion.EvasionState)

  /** The page as first rendered. */
  const Loaded: AppState := AppState(Start, EntryInit, Evasion.Initial)

  /** What the visitor can do: type, pick a picture, press Continue, reach for "No", press "Yes". */
  datatype Action =
    | TypeName(value: string)
    | ImageRead(dataUrl: string)
    | PressContinue
    | ReachNo(encounter: Evasion.Encounter)
    | PressYes

  /**
   * One action. Actions aimed at a screen that is not shown do nothing, and
   * so does pressing the disabled Continue button. An accepted name moves
   * the session on and mounts a fresh TheQuestion.
   */
  function Dispatch(a: AppState, act: Action, acceptedNames: seq<string>): AppState {
    match act
    case TypeName(value) =>
      if a.session.step == ENTRY then a.(entry := ChangeName(a.entry, value)) else a
    case ImageRead(dataUrl) =>
      if a.session.step == ENTRY then a.(entry := LoadImage(a.entry, dataUrl)) else a
    case PressContinue =>
      if a.session.step == ENTRY && ContinueEnabled(a.entry) then
        var (entry', handoff) := Submit(a.entry, acceptedNames);
        match handoff
        case None => a.(entry := entry')
        case Some(h) => AppState(Next(a.session, Continue(h.name, h.image)), entry', Evasion.Initial)
      else
        a
    case ReachNo(e) =>
      if a.session.step == QUESTION then a.(question := Evasion.Trigger(a.question, e)) else a
    case PressYes =>
      if a.session.step == QUESTION then a.(session := Next(a.session, Yes)) else a
  }

  /** The state after a sequence of actions, oldest first. */
  function Replay(a: AppState, acts: seq<Action>, acceptedNames: seq<string>): AppState
    decreases |acts|
  {
    if acts == [] then a else Dispatch(Replay(a, acts[..|acts| - 1], acceptedNames), acts[|acts| - 1], acceptedNames)
  }

  /**
   * What holds of every reachable page: nothing is committed while on the
   * first screen and the question is not yet mounted; past it, the
   * committed name is the non-empty trimmed text of the box, passes the gate as it
   * is, and the committed picture is the one picked; the scales are in range.
   */
  ghost predicate Consistent(a: AppState, acceptedNames: seq<string>) {
    && Evasion.InRange(a.question)
    && (a.session.step == ENTRY ==>
          a.session.name == "" && a.session.image == "" && a.question == Evasion.Initial)
    && (a.session.step != ENTRY ==>
          && a.session.name != ""
          && a.session.name == Trim(a.entry.name)
          && a.session.image == a.entry.image
          && Validate(a.session.name, acceptedNames) == Success(a.session.name))
  }

  /** Pressing Continue keeps the page consistent; an accepted name commits exactly what the box and picture hold. */
  lemma SubmitKeepsConsistent(a: AppState, acceptedNames: seq<string>)
    requires Consistent(a, acceptedNames)
    requires a.session.step == ENTRY && ContinueEnabled(a.entry)
    ensures Consistent(Dispatch(a, PressContinue, acceptedNames), acceptedNames)
  {
    var b := Dispatch(a, PressContinue, acceptedNames);
    if Validate(a.entry.name, acceptedNames).Success? {
      AcceptedIsStable(a.entry.name, acceptedNames);
      assert b.session == Session(QUESTION, Trim(a.entry.name), a.entry.image);
      assert b.entry.name == a.entry.name && b.entry.image == a.entry.image;
    } else {
      assert b.session == a.session && b.question == a.question;
    }
  }

  /** Every action keeps the page consistent and never sends it back a screen. */
  lemma DispatchKeepsConsistent(a: AppState, act: Action, acceptedNames: seq<string>)
    requires Consistent(a, acceptedNames)
    ensures Consistent(Dispatch(a, act, acceptedNames), acceptedNames)
    ensures a.session.step <= Dispatch(a, act, acceptedNames).session.step
  {
    match act
    case PressContinue =>
      if a.session.step == ENTRY && ContinueEnabled(a.entry) {
        SubmitKeepsConsistent(a, acceptedNames);
      }
    case TypeName(_) =>
    case ImageRead(_) =>
    case ReachNo(_) =>
    case PressYes =>
  }

  /** Every page reachable from the first render is consistent. */
  lemma {:induction false} ReplayConsistent(acts: seq<Action>, acceptedNames: seq<string>)
    ensures Consistent(Replay(Loaded, acts, acceptedNames), acceptedNames)
    decreases |acts|
  {
    if acts != [] {
      ReplayConsistent(acts[..|acts| - 1], acceptedNames);
      DispatchKeepsConsistent(Replay(Loaded, acts[..|acts| - 1], acceptedNames), acts[|acts| - 1], acceptedNames);
    }
  }

  /** Along any sequence of actions the step never decreases. */
  lemma {:induction false} ReplayNeverGoesBack(acts: seq<Action>, k: nat, acceptedNames: seq<string>)
    requires k <= |acts|
    ensures Replay(Loaded, acts[..k], acceptedNames).session.step <= Replay(Loaded, acts, acceptedNames).session.step
    decreases |acts|
  {
    if k < |acts| {
      var init := acts[..|acts| - 1];
      assert init[..k] == acts[..k];
      ReplayNeverGoesBack(init, k, acceptedNames);
      ReplayConsistent(init, acceptedNames);
      DispatchKeepsConsistent(Replay(Loaded, init, acceptedNames), acts[|acts| - 1], acceptedNames);
    } else {
      assert acts[..k] == acts;
    }
  }

  /** Whatever the list, the name shown on the later screens is never empty: Continue is disabled while the trimmed text is. */
  lemma CommittedNameNonEmpty(acts: seq<Action>, acceptedNames: seq<string>)
    ensures var a := Replay(Loaded, acts, acceptedNames);
      a.session.step != ENTRY ==> |a.session.name| > 0
  {
    ReplayConsistent(acts, acceptedNames);
  }

  /** A refused name sets the error and keeps the page on the first screen with nothing committed. */
  lemma RefusedNameStays(a: AppState, acceptedNames: seq<string>)
    requires a.session.step == ENTRY
    requires Validate(a.entry.name, acceptedNames).Failure?
    ensures Dispatch(a, PressContinue, acceptedNames).session == a.session
    ensures ContinueEnabled(a.entry) ==> Dispatch(a, PressContinue, acceptedNames).entry.nameError == REJECTION_MESSAGE
  {
  }

  /** An accepted name moves to the question with the trimmed name, the picture, and a fresh docked "No". */
  lemma AcceptedNameAdvances(a: AppState, acceptedNames: seq<string>)
    requires a.session.step == ENTRY
    requires Validate(a.entry.name, acceptedNames).Success?
    requires "" !in acceptedNames
    ensures var b := Dispatch(a, PressContinue, acceptedNames);
      && b.session == Session(QUESTION, Trim(a.entry.name), a.entry.image)
      && b.entry.nameError == ""
      && b.question == Evasion.Initial
  {
    assert ToLower([]) == "";
  }
}
