/**
 * The first screen, NameEntry: a text box, an optional picture and a
 * Continue button that lets only the allow-listed names through.
 */
module NameGate {
  import opened Wrappers
  import opened Text

  /** The allow-list baked into the page; the model passes it around as a parameter. */
  const ALLOWED_NAMES: seq<string> := ["bubu", "celia"]

  const REJECTION_MESSAGE: string :=
    "WHO ARE YOU WTF ??? \U{1F624} This is reserved for someone special! \U{1F495}"

  datatype NameRejected = NameRejected(message: string)

  /**
   * The allow-list test of `handleContinue`: the typed name, trimmed and
   * lower-cased, must be one of `acceptedNames`. What is handed on is the
   * trimmed name in the case it was typed in.
   */
  function Validate(raw: string, acceptedNames: seq<string>): (r: Result<string, NameRejected>)
    ensures r.Success? ==> ToLower(r.value) in acceptedNames && |r.value| <= |raw|
    ensures r.Failure? ==> r.error.message == REJECTION_MESSAGE
  {
    var trimmed := Trim(raw);
    if ToLower(trimmed) !in acceptedNames then Failure(NameRejected(REJECTION_MESSAGE))
    else Success(trimmed)
  }

  /** A listed name, in any ASCII case, with any white space around it, is accepted as exactly that name. */
  lemma AcceptsPadded(p: string, w: string, q: string, acceptedNames: seq<string>)
    requires AllSpace(p) && AllSpace(q) && Tight(w)
    requires ToLower(w) in acceptedNames
    ensures Validate(p + w + q, acceptedNames) == Success(w)
  {
    TrimPadded(p, w, q);
  }

  /** A tight string whose lower-case form is not listed is refused, whatever white space surrounds it. */
  lemma RejectsPadded(p: string, w: string, q: string, acceptedNames: seq<string>)
    requires AllSpace(p) && AllSpace(q) && Tight(w)
    requires ToLower(w) !in acceptedNames
    ensures Validate(p + w + q, acceptedNames) == Failure(NameRejected(REJECTION_MESSAGE))
  {
    TrimPadded(p, w, q);
  }

  /**
   * The converse view: every raw input is white space, then a tight block,
   * then white space, and the verdict is decided by that block alone.
   */
  lemma ValidateSplits(raw: string, acceptedNames: seq<string>) returns (p: string, w: string, q: string)
    ensures raw == p + w + q && AllSpace(p) && AllSpace(q) && Tight(w)
    ensures Validate(raw, acceptedNames).Success? <==> ToLower(w) in acceptedNames
    ensures Validate(raw, acceptedNames).Success? ==> Validate(raw, acceptedNames).value == w
  {
    w := Trim(raw);
    p, q := TrimSplit(raw);
  }

  /** The accepted name passes the gate again unchanged: what is handed on is already canonical. */
  lemma AcceptedIsStable(raw: string, acceptedNames: seq<string>)
    requires Validate(raw, acceptedNames).Success?
    ensures Validate(Validate(raw, acceptedNames).value, acceptedNames) == Validate(raw, acceptedNames)
  {
    TrimIdempotent(raw);
  }

  /** With no empty entry in the list, blank input (empty or only white space) is always refused. */
  lemma BlankRejected(raw: string, acceptedNames: seq<string>)
    requires AllSpace(raw)
    requires "" !in acceptedNames
    ensures Validate(raw, acceptedNames).Failure?
  {
    TrimEmpty(raw);
    assert ToLower([]) == [];
  }

  /** "  Bubu " is let through and handed on as "Bubu". */
  lemma BubuWithSpacesAccepted()
    ensures Validate("  Bubu ", ALLOWED_NAMES) == Success("Bubu")
  {
    assert "  Bubu " == "  " + "Bubu" + " ";
    assert ToLower("Bubu") == "bubu";
    AcceptsPadded("  ", "Bubu", " ", ALLOWED_NAMES);
  }

  /** "Bob" is refused with the fixed message. */
  lemma BobRejected()
    ensures Validate("Bob", ALLOWED_NAMES) == Failure(NameRejected(REJECTION_MESSAGE))
  {
    assert "Bob" == [] + "Bob" + [];
    assert ToLower("Bob") == "bob";
    RejectsPadded([], "Bob", [], ALLOWED_NAMES);
  }

  /** What NameEntry hands to its parent through `onContinue`. */
  datatype Handoff = Handoff(name: string, image: string)

  /** The state NameEntry holds: the text typed, the picture read, the error shown ("" for none). */
  datatype EntryState = EntryState(name: string, image: string, nameError: string)

  const EntryInit: EntryState := EntryState("", "", "")

  /** `handleNameChange`: the text becomes `value` and a shown error is cleared. */
  function ChangeName(st: EntryState, value: string): (r: EntryState)
    ensures r.name == value && r.image == st.image
    ensures r.nameError == ""
  {
    var st' := st.(name := value);
    if st.nameError != "" then st'.(nameError := "") else st'
  }

  /** The `onload` callback of the file reader: the picture becomes the data URL it produced. */
  function LoadImage(st: EntryState, dataUrl: string): (r: EntryState)
    ensures r.image == dataUrl && r.name == st.name && r.nameError == st.nameError
  {
    st.(image := dataUrl)
  }

  /** The Continue button is disabled while the trimmed text is empty. */
  function ContinueEnabled(st: EntryState): (enabled: bool)
    ensures enabled <==> !AllSpace(st.name)
  {
    TrimEmpty(st.name);
    Trim(st.name) != []
  }

  /**
   * `handleContinue`: on a refused name the error is set and nothing is
   * handed on; on an accepted one the error is cleared and the trimmed name
   * goes up together with the picture. The text and picture are kept.
   */
  function Submit(st: EntryState, acceptedNames: seq<string>): (r: (EntryState, Option<Handoff>))
    ensures r.0.name == st.name && r.0.image == st.image
    ensures r.1.Some? <==> ToLower(Trim(st.name)) in acceptedNames
    ensures r.1.Some? ==> r.0.nameError == "" && r.1.value == Handoff(Trim(st.name), st.image)
    ensures r.1.None? ==> r.0.nameError == REJECTION_MESSAGE
  {
    match Validate(st.name, acceptedNames)
    case Failure(e) => (st.(nameError := e.message), None)
    case Success(trimmed) => (st.(nameError := ""), Some(Handoff(trimmed, st.image)))
  }

  /** After any edit no error is on screen, so an error never outlives the text it was about. */
  lemma ErrorOnlyForSubmittedText(st: EntryState, value: string, acceptedNames: seq<string>)
    ensures ChangeName(st, value).nameError == ""
    ensures var (after, handoff) := Submit(ChangeName(st, value), acceptedNames);
      after.nameError != "" <==> handoff.None?
  {
  }

  class NameEntry {
    const acceptedNames: seq<string>
    var name: string
    var image: string
    var nameError: string

    function State(): EntryState
      reads this
    {
      EntryState(name, image, nameError)
    }

    constructor (acceptedNames: seq<string>)
      ensures this.acceptedNames == acceptedNames
      ensures State() == EntryInit
    {
      this.acceptedNames := acceptedNames;
      name, image, nameError := "", "", "";
    }

    method HandleNameChange(value: string)
      modifies this
      ensures State() == ChangeName(old(State()), value)
    {
      name := value;
      if nameError != "" {
        nameError := "";
      }
    }

    method HandleImageLoaded(dataUrl: string)
      modifies this
      ensures State() == LoadImage(old(State()), dataUrl)
    {
      image := dataUrl;
    }

    method HandleContinue() returns (handoff: Option<Handoff>)
      modifies this
      ensures (State(), handoff) == Submit(old(State()), acceptedNames)
    {
      var trimmed := Trim(name);
      if ToLower(trimmed) !in acceptedNames {
        nameError := REJECTION_MESSAGE;
        handoff := None;
        return;
      }
      nameError := "";
      handoff := Some(Handoff(trimmed, image));
    }
  }
}
