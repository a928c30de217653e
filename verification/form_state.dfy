/**
 The visitor form as a state machine: startup load of the stored history,
 field edits and submission. React state updates are plain assignments; the
 browser store is an optional history, with its JSON encoding taken as the
 identity; the submission time is an opaque string given by the caller.
 */
module FormState {
  import opened Validation

  datatype Option<+T> = None | Some(value: T)

  /** Everything the component holds: the draft, the messages on display,
      the history (newest first), the last accepted entry, and the value
      stored under the history key (None when the key is absent). */
  datatype State = State(
    draft: Draft,
    errors: Errors,
    history: seq<Record>,
    lastSubmission: Option<Record>,
    store: Option<seq<Record>>)

  /** The state after mounting: the initial draft, no messages, no last
      submission, and the history read from the store when one is stored. */
  function Load(store: Option<seq<Record>>): (s: State)
    ensures s.draft == EmptyDraft && s.errors == map[] && s.lastSubmission == None
    ensures s.store == store
    ensures store == None ==> s.history == []
    ensures store.Some? ==> s.history == store.value
  {
    var initial := State(EmptyDraft, map[], [], None, store);
    match store
    case None => initial
    case Some(h) => initial.(history := h)
  }

  /** `handleChange`: the named field takes the new value; nothing else,
      not even the messages on display, changes. */
  function Change(s: State, f: Field, v: string): (s': State)
    ensures s'.draft.Get(f) == v
    ensures forall g :: g != f ==> s'.draft.Get(g) == s.draft.Get(g)
    ensures s'.errors == s.errors && s'.history == s.history
    ensures s'.lastSubmission == s.lastSubmission && s'.store == s.store
  {
    s.(draft := s.draft.Set(f, v))
  }

  /** `handleSubmit` at time `timestamp`. A draft that is not valid only
      puts its messages on display. A valid one becomes a new entry at the
      front of the history, the whole history is written to the store, the
      entry becomes the last submission, and the form is cleared. */
  function Submit(s: State, timestamp: string): (s': State)
    ensures !IsValidDraft(s.draft) ==>
              && s'.errors == Validate(s.draft) && s'.errors != map[]
              && s'.draft == s.draft && s'.history == s.history
              && s'.lastSubmission == s.lastSubmission && s'.store == s.store
    ensures IsValidDraft(s.draft) ==>
              var entry := EntryOf(s.draft, timestamp);
              && |s'.history| == |s.history| + 1
              && s'.history == [entry] + s.history && s'.history[0] == entry
              && s'.store == Some(s'.history)
              && s'.lastSubmission == Some(entry)
              && s'.errors == map[]
              && s'.draft == EmptyDraft
  {
    ValidateEmptyIffValid(s.draft);
    var errs := Validate(s.draft);
    if errs != map[] then
      s.(errors := errs)
    else
      var entry := EntryOf(s.draft, timestamp);
      var updated := [entry] + s.history;
      State(EmptyDraft, errs, updated, Some(entry), Some(updated))
  }

  /** A user action on the mounted form. */
  datatype Event = Edit(field: Field, value: string) | SubmitAt(timestamp: string)

  function Step(s: State, e: Event): State {
    match e
    case Edit(f, v) => Change(s, f, v)
    case SubmitAt(t) => Submit(s, t)
  }

  /** The state after a sequence of actions, applied in order. */
  function Run(s: State, events: seq<Event>): State
    decreases |events|
  {
    if |events| == 0 then s else Run(Step(s, events[0]), events[1..])
  }

  /** The in-memory history agrees with the store (absent store, empty
      history), so a fresh load would see the same list. */
  ghost predicate Synced(s: State) {
    match s.store
    case None => s.history == []
    case Some(h) => s.history == h
  }

  /** A record whose four form fields make a valid draft, which is to say
      (by `ValidateEmptyIffValid`) one the validator has no message for. */
  predicate IsValidRecord(r: Record) {
    IsValidDraft(DraftOf(r))
  }

  /** `h` is the list `loaded` with valid records put in front of it. */
  ghost predicate GrownFrom(h: seq<Record>, loaded: seq<Record>) {
    && |loaded| <= |h|
    && h[|h| - |loaded|..] == loaded
    && (forall i :: 0 <= i < |h| - |loaded| ==> IsValidRecord(h[i]))
  }

  /** What holds throughout a session that loaded `loaded`: the history is
      in sync with the store, it is the loaded list with only valid records
      added in front, and the last submission, once there is one, is the
      newest added record. */
  ghost predicate SessionInv(s: State, loaded: seq<Record>) {
    && Synced(s)
    && GrownFrom(s.history, loaded)
    && (s.lastSubmission == None ==> s.history == loaded)
    && (s.lastSubmission.Some? ==>
          |s.history| > |loaded| && s.lastSubmission.value == s.history[0])
  }

  /** Putting a valid record in front keeps the history grown from `loaded`. */
  lemma PrependValidKeepsGrown(h: seq<Record>, loaded: seq<Record>, e: Record)
    requires GrownFrom(h, loaded) && IsValidRecord(e)
    ensures GrownFrom([e] + h, loaded)
  {
  }

  /** Startup establishes the invariant, with the loaded history as base. */
  lemma LoadEstablishesInv(store: Option<seq<Record>>)
    ensures SessionInv(Load(store), Load(store).history)
  {
  }

  /** Edits touch only the draft, so they keep the invariant. */
  lemma ChangePreservesInv(s: State, loaded: seq<Record>, f: Field, v: string)
    requires SessionInv(s, loaded)
    ensures SessionInv(Change(s, f, v), loaded)
  {
  }

  /** A rejected submission only changes the messages; an accepted one puts
      a valid entry in front and writes the whole history to the store. */
  lemma SubmitPreservesInv(s: State, loaded: seq<Record>, timestamp: string)
    requires SessionInv(s, loaded)
    ensures SessionInv(Submit(s, timestamp), loaded)
  {
    if IsValidDraft(s.draft) {
      var e := EntryOf(s.draft, timestamp);
      PrependValidKeepsGrown(s.history, loaded, e);
      assert Submit(s, timestamp).history == [e] + s.history;
    }
  }

  /** Any sequence of user actions keeps the invariant. */
  lemma {:induction false} RunPreservesInv(s: State, loaded: seq<Record>, events: seq<Event>)
    requires SessionInv(s, loaded)
    ensures SessionInv(Run(s, events), loaded)
    decreases |events|
  {
    if |events| > 0 {
      var s1 := Step(s, events[0]);
      match events[0] {
        case Edit(f, v) => ChangePreservesInv(s, loaded, f, v);
        case SubmitAt(t) => SubmitPreservesInv(s, loaded, t);
      }
      RunPreservesInv(s1, loaded, events[1..]);
    }
  }

  /** Over any session started from any store: the history is the loaded
      list with only records that pass the validator put in front of it
      (loaded records themselves are never checked), and the last
      submission heads the history. Storage writes are taken to succeed, so
      the store always holds exactly the history on display and reloading
      reproduces it. */
  lemma SessionGuarantees(store: Option<seq<Record>>, events: seq<Event>)
    ensures var s := Run(Load(store), events);
            && GrownFrom(s.history, Load(store).history)
            && Load(s.store).history == s.history
            && (s.lastSubmission.Some? ==> |s.history| > 0 && s.history[0] == s.lastSubmission.value)
  {
    var s0 := Load(store);
    LoadEstablishesInv(store);
    RunPreservesInv(s0, s0.history, events);
  }

  /** Editing a field twice keeps only the second value. */
  lemma ChangeLastWriteWins(s: State, f: Field, v: string, w: string)
    ensures Change(Change(s, f, v), f, w) == Change(s, f, w)
  {
  }

  /** Edits of two different fields commute. */
  lemma ChangesCommute(s: State, f: Field, v: string, g: Field, w: string)
    requires f != g
    ensures Change(Change(s, f, v), g, w) == Change(Change(s, g, w), f, v)
  {
  }

  /** Submitting a rejected draft again changes nothing more. */
  lemma RejectedSubmitIdempotent(s: State, t: string, t': string)
    requires !IsValidDraft(s.draft)
    ensures Submit(Submit(s, t), t') == Submit(s, t)
  {
  }

  /** A second submission right after an accepted one is rejected: the
      cleared form gets the "required" message on every field and the
      history does not grow. */
  lemma SubmitAfterAcceptRejected(s: State, t: string, t': string)
    requires IsValidDraft(s.draft)
    ensures var s1 := Submit(s, t);
            var s2 := Submit(s1, t');
            && s2.history == s1.history
            && s2.errors == map[FullName := FullNameRequired, FlatNumber := FlatNumberRequired,
                                Purpose := PurposeRequired, MobileNumber := MobileRequired]
  {
  }
}
