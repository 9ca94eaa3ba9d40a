/** The contact form of src/components/Contact.tsx: three text fields, the
    simulated submission (`isSubmitting` for 2500 ms, then `isSubmitted` with the
    fields cleared, then back to idle after 4000 ms) and the focused-field
    highlight. The two timeouts are events; while `isSubmitted` holds the form is
    replaced by the success view, so its input, focus and submit events cannot
    occur, and a disabled submit button dispatches nothing. */
module Contact {
  import opened Options

  datatype Field = Name | Email | Message

  datatype FormData = FormData(name: string, email: string, message: string)

  const EmptyForm: FormData := FormData("", "", "")

  datatype ContactState = ContactState(
    form: FormData,
    isSubmitting: bool,
    isSubmitted: bool,
    focusedField: Option<Field>)

  function Init(): ContactState
  {
    ContactState(EmptyForm, false, false, None)
  }

  datatype Event =
    | Change(field: Field, value: string)   // `handleInputChange` for the input named `field`
    | Focus(field: Field)
    | Blur
    | Submit                                // the form's submit event
    | SubmitDelayElapsed                    // the 2500 ms simulated request resolves
    | SuccessTimeout                        // the 4000 ms success display ends

  function Get(f: FormData, field: Field): string
  {
    match field
    case Name => f.name
    case Email => f.email
    case Message => f.message
  }

  /** `{...formData, [name]: value}`. */
  function SetField(f: FormData, field: Field, value: string): (r: FormData)
    ensures Get(r, field) == value
    ensures forall g :: g != field ==> Get(r, g) == Get(f, g)
  {
    match field
    case Name => f.(name := value)
    case Email => f.(email := value)
    case Message => f.(message := value)
  }

  /** Every field carries the `required` attribute, so the browser dispatches
      no submit event while one is empty. */
  predicate AllFilled(f: FormData)
  {
    f.name != "" && f.email != "" && f.message != ""
  }

  /** The form (rather than the success view) is on screen. */
  predicate FormShown(s: ContactState)
  {
    !s.isSubmitted
  }

  function Step(s: ContactState, e: Event): ContactState
  {
    match e
    case Change(field, value) =>
      if !FormShown(s) then s else s.(form := SetField(s.form, field, value))
    case Focus(field) =>
      if !FormShown(s) then s else s.(focusedField := Some(field))
    case Blur =>
      if !FormShown(s) then s else s.(focusedField := None)
    case Submit =>
      if !FormShown(s) || s.isSubmitting || !AllFilled(s.form) then s
      else s.(isSubmitting := true)
    case SubmitDelayElapsed =>
      if !s.isSubmitting then s
      else s.(isSubmitting := false, isSubmitted := true, form := EmptyForm)
    case SuccessTimeout =>
      if !s.isSubmitted then s else s.(isSubmitted := false)
  }

  /** An edit sets the named field and leaves the other two and the
      submission flags as they were. */
  lemma ChangeTouchesOnlyField(s: ContactState, field: Field, value: string)
    requires FormShown(s)
    ensures var r := Step(s, Change(field, value));
      && Get(r.form, field) == value
      && (forall g :: g != field ==> Get(r.form, g) == Get(s.form, g))
      && r.isSubmitting == s.isSubmitting && r.isSubmitted == s.isSubmitted
  {
  }

  /** Focus highlights that field and blur clears the highlight. */
  lemma FocusTracking(s: ContactState, field: Field)
    requires FormShown(s)
    ensures Step(s, Focus(field)).focusedField == Some(field)
    ensures Step(s, Blur).focusedField == None
  {
  }

  /** The full cycle from a filled, idle form: submitting with the fields
      kept, then submitted with the fields cleared, then idle again. */
  lemma SubmitCycle(s: ContactState)
    requires !s.isSubmitting && !s.isSubmitted && AllFilled(s.form)
    ensures var sending := Step(s, Submit);
      && sending.isSubmitting && !sending.isSubmitted && sending.form == s.form
      && var sent := Step(sending, SubmitDelayElapsed);
      && !sent.isSubmitting && sent.isSubmitted && sent.form == EmptyForm
      && var idle := Step(sent, SuccessTimeout);
      && !idle.isSubmitting && !idle.isSubmitted && idle.form == EmptyForm
  {
  }

  /** The fields change only through an edit of the visible form or at the
      completion of a submission, which empties them in the same step that
      raises `isSubmitted`. */
  lemma FormChangesOnlyByEditOrCompletion(s: ContactState, e: Event)
    ensures Step(s, e).form != s.form ==>
      (e.Change? && FormShown(s))
      || (e.SubmitDelayElapsed? && s.isSubmitting && Step(s, e).form == EmptyForm && Step(s, e).isSubmitted)
  {
  }

  /** While the success view is shown no user event has an effect, and while
      submitting a second submit is ignored. */
  lemma IgnoredEvents(s: ContactState, e: Event)
    ensures s.isSubmitted && (e.Change? || e.Focus? || e.Blur? || e.Submit?) ==> Step(s, e) == s
    ensures s.isSubmitting && e.Submit? ==> Step(s, e) == s
    ensures !AllFilled(s.form) && e.Submit? ==> Step(s, e) == s
  {
  }

  /** The inputs stay editable while submitting (only the button is
      disabled), and whatever is typed then is discarded at completion. */
  lemma EditDuringSubmitIsDiscarded(s: ContactState, field: Field, value: string)
    requires s.isSubmitting && !s.isSubmitted
    ensures Get(Step(s, Change(field, value)).form, field) == value
    ensures Step(Step(s, Change(field, value)), SubmitDelayElapsed).form == EmptyForm
  {
  }

  function Run(s: ContactState, events: seq<Event>): ContactState
    decreases |events|
  {
    if |events| == 0 then s else Run(Step(s, events[0]), events[1..])
  }

  /** Whatever the events, the form is never submitting and submitted at once. */
  lemma {:induction false} NeverBothFlags(s: ContactState, events: seq<Event>)
    requires !(s.isSubmitting && s.isSubmitted)
    ensures !(Run(s, events).isSubmitting && Run(s, events).isSubmitted)
    decreases |events|
  {
    if |events| > 0 {
      NeverBothFlags(Step(s, events[0]), events[1..]);
    }
  }
}
