/** The contact form's four text fields and their per-field update. */
module ContactForm {

  datatype FormData = FormData(name: string, email: string, subject: string, message: string)

  /** The `name` attribute of each form control. */
  datatype Field = Name | Email | Subject | Message

  /** The form as it is at mount and after a completed submission. */
  const EmptyForm: FormData := FormData("", "", "", "")

  /** `formData[f]`. */
  function Get(d: FormData, f: Field): string
  {
    match f
    case Name => d.name
    case Email => d.email
    case Subject => d.subject
    case Message => d.message
  }

  /** `{...d, [f]: value}`: field `f` takes the new value and the other three keep theirs. */
  function WithField(d: FormData, f: Field, value: string): (r: FormData)
    ensures Get(r, f) == value
    ensures forall g: Field :: g != f ==> Get(r, g) == Get(d, g)
  {
    match f
    case Name => d.(name := value)
    case Email => d.(email := value)
    case Subject => d.(subject := value)
    case Message => d.(message := value)
  }

  /** Every control carries `required`: the browser submits only when no field is empty. */
  predicate IsFilled(d: FormData)
  {
    forall f: Field :: Get(d, f) != ""
  }

  /** Two forms that agree on every field are the same form. */
  lemma FieldsDetermineForm(d: FormData, e: FormData)
    requires forall f: Field :: Get(d, f) == Get(e, f)
    ensures d == e
  {
    assert Get(d, Name) == Get(e, Name) && Get(d, Email) == Get(e, Email);
    assert Get(d, Subject) == Get(e, Subject) && Get(d, Message) == Get(e, Message);
  }

  /** Writing back the value a field already holds changes nothing. */
  lemma WithSameValueIsIdentity(d: FormData, f: Field)
    ensures WithField(d, f, Get(d, f)) == d
  {
    FieldsDetermineForm(WithField(d, f, Get(d, f)), d);
  }

  /** The later of two writes to one field wins. */
  lemma LastWriteWins(d: FormData, f: Field, v: string, w: string)
    ensures WithField(WithField(d, f, v), f, w) == WithField(d, f, w)
  {
    FieldsDetermineForm(WithField(WithField(d, f, v), f, w), WithField(d, f, w));
  }

  /** Writes to two different fields commute. */
  lemma DistinctWritesCommute(d: FormData, f: Field, v: string, g: Field, w: string)
    requires f != g
    ensures WithField(WithField(d, f, v), g, w) == WithField(WithField(d, g, w), f, v)
  {
    FieldsDetermineForm(WithField(WithField(d, f, v), g, w), WithField(WithField(d, g, w), f, v));
  }

  /** The emptied form fails the `required` check, so it cannot be resubmitted as it is. */
  lemma EmptyFormIsNotFilled()
    ensures !IsFilled(EmptyForm)
  {
    assert Get(EmptyForm, Name) == "";
  }
}
