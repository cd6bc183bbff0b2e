/**
 * The contact form: six text fields edited one at a time, and a submit handler that
 * checks the required fields and the e-mail format before it reports the message as
 * sent and clears the form.
 */
module Contact {
  import opened Wrappers
  import opened Text

  datatype FormData = FormData(
    name: string,
    email: string,
    company: string,
    phone: string,
    subject: string,
    message: string)

  const EmptyForm: FormData := FormData("", "", "", "", "", "")

  datatype Field = Name | Email | Company | Phone | Subject | Message

  function Get(d: FormData, f: Field): string {
    match f
    case Name => d.name
    case Email => d.email
    case Company => d.company
    case Phone => d.phone
    case Subject => d.subject
    case Message => d.message
  }

  /** `{ ...formData, [f]: v }`: field `f` takes the new value, every other field keeps its own. */
  function With(d: FormData, f: Field, v: string): (r: FormData)
    ensures Get(r, f) == v
    ensures forall g :: g != f ==> Get(r, g) == Get(d, g)
  {
    match f
    case Name => d.(name := v)
    case Email => d.(email := v)
    case Company => d.(company := v)
    case Phone => d.(phone := v)
    case Subject => d.(subject := v)
    case Message => d.(message := v)
  }

  /** Two forms that agree on every field are the same form. */
  lemma FieldsDetermineForm(d: FormData, e: FormData)
    requires forall f :: Get(d, f) == Get(e, f)
    ensures d == e
  {
    assert Get(d, Name) == Get(e, Name) && Get(d, Email) == Get(e, Email);
    assert Get(d, Company) == Get(e, Company) && Get(d, Phone) == Get(e, Phone);
    assert Get(d, Subject) == Get(e, Subject) && Get(d, Message) == Get(e, Message);
  }

  /** The toast a submission ends with. */
  datatype Outcome = MissingInformation | InvalidEmail | MessageSent

  // ---------------------------------------------------------------------------
  // The e-mail pattern ^[^\s@]+@[^\s@]+\.[^\s@]+$

  /** A character of the class `[^\s@]`. */
  predicate EmailChar(c: char) {
    !IsSpace(c) && c != '@'
  }

  /**
   * The language of the pattern: a non-empty local part, `@`, a non-empty domain, a
   * dot and a non-empty last label, with every character but the `@` in `[^\s@]`.
   */
  ghost predicate EmailPattern(e: string) {
    exists i, j :: 0 < i && i + 1 < j && j + 1 < |e| && e[i] == '@' && e[j] == '.'
      && forall k :: 0 <= k < |e| && k != i ==> EmailChar(e[k])
  }

  predicate AllEmailChars(s: string) {
    forall k :: 0 <= k < |s| ==> EmailChar(s[k])
  }

  /** The first position of `c` in `s`. */
  function IndexOfChar(s: string, c: char): (r: Option<nat>)
    ensures r.None? <==> c !in s
    ensures r.Some? ==> r.value < |s| && s[r.value] == c && c !in s[..r.value]
    decreases |s|
  {
    if |s| == 0 then None
    else if s[0] == c then Some(0)
    else match IndexOfChar(s[1..], c)
      case None => None
      case Some(i) =>
        assert s[..i + 1] == [s[0]] + s[1..][..i];
        Some(i + 1)
  }

  /**
   * What `emailRegex.test(email)` checks once the first `@` is found at `i`: a
   * non-empty local part, and a domain with a dot that is neither its first nor its
   * last character, all of it in `[^\s@]`.
   */
  predicate SplitAt(e: string, i: nat)
    requires i < |e|
  {
    var domain := e[i + 1..];
    i > 0 && AllEmailChars(e[..i]) && AllEmailChars(domain)
    && exists k :: 1 <= k < |domain| - 1 && domain[k] == '.'
  }

  /** `emailRegex.test(email)`, decided by locating the `@`: true exactly for the pattern's language. */
  function IsValidEmail(e: string): (r: bool)
    ensures r <==> EmailPattern(e)
  {
    match IndexOfChar(e, '@')
    case None => false
    case Some(i) =>
      SplitAtIff(e, i);
      SplitAt(e, i)
  }

  /** Once the first `@` is found, the split test and the pattern agree. */
  lemma SplitAtIff(e: string, i: nat)
    requires IndexOfChar(e, '@') == Some(i)
    ensures SplitAt(e, i) <==> EmailPattern(e)
  {
    if SplitAt(e, i) {
      SplitMatches(e, i);
    }
    if EmailPattern(e) {
      MatchingSplit(e, i);
    }
  }

  lemma SplitMatches(e: string, i: nat)
    requires i < |e| && e[i] == '@' && SplitAt(e, i)
    ensures EmailPattern(e)
  {
    var domain := e[i + 1..];
    var k :| 1 <= k < |domain| - 1 && domain[k] == '.';
    var j := i + 1 + k;
    assert e[j] == '.';
    forall m | 0 <= m < |e| && m != i ensures EmailChar(e[m]) {
      if m < i {
        assert e[m] == e[..i][m];
      } else {
        assert e[m] == domain[m - i - 1];
      }
    }
  }

  lemma MatchingSplit(e: string, i: nat)
    requires IndexOfChar(e, '@') == Some(i) && EmailPattern(e)
    ensures SplitAt(e, i)
  {
    var a, j :| 0 < a && a + 1 < j && j + 1 < |e| && e[a] == '@' && e[j] == '.'
      && forall k :: 0 <= k < |e| && k != a ==> EmailChar(e[k]);
    assert !EmailChar(e[i]);
    var domain := e[i + 1..];
    assert domain[j - i - 1] == '.';
    assert forall m :: 0 <= m < |domain| ==> domain[m] == e[i + 1 + m];
  }

  /**
   * In plain terms: an address matches when it has exactly one `@`, not in first
   * place, no white space, and a dot after the `@` that neither follows it directly
   * nor ends the address.
   */
  lemma EmailShape(e: string)
    ensures EmailPattern(e) <==>
      && (forall k :: 0 <= k < |e| ==> !IsSpace(e[k]))
      && (exists i :: 0 < i < |e| && e[i] == '@'
            && (forall k :: 0 <= k < |e| && k != i ==> e[k] != '@')
            && (exists j :: i + 1 < j < |e| - 1 && e[j] == '.'))
  {
    if EmailPattern(e) {
      var i, j :| 0 < i && i + 1 < j && j + 1 < |e| && e[i] == '@' && e[j] == '.'
        && forall k :: 0 <= k < |e| && k != i ==> EmailChar(e[k]);
      assert forall k :: 0 <= k < |e| && k != i ==> !IsSpace(e[k]);
      assert !IsSpace(e[i]);
    }
  }

  // ---------------------------------------------------------------------------
  // Submission

  /** The checks of `handleSubmit`, in order: required fields first, then the e-mail format. */
  function Validate(d: FormData): (r: Outcome)
    ensures r == MissingInformation <==> d.name == "" || d.email == "" || d.message == ""
    ensures r == InvalidEmail <==> d.name != "" && d.email != "" && d.message != "" && !EmailPattern(d.email)
    ensures r == MessageSent <==> d.name != "" && d.email != "" && d.message != "" && EmailPattern(d.email)
  {
    if d.name == "" || d.email == "" || d.message == "" then MissingInformation
    else if !IsValidEmail(d.email) then InvalidEmail
    else MessageSent
  }

  /** Company, phone and subject are optional: editing them never changes the outcome. */
  lemma OptionalFields(d: FormData, f: Field, v: string)
    requires f == Company || f == Phone || f == Subject
    ensures Validate(With(d, f, v)) == Validate(d)
  {
    var e := With(d, f, v);
    assert Get(e, Name) == Get(d, Name);
    assert Get(e, Email) == Get(d, Email);
    assert Get(e, Message) == Get(d, Message);
  }

  /** The cleared form fails the required-field check, so a second submission reports it. */
  lemma ClearedFormIncomplete()
    ensures Validate(EmptyForm) == MissingInformation
  {
  }

  /** The state of the contact page: the current field values. */
  class ContactForm {
    var data: FormData

    constructor()
      ensures data == EmptyForm
    {
      data := EmptyForm;
    }

    /** An `onChange` handler: one field takes the typed value. */
    method Edit(field: Field, value: string)
      modifies this
      ensures data == With(old(data), field, value)
    {
      match field
      case Name => data := data.(name := value);
      case Email => data := data.(email := value);
      case Company => data := data.(company := value);
      case Phone => data := data.(phone := value);
      case Subject => data := data.(subject := value);
      case Message => data := data.(message := value);
    }

    /** `handleSubmit`: the outcome of the checks; a sent message clears every field. */
    method Submit() returns (outcome: Outcome)
      modifies this
      ensures outcome == Validate(old(data))
      ensures outcome == MessageSent ==> data == EmptyForm
      ensures outcome != MessageSent ==> data == old(data)
    {
      if data.name == "" || data.email == "" || data.message == "" {
        outcome := MissingInformation;
        return;
      }
      if !IsValidEmail(data.email) {
        outcome := InvalidEmail;
        return;
      }
      outcome := MessageSent;
      data := EmptyForm;
    }
  }
}
