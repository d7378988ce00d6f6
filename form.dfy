/**
 * The decision `handleFormSubmit` makes when the notify form is submitted:
 * the input's value is trimmed and validated; a valid address yields a
 * success notification that quotes it and clears the input, anything else
 * yields the fixed error notification and leaves the input as it was.
 */
module Form {
  import opened Chars
  import opened Email

  /** The two notification styles, `notification-success` and
      `notification-error`. */
  datatype Kind = Success | Error

  /** What one submission shows and what it leaves in the email input. */
  datatype Outcome = Outcome(kind: Kind, message: string, inputValue: string)

  const SuccessPrefix: string := "Thank you! We'll notify you at "
  const SuccessSuffix: string := " when we launch."
  const InvalidEmailMessage: string := "Please enter a valid email address."

  /** The success text with the address interpolated. */
  function SuccessMessage(email: string): (m: string)
    ensures |m| == |SuccessPrefix| + |email| + |SuccessSuffix|
    ensures m[..|SuccessPrefix|] == SuccessPrefix
    ensures m[|SuccessPrefix|..|SuccessPrefix| + |email|] == email
  {
    SuccessPrefix + email + SuccessSuffix
  }

  /** `t` occurs in `m` starting at index `k`. */
  ghost predicate QuotesAt(m: string, t: string, k: int) {
    0 <= k <= |m| - |t| && m[k..k + |t|] == t
  }

  /** `t` occurs in `m` as a contiguous piece. */
  ghost predicate Quotes(m: string, t: string) {
    exists k :: QuotesAt(m, t, k)
  }

  /** `handleFormSubmit` for the input's current value `value`. */
  function SubmitOutcome(value: string): Outcome
  {
    var email := Trim(value);
    if ValidateEmail(email) then Outcome(Success, SuccessMessage(email), "")
    else Outcome(Error, InvalidEmailMessage, value)
  }

  /** A submission succeeds exactly when the trimmed value is a valid
      address; success quotes that address and clears the input, failure
      shows the fixed error text and leaves the input as typed. */
  lemma SubmitOutcomeSpec(value: string)
    ensures var o := SubmitOutcome(value);
            && (o.kind == Success <==> ValidateEmail(Trim(value)))
            && (o.kind == Success ==> o.inputValue == "" && Quotes(o.message, Trim(value)))
            && (o.kind == Error ==> o.message == InvalidEmailMessage && o.inputValue == value)
  {
    var email := Trim(value);
    if ValidateEmail(email) {
      assert QuotesAt(SuccessMessage(email), email, |SuccessPrefix|);
    }
  }

  /** Whitespace around the typed value never changes the outcome, apart
      from the error path keeping the raw value in the input. */
  lemma {:induction false} PaddingDoesNotMatter(p: string, v: string, q: string)
    requires AllSpace(p) && AllSpace(q)
    ensures SubmitOutcome(p + v + q).kind == SubmitOutcome(v).kind
    ensures SubmitOutcome(p + v + q).message == SubmitOutcome(v).message
  {
    TrimAbsorbsPadding(p, v, q);
  }

  /** A valid address typed with surrounding whitespace is accepted, quoted
      without that whitespace, and the input is cleared. */
  lemma {:induction false} PaddedValidAddressAccepted(p: string, email: string, q: string)
    requires AllSpace(p) && AllSpace(q) && ValidateEmail(email)
    ensures SubmitOutcome(p + email + q) == Outcome(Success, SuccessMessage(email), "")
  {
    TrimStrips(p, email, q);
  }

  /** Submitting "user@example.com" clears the input and shows a success
      notification that quotes the address. */
  lemma SampleSubmitAccepted(value: string)
    requires value == "user@example.com"
    ensures SubmitOutcome(value) == Outcome(Success, SuccessMessage(value), "")
  {
    SampleAccepted(value);
    PaddedValidAddressAccepted([], value, []);
    assert [] + value + [] == value;
  }

  /** Submitting "not-an-email" shows the fixed error text and leaves the
      input unchanged. */
  lemma SampleSubmitRejected(value: string)
    requires value == "not-an-email"
    ensures SubmitOutcome(value) == Outcome(Error, InvalidEmailMessage, value)
  {
    assert NoSpace(value) && IsTrimmed(value);
    TrimStrips([], value, []);
    assert [] + value + [] == value;
    SampleRejected(value);
  }
}
