/**
 * The `validateUser` middleware that guards `POST /api/users`.
 *
 * A request body field is `None` when it is absent (or `null`) and `Some(s)` when it is a
 * string.  JavaScript's `!field` is true exactly for an absent field and for the empty string.
 */
module Validation {

  import opened Options

  const MissingFields := "Name and email are required"
  const BadEmailFormat := "Invalid email format"

  /** The outcome of validation: pass the request on, or reject it with a message. */
  datatype Verdict = Pass | Reject(message: string)

  /** The field is truthy: present and not the empty string. */
  predicate Present(field: Option<string>)
  {
    field.Some? && field.value != ""
  }

  /** `s.includes(c)` for a one-character needle: a left-to-right search. */
  function Includes(s: string, c: char): (found: bool)
    ensures found <==> exists i :: 0 <= i < |s| && s[i] == c
  {
    if s == "" then false
    else if s[0] == c then true
    else
      var found := Includes(s[1..], c);
      assert found ==> exists i :: 0 < i < |s| && s[i] == c by {
        if found {
          var j :| 0 <= j < |s[1..]| && s[1..][j] == c;
          assert s[j + 1] == c;
        }
      }
      found
  }

  /** True when an email address contains an '@' somewhere. */
  ghost predicate HasAt(email: string)
  {
    exists i :: 0 <= i < |email| && email[i] == '@'
  }

  /**
   * The middleware's decision.  Missing fields are reported before a malformed email, and a
   * request passes exactly when both fields are non-empty and the email holds an '@'.
   */
  function ValidateUser(name: Option<string>, email: Option<string>): (v: Verdict)
    ensures v == Reject(MissingFields) <==> !Present(name) || !Present(email)
    ensures v == Reject(BadEmailFormat) <==> Present(name) && Present(email) && !HasAt(email.value)
    ensures v == Pass <==> Present(name) && Present(email) && HasAt(email.value)
    ensures v.Reject? ==> v.message == MissingFields || v.message == BadEmailFormat
  {
    if !Present(name) || !Present(email) then Reject(MissingFields)
    else if !Includes(email.value, '@') then Reject(BadEmailFormat)
    else Pass
  }

}
