/** picsure/src/pages/Register.jsx: the registration form's validator. An
    empty string is falsy in JavaScript, so "required" means "non-empty". */
module RegisterForm {
  import opened Wrappers
  import Js

  /** One match of `\S+@\S+\.\S+` with its `@` at `p` and its `.` at `q`:
      a non-blank before the `@`, at least one non-blank between the two,
      and a non-blank after the dot. */
  predicate Shape(s: string, p: int, q: int)
    requires 0 <= p < q < |s|
  {
    && 1 <= p && p + 2 <= q && q + 1 < |s|
    && s[p] == '@' && !Js.IsSpace(s[p - 1])
    && s[q] == '.' && !Js.IsSpace(s[q + 1])
    && forall k | p < k < q :: !Js.IsSpace(s[k])
  }

  /** `/\S+@\S+\.\S+/.test(s)`: the pattern is not anchored, so it holds iff
      one match exists anywhere in the string. */
  predicate EmailLike(s: string) {
    exists p, q | 0 <= p < q < |s| :: Shape(s, p, q)
  }

  /** A left-to-right search for a match: each `@` preceded by a non-blank
      starts a scan over the non-blank run after it, looking for a dot
      that has a non-blank on both sides. */
  method TestEmail(s: string) returns (b: bool)
    ensures b <==> EmailLike(s)
  {
    var p := 1;
    while p < |s|
      invariant 1 <= p
      invariant forall p', q' | 0 <= p' < p && p' < q' < |s| :: !Shape(s, p', q')
    {
      if s[p] == '@' && !Js.IsSpace(s[p - 1]) {
        var q := p + 1;
        while q < |s| && !Js.IsSpace(s[q])
          invariant p + 1 <= q <= |s|
          invariant forall k | p < k < q :: !Js.IsSpace(s[k])
          invariant forall q' | p < q' < q :: !Shape(s, p, q')
        {
          if p + 2 <= q && s[q] == '.' && q + 1 < |s| && !Js.IsSpace(s[q + 1]) {
            assert Shape(s, p, q);
            return true;
          }
          q := q + 1;
        }
        forall q' | q <= q' < |s| && p < q'
          ensures !Shape(s, p, q')
        {
          if q < q' {
            assert Js.IsSpace(s[q]);
          }
        }
      }
      p := p + 1;
    }
    return false;
  }

  /** The form as the component holds it. `ageValue` is `Number(age)`,
      `None` when that is NaN. */
  datatype Form = Form(
    username: string,
    email: string,
    password: string,
    confirmPassword: string,
    age: string,
    ageValue: Option<real>)

  /** The error object: one optional message per field. */
  datatype Errors = Errors(
    username: Option<string>,
    email: Option<string>,
    password: Option<string>,
    confirmPassword: Option<string>,
    age: Option<string>)
  {
    /** `Object.keys(newErrors).length === 0`. */
    predicate None() {
      username.None? && email.None? && password.None? && confirmPassword.None? && age.None?
    }
  }

  /** `validateForm`: the error object it records. */
  function Validate(f: Form): (e: Errors)
    ensures e.username.Some? <==> f.username == ""
    ensures e.email == (if f.email == "" then Some("Email is required")
                        else if !EmailLike(f.email) then Some("Email is invalid") else None)
    ensures e.password.None? <==> Js.Length(f.password) >= 6
    ensures e.confirmPassword.Some? <==> f.password != f.confirmPassword
  {
    Errors(
      if f.username == "" then Some("Username is required") else None,
      if f.email == "" then Some("Email is required")
      else if !EmailLike(f.email) then Some("Email is invalid") else None,
      if f.password == "" then Some("Password is required")
      else if Js.Length(f.password) < 6 then Some("Password must be at least 6 characters") else None,
      if f.password != f.confirmPassword then Some("Passwords do not match") else None,
      if f.age == "" then Some("Age is required")
      else if f.ageValue.None? || f.ageValue.value < 14.0 || f.ageValue.value > 30.0 then
        Some("Age must be between 14 and 30")
      else None)
  }

  /** `validateForm` returns true iff every field is acceptable: a name, an
      address of the shape x@y.z, a password of at least six UTF-16 code
      units confirmed exactly, and an age that is a number from 14 to 30. */
  lemma ValidIff(f: Form)
    ensures Validate(f).None() <==>
      && f.username != ""
      && f.email != "" && EmailLike(f.email)
      && Js.Length(f.password) >= 6
      && f.password == f.confirmPassword
      && f.age != "" && f.ageValue.Some? && 14.0 <= f.ageValue.value <= 30.0
  {
  }

  /** The length check is JavaScript's: a password of three emoji is six
      code units long and passes it. */
  lemma EmojiPasswordLongEnough(f: Form)
    requires f.password == "\U{1F600}\U{1F600}\U{1F600}"
    ensures Validate(f).password.None?
  {
    Js.AstralCountsTwice();
  }

  /** The confirmation check does not depend on the other password checks:
      an empty password with a non-empty confirmation gets both errors. */
  lemma MismatchAlwaysReported(f: Form)
    requires f.password == "" && f.confirmPassword != ""
    ensures Validate(f).password == Some("Password is required")
    ensures Validate(f).confirmPassword == Some("Passwords do not match")
  {
  }

  /** Examples of the pattern: the unanchored match accepts "a@b.c" and text
      around it, and refuses an address without a dot after the `@` or with
      a blank inside. */
  lemma EmailExamples()
    ensures EmailLike("a@b.c")
    ensures EmailLike(" x a@b.c ")
    ensures !EmailLike("a@b")
    ensures !EmailLike("a@.c")
    ensures !EmailLike("a@b c.d")
  {
    assert Shape("a@b.c", 1, 3);
    assert Shape(" x a@b.c ", 4, 6);
    var s := "a@b c.d";
    forall p, q | 0 <= p < q < |s| ensures !Shape(s, p, q) {
      assert Js.IsSpace(s[3]);
    }
  }
}
