/** The sign-in form (src/pages/Login.tsx): field checks in a fixed order and
    the mode switch. */
module Login {
  import opened Types
  import UserContext

  const NameMissing: string := "Please enter your name"
  const EmailMissing: string := "Please enter your email"
  const PasswordMissing: string := "Please enter your password"

  /** What a submit comes to: an error message, or the name passed to `login`. */
  datatype Outcome = Rejected(message: string) | Accepted(loginName: string)

  /** `email.split('@')[0]`: the text before the first `@`, or the whole
      address when it has none. */
  function BeforeAt(email: string): (r: string)
    ensures |r| <= |email| && r == email[..|r|]
    ensures '@' !in r
    ensures |r| < |email| ==> email[|r|] == '@'
  {
    if email == [] || email[0] == '@' then []
    else [email[0]] + BeforeAt(email[1..])
  }

  /** The checks of `handleSubmit`, in order: the name (sign-up only), then the
      email, then the password; the first empty one rejects the submit. An
      empty string is the only falsy string, so a blank-but-not-empty field
      passes. */
  function Validate(isLogin: bool, name: string, email: string, password: string): (r: Outcome)
    ensures r == Rejected(NameMissing) <==> !isLogin && name == []
    ensures r == Rejected(EmailMissing) <==> (isLogin || name != []) && email == []
    ensures r == Rejected(PasswordMissing) <==> (isLogin || name != []) && email != [] && password == []
    ensures r.Accepted? <==> (isLogin || name != []) && email != [] && password != []
    ensures r.Accepted? ==> r.loginName == if isLogin then BeforeAt(email) else name
  {
    if !isLogin && name == [] then Rejected(NameMissing)
    else if email == [] then Rejected(EmailMissing)
    else if password == [] then Rejected(PasswordMissing)
    else Accepted(if isLogin then BeforeAt(email) else name)
  }

  /** In login mode the name field plays no part. */
  lemma LoginModeIgnoresName(name1: string, name2: string, email: string, password: string)
    ensures Validate(true, name1, email, password) == Validate(true, name2, email, password)
  {
  }

  /** An address with no `@` logs in under its whole text. */
  lemma {:induction false} NoAtKeepsEmail(email: string)
    requires '@' !in email
    ensures BeforeAt(email) == email
  {
    if email != [] {
      assert '@' !in email[1..] by {
        forall k | 0 <= k < |email[1..]| ensures email[1..][k] != '@' {
          assert email[1..][k] == email[k + 1];
        }
      }
      NoAtKeepsEmail(email[1..]);
    }
  }

  /** The local part is what precedes the first `@`, whatever follows it. */
  lemma {:induction false} BeforeAtOfAddress(local: string, domain: string)
    requires '@' !in local
    ensures BeforeAt(local + "@" + domain) == local
  {
    if local != [] {
      assert (local + "@" + domain)[1..] == local[1..] + "@" + domain;
      assert '@' !in local[1..] by {
        forall k | 0 <= k < |local[1..]| ensures local[1..][k] != '@' {
          assert local[1..][k] == local[k + 1];
        }
      }
      BeforeAtOfAddress(local[1..], domain);
    }
  }

  class LoginForm {
    var isLogin: bool
    var name: string
    var email: string
    var password: string
    var error: string
    const session: UserContext.Session

    /** The page on mount: login mode, empty fields, no error. */
    constructor (session: UserContext.Session)
      ensures isLogin && name == [] && email == [] && password == [] && error == []
      ensures this.session == session
    {
      isLogin := true;
      name := [];
      email := [];
      password := [];
      error := [];
      this.session := session;
    }

    /** `handleSubmit`; `id` is the fresh id `login` generates. The error is
        cleared first; a rejected submit shows its message and leaves the
        session alone, an accepted one calls `login` once. */
    method HandleSubmit(id: string) returns (outcome: Outcome)
      modifies this`error, session, session.storage
      ensures outcome == Validate(isLogin, name, email, password)
      ensures outcome.Rejected? ==> error == outcome.message
      ensures outcome.Rejected? ==>
        session.user == old(session.user) && session.isGuest == old(session.isGuest)
        && session.storage.items == old(session.storage.items)
      ensures outcome.Accepted? ==> error == []
      ensures outcome.Accepted? ==>
        && session.user == Some(UserContext.NewUser(id, outcome.loginName)) && !session.isGuest
        && session.storage.items
           == old(session.storage.items)[UserContext.SnugUserKey := UserBlob(session.user.value)] - {UserContext.SnugGuestKey}
    {
      error := [];
      if !isLogin && name == [] {
        error := NameMissing;
        return Rejected(NameMissing);
      }
      if email == [] {
        error := EmailMissing;
        return Rejected(EmailMissing);
      }
      if password == [] {
        error := PasswordMissing;
        return Rejected(PasswordMissing);
      }
      var loginName := if isLogin then BeforeAt(email) else name;
      session.Login(loginName, id);
      outcome := Accepted(loginName);
    }

    /** `toggleMode`: switches between login and sign-up and clears the error. */
    method ToggleMode()
      modifies this`isLogin, this`error
      ensures isLogin == !old(isLogin) && error == []
    {
      isLogin := !isLogin;
      error := [];
    }
  }
}
