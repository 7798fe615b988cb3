/**
 * The login page's submit handler (app/code/lg-01/page.tsx): the blank-field guard, the call
 * into the credential store and the page state it leaves behind.
 */
module LoginPage {
  import opened Options
  import opened Strings
  import opened Auth

  /** What the handler writes: the error line, the loading flag and the signed-in user. */
  datatype PageState = PageState(error: Option<string>, loading: bool, currentUser: Option<User>)

  const AllFieldsRequired := "ALL FIELDS REQUIRED"
  const InvalidCredentials := "INVALID CREDENTIALS"

  /** `handleSubmit`: a blank name or password stops before `login`; otherwise `login` gets
      the trimmed name and the password exactly as typed. */
  function HandleSubmit(s: Store, page: PageState, username: string, password: string): (r: (Store, PageState))
    ensures !r.1.loading
    ensures IsBlank(username) || IsBlank(password) ==>
              r == (s, PageState(Some(AllFieldsRequired), false, page.currentUser))
    ensures !IsBlank(username) && !IsBlank(password) ==>
              var (s2, ok) := Login(s, Trim(username), password);
              && r.0 == s2
              && (ok ==> r.1 == PageState(None, false, CurrentUser(s2)))
              && (!ok ==> r.1 == PageState(Some(InvalidCredentials), false, page.currentUser))
  {
    if IsBlank(username) || IsBlank(password) then
      (s, PageState(Some(AllFieldsRequired), false, page.currentUser))
    else
      var (s2, ok) := Login(s, Trim(username), password);
      if ok then (s2, PageState(None, false, CurrentUser(s2)))
      else (s2, PageState(Some(InvalidCredentials), false, page.currentUser))
  }

  /** Signing in through the page: the administrator gets in even with white space around the
      name, and then the page shows an administrator. */
  lemma AdminThroughPage(s: Store, page: PageState, username: string)
    requires Trim(username) == AdminName
    ensures var (s2, p) := HandleSubmit(s, page, username, AdminPassword);
            p.error == None && p.currentUser == Some(User(AdminName, true, true)) && IsAdmin(s2)
  {
    assert !IsBlank(username);
    assert !IsBlank(AdminPassword) by {
      assert !IsSpace(AdminPassword[0]);
      BlankIffAllSpace(AdminPassword);
    }
  }

  /** The password is not trimmed: with a trailing space a stored password no longer matches,
      and the page reports bad credentials without changing the store. */
  lemma PasswordNotTrimmed(s: Store, page: PageState, name: string, password: string)
    requires !IsBlank(name) && Trim(name) != AdminName
    requires !IsBlank(password)
    requires Present(s, PasswordKey(Trim(name))) && s.items[PasswordKey(Trim(name))] == password
    ensures HandleSubmit(s, page, name, password).1.error == None
    ensures HandleSubmit(s, page, name, password + " ") == (s, PageState(Some(InvalidCredentials), false, page.currentUser))
  {
    var padded := password + " ";
    assert padded != password by {
      assert |padded| != |password|;
    }
    BlankIffAllSpace(password);
    BlankIffAllSpace(padded);
    var i :| 0 <= i < |password| && !IsSpace(password[i]);
    assert padded[i] == password[i];
  }
}
