/** The account checks of app/routes/auth.py: the password, e-mail and
    username validators, each answering `(ok, message)` with the first
    failing rule, and `register`, which gathers the errors of all four form
    groups before it creates an account. The regular expressions are
    written out as character-class predicates. */
module AuthRoutes {
  import opened Wrappers
  import opened Text

  // ---- validate_password ----

  const PasswordTooShort := "Password must be at least 8 characters long"
  const PasswordNoUpper := "Password must contain at least one uppercase letter"
  const PasswordNoLower := "Password must contain at least one lowercase letter"
  const PasswordNoDigit := "Password must contain at least one number"
  const PasswordNoSpecial := "Password must contain at least one special character (@$!%*?&)"
  const PasswordStrongText := "Password is strong"

  /** The class `[@$!%*?&]`. */
  predicate IsSpecial(c: char) {
    c == '@' || c == '$' || c == '!' || c == '%' || c == '*' || c == '?' || c == '&'
  }

  /** `re.search` for a one-character class: scans left to right. */
  function Search(s: string, p: char -> bool): (r: bool)
    ensures r <==> Any(s, p)
  {
    if s == [] then false
    else if p(s[0]) then true
    else
      assert forall i :: 1 <= i < |s| ==> s[i] == s[1..][i - 1];
      assert Any(s[1..], p) ==> Any(s, p) by {
        if Any(s[1..], p) {
          var i :| 0 <= i < |s[1..]| && p(s[1..][i]);
          assert p(s[i + 1]);
        }
      }
      Search(s[1..], p)
  }

  /** The password rules as a single condition. */
  predicate PasswordStrong(p: string) {
    |p| >= 8 && Any(p, IsAsciiUpper) && Any(p, IsAsciiLower) && Any(p, IsAsciiDigit) && Any(p, IsSpecial)
  }

  /** `validate_password`: accepted exactly when the password is strong. */
  function ValidatePassword(password: string): (r: (bool, string))
    ensures r.0 <==> PasswordStrong(password)
    ensures r.0 ==> r.1 == PasswordStrongText
  {
    if |password| < 8 then (false, PasswordTooShort)
    else if !Search(password, IsAsciiUpper) then (false, PasswordNoUpper)
    else if !Search(password, IsAsciiLower) then (false, PasswordNoLower)
    else if !Search(password, IsAsciiDigit) then (false, PasswordNoDigit)
    else if !Search(password, IsSpecial) then (false, PasswordNoSpecial)
    else (true, PasswordStrongText)
  }

  /** The rules are tried in order and the first one broken is reported:
      length, then upper case, lower case, digit and special character. */
  lemma PasswordCheckOrder(p: string)
    ensures |p| < 8 ==> ValidatePassword(p) == (false, PasswordTooShort)
    ensures |p| >= 8 && !Any(p, IsAsciiUpper) ==> ValidatePassword(p) == (false, PasswordNoUpper)
    ensures |p| >= 8 && Any(p, IsAsciiUpper) && !Any(p, IsAsciiLower) ==> ValidatePassword(p) == (false, PasswordNoLower)
    ensures |p| >= 8 && Any(p, IsAsciiUpper) && Any(p, IsAsciiLower) && !Any(p, IsAsciiDigit) ==>
      ValidatePassword(p) == (false, PasswordNoDigit)
    ensures |p| >= 8 && Any(p, IsAsciiUpper) && Any(p, IsAsciiLower) && Any(p, IsAsciiDigit) && !Any(p, IsSpecial) ==>
      ValidatePassword(p) == (false, PasswordNoSpecial)
  {
  }

  // ---- validate_email ----

  const EmailInvalidText := "Please enter a valid email address"
  const EmailValidText := "Email is valid"

  /** `[a-zA-Z0-9._%+-]`. */
  predicate IsLocalChar(c: char) {
    IsAsciiLetter(c) || IsAsciiDigit(c) || c == '.' || c == '_' || c == '%' || c == '+' || c == '-'
  }

  /** `[a-zA-Z0-9.-]`. */
  predicate IsDomainChar(c: char) {
    IsAsciiLetter(c) || IsAsciiDigit(c) || c == '.' || c == '-'
  }

  /** `s` reads as `L@D.T` with the '@' at `i` and the separating '.' at `j`:
      `L` non-empty over the local class, `D` non-empty over the domain
      class, `T` at least two letters. */
  predicate EmailSplitAt(s: string, i: int, j: int) {
    && 0 < i && i + 1 < j && j + 2 < |s|
    && s[i] == '@' && s[j] == '.'
    && All(s[..i], IsLocalChar)
    && All(s[i + 1..j], IsDomainChar)
    && All(s[j + 1..], IsAsciiLetter)
  }

  /** The whole string matches `^[a-zA-Z0-9._%+-]+@[a-zA-Z0-9.-]+\.[a-zA-Z]{2,}$`. */
  ghost predicate EmailShape(s: string) {
    exists i, j :: EmailSplitAt(s, i, j)
  }

  /** The only possible split takes the first '@' (the local part has none)
      and the last '.' (the suffix has none). */
  lemma SplitIsCanonical(s: string, i: int, j: int)
    requires EmailSplitAt(s, i, j)
    ensures i == FirstIndexOf(s, '@') && j == LastIndexOf(s, '.')
  {
  }

  /** `validate_email`: accepted exactly when the string has the shape. */
  function ValidateEmail(email: string): (r: (bool, string))
    ensures r.0 <==> EmailShape(email)
    ensures r == (if r.0 then (true, EmailValidText) else (false, EmailInvalidText))
  {
    var i := FirstIndexOf(email, '@');
    var j := LastIndexOf(email, '.');
    if EmailSplitAt(email, i, j) then (true, EmailValidText)
    else
      assert !EmailShape(email) by {
        if EmailShape(email) {
          var i', j' :| EmailSplitAt(email, i', j');
          SplitIsCanonical(email, i', j');
        }
      }
      (false, EmailInvalidText)
  }

  /** Concrete readings of the pattern. */
  lemma EmailExamples()
    ensures ValidateEmail("ann@example.com").0
    ensures !ValidateEmail("ann@example.c").0
    ensures !ValidateEmail("@example.com").0
  {
    assert EmailSplitAt("ann@example.com", 3, 11);
  }

  // ---- validate_username ----

  const UsernameLengthText := "Username must be between 3 and 20 characters"
  const UsernameCharsText := "Username can only contain letters, numbers, and underscores"
  const UsernameValidText := "Username is valid"

  /** `[a-zA-Z0-9_]`. */
  predicate IsWordChar(c: char) {
    IsAsciiLetter(c) || IsAsciiDigit(c) || c == '_'
  }

  /** `validate_username`: the length rule first, then the character rule. */
  function ValidateUsername(username: string): (r: (bool, string))
    ensures r.0 <==> 3 <= |username| <= 20 && All(username, IsWordChar)
    ensures r.0 ==> r.1 == UsernameValidText
    ensures !(3 <= |username| <= 20) ==> r == (false, UsernameLengthText)
    ensures 3 <= |username| <= 20 && !All(username, IsWordChar) ==> r == (false, UsernameCharsText)
  {
    if |username| < 3 || |username| > 20 then (false, UsernameLengthText)
    else if !Search(username, c => !IsWordChar(c)) then (true, UsernameValidText)
    else (false, UsernameCharsText)
  }

  // ---- register ----

  /** One entry of `register`'s error list; the validators' messages are
      carried as they are. */
  datatype RegisterError =
    | UsernameRequired
    | UsernameRejected(message: string)
    | UsernameTaken
    | EmailRequired
    | EmailRejected(message: string)
    | EmailTaken
    | PasswordRequired
    | PasswordRejected(message: string)
    | ConfirmRequired
    | PasswordsDiffer

  /** The message flashed for each entry. */
  function RegisterErrorText(e: RegisterError): string {
    match e
    case UsernameRequired => "Username is required"
    case UsernameRejected(message) => message
    case UsernameTaken => "Username already exists"
    case EmailRequired => "Email is required"
    case EmailRejected(message) => message
    case EmailTaken => "Email already exists"
    case PasswordRequired => "Password is required"
    case PasswordRejected(message) => message
    case ConfirmRequired => "Please confirm your password"
    case PasswordsDiffer => "Passwords do not match"
  }

  /** Why `register` did not create an account: the error list, or the
      commit failing ("An error occurred during registration"). */
  datatype RegisterFailure = Rejected(errors: seq<RegisterError>) | RegistrationFailed

  /** A stored account; the password hash is not part of this model. */
  datatype Account = Account(id: int, username: string, email: string, isOwner: bool)

  predicate UsernameInUse(accounts: seq<Account>, username: string) {
    exists a :: a in accounts && a.username == username
  }

  predicate EmailInUse(accounts: seq<Account>, email: string) {
    exists a :: a in accounts && a.email == email
  }

  /** The username group (lines 92-99): at most one entry. */
  function UsernameErrors(username: string, accounts: seq<Account>): (r: seq<RegisterError>)
    ensures |r| <= 1
  {
    if username == [] then [UsernameRequired]
    else
      var (ok, message) := ValidateUsername(username);
      if !ok then [UsernameRejected(message)]
      else if UsernameInUse(accounts, username) then [UsernameTaken]
      else []
  }

  /** The e-mail group (lines 102-109): at most one entry. */
  function EmailErrors(email: string, accounts: seq<Account>): (r: seq<RegisterError>)
    ensures |r| <= 1
  {
    if email == [] then [EmailRequired]
    else
      var (ok, message) := ValidateEmail(email);
      if !ok then [EmailRejected(message)]
      else if EmailInUse(accounts, email) then [EmailTaken]
      else []
  }

  /** The password group (lines 112-117): at most one entry. */
  function PasswordErrors(password: string): (r: seq<RegisterError>)
    ensures |r| <= 1
  {
    if password == [] then [PasswordRequired]
    else
      var (ok, message) := ValidatePassword(password);
      if !ok then [PasswordRejected(message)] else []
  }

  /** The confirmation group (lines 120-123): at most one entry. */
  function ConfirmErrors(password: string, confirm: string): (r: seq<RegisterError>)
    ensures |r| <= 1
  {
    if confirm == [] then [ConfirmRequired]
    else if password != confirm then [PasswordsDiffer]
    else []
  }

  /** The list `register` builds from the stripped username and e-mail and
      the raw passwords: every group is checked, in form order. */
  function RegisterErrors(username: string, email: string, password: string, confirm: string,
                          accounts: seq<Account>): (r: seq<RegisterError>)
    ensures |r| <= 4
  {
    UsernameErrors(username, accounts) + EmailErrors(email, accounts)
      + PasswordErrors(password) + ConfirmErrors(password, confirm)
  }

  /** A registration goes through exactly when every field is acceptable. */
  ghost predicate RegistrationAcceptable(username: string, email: string, password: string, confirm: string,
                                   accounts: seq<Account>) {
    && 3 <= |username| <= 20 && All(username, IsWordChar) && !UsernameInUse(accounts, username)
    && EmailShape(email) && !EmailInUse(accounts, email)
    && PasswordStrong(password)
    && confirm == password
  }

  /** No error is reported exactly when the registration is acceptable. */
  lemma RegisterErrorsEmptyIff(username: string, email: string, password: string, confirm: string,
                               accounts: seq<Account>)
    ensures RegisterErrors(username, email, password, confirm, accounts) == []
        <==> RegistrationAcceptable(username, email, password, confirm, accounts)
  {
    if EmailShape(email) {
      var i, j :| EmailSplitAt(email, i, j);
    }
  }

  /** An accepted username and e-mail address are not in use yet. */
  lemma AcceptedNamesAreFree(username: string, email: string, password: string, confirm: string,
                             accounts: seq<Account>)
    requires RegisterErrors(username, email, password, confirm, accounts) == []
    ensures forall a :: a in accounts ==> a.username != username && a.email != email
  {
  }

  /** Every group is checked: a failure in one does not hide the others. */
  lemma AllGroupsReported(username: string, email: string, password: string, confirm: string,
                          accounts: seq<Account>)
    ensures var r := RegisterErrors(username, email, password, confirm, accounts);
      && (username == [] ==> UsernameRequired in r)
      && (email == [] ==> EmailRequired in r)
      && (password == [] ==> PasswordRequired in r)
      && (confirm == [] ==> ConfirmRequired in r)
      && |r| == (if UsernameErrors(username, accounts) == [] then 0 else 1)
              + (if EmailErrors(email, accounts) == [] then 0 else 1)
              + (if PasswordErrors(password) == [] then 0 else 1)
              + (if ConfirmErrors(password, confirm) == [] then 0 else 1)
  {
    var u, e, p := UsernameErrors(username, accounts), EmailErrors(email, accounts), PasswordErrors(password);
    var c := ConfirmErrors(password, confirm);
    assert RegisterErrors(username, email, password, confirm, accounts) == u + e + p + c;
    if email == [] {
      assert (u + e + p + c)[|u|] == EmailRequired;
    }
    if password == [] {
      assert (u + e + p + c)[|u| + |e|] == PasswordRequired;
    }
    if confirm == [] {
      assert (u + e + p + c)[|u| + |e| + |p|] == ConfirmRequired;
    }
  }

  /** "already exists" is reported only for a name or address that passed
      its format check and is in use; "Passwords do not match" exactly when
      a confirmation was given and differs. */
  lemma RegisterErrorConditions(username: string, email: string, password: string, confirm: string,
                                accounts: seq<Account>)
    ensures var r := RegisterErrors(username, email, password, confirm, accounts);
      && (UsernameTaken in r <==> username != [] && ValidateUsername(username).0 && UsernameInUse(accounts, username))
      && (EmailTaken in r <==> email != [] && ValidateEmail(email).0 && EmailInUse(accounts, email))
      && (PasswordsDiffer in r <==> confirm != [] && confirm != password)
  {
    var u, e, p := UsernameErrors(username, accounts), EmailErrors(email, accounts), PasswordErrors(password);
    var c := ConfirmErrors(password, confirm);
    var r := RegisterErrors(username, email, password, confirm, accounts);
    assert r == u + e + p + c;
    assert forall x :: x in r <==> x in u || x in e || x in p || x in c;
  }

  /** Lines 92-99: appends the username group's entry, if any. */
  method AppendUsernameErrors(errors: seq<RegisterError>, username: string, accounts: seq<Account>)
      returns (errors': seq<RegisterError>)
    ensures errors' == errors + UsernameErrors(username, accounts)
  {
    errors' := errors;
    if username == [] {
      errors' := errors' + [UsernameRequired];
    } else {
      var (ok, message) := ValidateUsername(username);
      if !ok {
        errors' := errors' + [UsernameRejected(message)];
      } else if UsernameInUse(accounts, username) {
        errors' := errors' + [UsernameTaken];
      }
    }
  }

  /** Lines 102-109: appends the e-mail group's entry, if any. */
  method AppendEmailErrors(errors: seq<RegisterError>, email: string, accounts: seq<Account>)
      returns (errors': seq<RegisterError>)
    ensures errors' == errors + EmailErrors(email, accounts)
  {
    errors' := errors;
    if email == [] {
      errors' := errors' + [EmailRequired];
    } else {
      var (ok, message) := ValidateEmail(email);
      if !ok {
        errors' := errors' + [EmailRejected(message)];
      } else if EmailInUse(accounts, email) {
        errors' := errors' + [EmailTaken];
      }
    }
  }

  /** Lines 112-117: appends the password group's entry, if any. */
  method AppendPasswordErrors(errors: seq<RegisterError>, password: string) returns (errors': seq<RegisterError>)
    ensures errors' == errors + PasswordErrors(password)
  {
    errors' := errors;
    if password == [] {
      errors' := errors' + [PasswordRequired];
    } else {
      var (ok, message) := ValidatePassword(password);
      if !ok {
        errors' := errors' + [PasswordRejected(message)];
      }
    }
  }

  /** Lines 120-123: appends the confirmation group's entry, if any. */
  method AppendConfirmErrors(errors: seq<RegisterError>, password: string, confirm: string)
      returns (errors': seq<RegisterError>)
    ensures errors' == errors + ConfirmErrors(password, confirm)
  {
    errors' := errors;
    if confirm == [] {
      errors' := errors' + [ConfirmRequired];
    } else if password != confirm {
      errors' := errors' + [PasswordsDiffer];
    }
  }

  /** Lines 89-123 of `register`: one group after another, each appending
      at most one entry, none stopping the others. */
  method CollectRegisterErrors(username: string, email: string, password: string, confirm: string,
                               accounts: seq<Account>) returns (errors: seq<RegisterError>)
    ensures errors == RegisterErrors(username, email, password, confirm, accounts)
  {
    errors := [];
    errors := AppendUsernameErrors(errors, username, accounts);
    errors := AppendEmailErrors(errors, email, accounts);
    errors := AppendPasswordErrors(errors, password);
    errors := AppendConfirmErrors(errors, password, confirm);
  }

  /** Ids are below `nextId` and increase with insertion; usernames and
      e-mail addresses are unique. */
  ghost predicate AccountsWellFormed(accounts: seq<Account>, nextId: int) {
    && (forall i :: 0 <= i < |accounts| ==> 1 <= accounts[i].id < nextId)
    && (forall i, j :: 0 <= i < j < |accounts| ==>
          accounts[i].id < accounts[j].id
          && accounts[i].username != accounts[j].username
          && accounts[i].email != accounts[j].email)
  }

  /** Adding an account with the next id and a fresh username and e-mail
      keeps the table well formed. */
  lemma AppendAccount(accounts: seq<Account>, nextId: int, a: Account)
    requires AccountsWellFormed(accounts, nextId) && nextId >= 1 && a.id == nextId
    requires forall b :: b in accounts ==> b.username != a.username && b.email != a.email
    ensures AccountsWellFormed(accounts + [a], nextId + 1)
  {
    var r := accounts + [a];
    forall i, j | 0 <= i < j < |r|
      ensures r[i].id < r[j].id && r[i].username != r[j].username && r[i].email != r[j].email
    {
      assert r[i] == accounts[i];
      if j == |accounts| {
        assert r[i] in accounts;
      }
    }
  }

  /** The accounts table, with the id the next insert takes. */
  class AccountStore {
    var accounts: seq<Account>
    var nextId: int

    ghost predicate Invariant()
      reads this
    {
      nextId >= 1 && AccountsWellFormed(accounts, nextId)
    }

    constructor ()
      ensures Invariant() && accounts == [] && nextId == 1
    {
      accounts, nextId := [], 1;
    }

    /** The POST path of `register`: the username and e-mail are stripped
        (lines 82-83), then `RegisterStripped` runs. */
    method Register(usernameField: string, emailField: string, password: string, confirm: string,
                    ownerBox: Option<string>, commitOk: bool) returns (r: Result<int, RegisterFailure>)
      requires Invariant()
      modifies this
      ensures Invariant()
      ensures var username, email := Strip(usernameField), Strip(emailField);
        var errors := RegisterErrors(username, email, password, confirm, old(accounts));
        if errors != [] then r == Failure(Rejected(errors)) && accounts == old(accounts) && nextId == old(nextId)
        else if !commitOk then r == Failure(RegistrationFailed) && accounts == old(accounts) && nextId == old(nextId)
        else
          && r == Success(old(nextId))
          && accounts == old(accounts) + [Account(old(nextId), username, email, ownerBox == Some("on"))]
          && nextId == old(nextId) + 1
    {
      var username := Strip(usernameField);
      var email := Strip(emailField);
      r := RegisterStripped(username, email, password, confirm, ownerBox == Some("on"), commitOk);
    }

    /** Lines 89-141 of `register` on the stripped username and e-mail: the
        errors of all four groups are appended in order, and an account is
        added only when there is none and the commit succeeds. */
    method RegisterStripped(username: string, email: string, password: string, confirm: string,
                            isOwner: bool, commitOk: bool) returns (r: Result<int, RegisterFailure>)
      requires Invariant()
      modifies this
      ensures Invariant()
      ensures var errors := RegisterErrors(username, email, password, confirm, old(accounts));
        if errors != [] then r == Failure(Rejected(errors)) && accounts == old(accounts) && nextId == old(nextId)
        else if !commitOk then r == Failure(RegistrationFailed) && accounts == old(accounts) && nextId == old(nextId)
        else
          && r == Success(old(nextId))
          && accounts == old(accounts) + [Account(old(nextId), username, email, isOwner)]
          && nextId == old(nextId) + 1
    {
      var errors := CollectRegisterErrors(username, email, password, confirm, accounts);
      if errors != [] {
        return Failure(Rejected(errors));
      }
      if !commitOk {
        return Failure(RegistrationFailed);
      }
      AcceptedNamesAreFree(username, email, password, confirm, accounts);
      AppendAccount(accounts, nextId, Account(nextId, username, email, isOwner));
      accounts := accounts + [Account(nextId, username, email, isOwner)];
      r := Success(nextId);
      nextId := nextId + 1;
    }
  }
}
