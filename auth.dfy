/** backend/auth.py: the console authentication system, and the login
    dispatch it shares with the API. The validators it imports are taken to
    be those of src/validators.py. */
module Auth {
  import opened Wrappers
  import Text
  import Validators
  import opened Firebase

  /** How a login attempt ends, before any session is touched. */
  datatype LoginOutcome = UnknownUsername | Rejected(message: string) | Accepted(user: UserView)

  /** An identifier with an '@' is verified as an email. */
  function LoginByEmail(svc: FirebaseService, email: string, password: string): (r: LoginOutcome)
    reads svc
    ensures r != UnknownUsername
    ensures r.Accepted? <==> email in svc.accounts && svc.accounts[email] in svc.users
    ensures r.Accepted? ==> r.user.uid == svc.accounts[email] && r.user.doc == svc.users[r.user.uid]
  {
    match svc.VerifyUser(email, password)
    case Ok(user) => Accepted(user)
    case Err(message) => Rejected(message)
  }

  /** Any other identifier is looked up as a username, and the email stored
      on that user's document is verified: a known username always logs in,
      as that user. */
  function LoginByUsername(svc: FirebaseService, username: string, password: string): (r: LoginOutcome)
    reads svc
    requires svc.Valid()
    ensures r == UnknownUsername <==> forall uid :: uid in svc.users ==> svc.users[uid].username != username
    ensures r != UnknownUsername ==> r.Accepted? && r.user.uid in svc.users && r.user.doc == svc.users[r.user.uid]
    ensures r != UnknownUsername ==> r.user.doc.username == username
  {
    match svc.GetUserByUsername(username)
    case None => UnknownUsername
    case Some(user) =>
      svc.VerifyByStoredEmail(user.uid, password);
      LoginByEmail(svc, user.doc.email, password)
  }

  /** The login dispatch of backend/auth.py and backend/routes.py. No
      password is ever compared. */
  function ResolveLogin(svc: FirebaseService, identifier: string, password: string): (r: LoginOutcome)
    reads svc
    requires svc.Valid()
    ensures r.Accepted? ==> r.user.uid in svc.users && r.user.doc == svc.users[r.user.uid]
    ensures '@' in identifier ==> r == LoginByEmail(svc, identifier, password)
    ensures '@' !in identifier ==> r == LoginByUsername(svc, identifier, password)
  {
    if '@' in identifier then LoginByEmail(svc, identifier, password)
    else LoginByUsername(svc, identifier, password)
  }

  /** The password plays no part in a login. */
  lemma LoginIgnoresPassword(svc: FirebaseService, identifier: string, password: string, other: string)
    requires svc.Valid()
    ensures ResolveLogin(svc, identifier, password) == ResolveLogin(svc, identifier, other)
  {
  }

  /** What the password prompts of `register` settle on, reading the
      passwords typed in order: the first valid password that is followed by
      an identical confirmation (an invalid one is not confirmed at all). */
  function PasswordChoice(secrets: seq<string>): (r: Option<string>)
    ensures r.Some? ==> Validators.ValidatePassword(r.value).ok
    ensures r.Some? ==> exists k :: 0 <= k < |secrets| - 1 && secrets[k] == r.value && secrets[k + 1] == r.value
    decreases |secrets|
  {
    if secrets == [] then None
    else if !Validators.ValidatePassword(secrets[0]).ok then
      var r := PasswordChoice(secrets[1..]);
      assert r.Some? ==> exists k :: 0 <= k < |secrets| - 1 && secrets[k] == r.value && secrets[k + 1] == r.value by {
        if r.Some? {
          var k :| 0 <= k < |secrets[1..]| - 1 && secrets[1..][k] == r.value && secrets[1..][k + 1] == r.value;
          assert secrets[k + 1] == r.value && secrets[k + 2] == r.value;
        }
      }
      r
    else if |secrets| == 1 then None
    else if secrets[1] == secrets[0] then Some(secrets[0])
    else
      var r := PasswordChoice(secrets[2..]);
      assert r.Some? ==> exists k :: 0 <= k < |secrets| - 1 && secrets[k] == r.value && secrets[k + 1] == r.value by {
        if r.Some? {
          var k :| 0 <= k < |secrets[2..]| - 1 && secrets[2..][k] == r.value && secrets[2..][k + 1] == r.value;
          assert secrets[k + 2] == r.value && secrets[k + 3] == r.value;
        }
      }
      r
  }

  /** The password prompts of `register`: a password is asked for until a
      valid one is typed, then its confirmation, and both again when they
      differ. None when the input ends first. */
  method ReadPassword(secrets: seq<string>) returns (password: Option<string>)
    ensures password == PasswordChoice(secrets)
  {
    var k := 0;
    while k < |secrets|
      invariant 0 <= k <= |secrets|
      invariant PasswordChoice(secrets) == PasswordChoice(secrets[k..])
    {
      var candidate := secrets[k];
      assert secrets[k..][1..] == secrets[k + 1..];
      k := k + 1;
      if Validators.ValidatePassword(candidate).ok && k < |secrets| {
        var confirmation := secrets[k];
        assert secrets[k - 1..][2..] == secrets[k + 1..];
        k := k + 1;
        if candidate == confirmation {
          return Some(candidate);
        }
      }
    }
    return None;
  }

  /** The two prompts of `register` that read lines. */
  datatype Prompt = UsernamePrompt | EmailPrompt

  /** How `register` ends. Running out of input stands for the EOFError that
      `input()` raises at the end of the input. */
  datatype Registration = Registered(uid: DocId, username: string, email: string) | CreateFailed(message: string) | InputEnded

  class AuthSystem {
    const firebase: FirebaseService
    var currentUser: Option<string>
    var currentUserId: Option<DocId>

    /** A fresh system is logged out. */
    constructor (firebase: FirebaseService)
      ensures this.firebase == firebase
      ensures currentUser == None && currentUserId == None
    {
      this.firebase := firebase;
      currentUser := None;
      currentUserId := None;
    }

    /** is_logged_in */
    predicate IsLoggedIn()
      reads this
    {
      currentUser.Some?
    }

    /** The username prompt is left with a valid username nobody uses. */
    predicate UsernameAccepted(username: string)
      reads firebase
      requires firebase.Valid()
    {
      Validators.ValidateUsername(username).ok && !firebase.UserExists(username, "")
    }

    /** The email prompt is left with a valid email that has no account. */
    predicate EmailAccepted(email: string)
      reads firebase
      requires firebase.Valid()
    {
      Validators.ValidateEmail(email) && !firebase.UserExists("", email)
    }

    /** Whether a line, trimmed and lower-cased, is accepted at a prompt. */
    predicate Acceptable(prompt: Prompt, line: string)
      reads firebase
      requires firebase.Valid()
    {
      match prompt
      case UsernamePrompt => UsernameAccepted(Text.StripLower(line))
      case EmailPrompt => EmailAccepted(Text.StripLower(line))
    }

    /** The position of the line a prompt settles on when it reads from
        `from` on: the first acceptable one; None when there is none. */
    function Answer(prompt: Prompt, lines: seq<string>, from: nat): (r: Option<nat>)
      reads firebase
      requires firebase.Valid() && from <= |lines|
      ensures r.Some? ==> from <= r.value < |lines|
      decreases |lines| - from
    {
      if from == |lines| then None
      else if Acceptable(prompt, lines[from]) then Some(from)
      else Answer(prompt, lines, from + 1)
    }

    /** The line a prompt settles on is acceptable. */
    lemma {:induction false} AnswerAcceptable(prompt: Prompt, lines: seq<string>, from: nat)
      requires firebase.Valid() && from <= |lines| && Answer(prompt, lines, from).Some?
      ensures Acceptable(prompt, lines[Answer(prompt, lines, from).value])
      decreases |lines| - from
    {
      if !Acceptable(prompt, lines[from]) {
        AnswerAcceptable(prompt, lines, from + 1);
      }
    }

    /** No line before the answer is acceptable: an acceptable line at `j`
        means there is an answer, at `j` or before it. */
    lemma {:induction false} AnswerIsFirst(prompt: Prompt, lines: seq<string>, from: nat, j: nat)
      requires firebase.Valid() && from <= j < |lines| && Acceptable(prompt, lines[j])
      ensures Answer(prompt, lines, from).Some? && Answer(prompt, lines, from).value <= j
      decreases j - from
    {
      if !Acceptable(prompt, lines[from]) {
        assert Answer(prompt, lines, from) == Answer(prompt, lines, from + 1);
        assert from < j;
        AnswerIsFirst(prompt, lines, from + 1, j);
      }
    }

    /** One prompt of `register`, reading lines from `from` on: asks again
        until a line is acceptable, and gives it trimmed and lower-cased with
        the position after it; None when the input ends first. */
    method Ask(prompt: Prompt, lines: seq<string>, from: nat) returns (answer: Option<string>, next: nat)
      requires firebase.Valid() && from <= |lines|
      ensures Answer(prompt, lines, from).None? ==> answer.None? && next == |lines|
      ensures Answer(prompt, lines, from).Some? ==>
                var k := Answer(prompt, lines, from).value;
                answer == Some(Text.StripLower(lines[k])) && next == k + 1
    {
      next := from;
      while next < |lines|
        invariant from <= next <= |lines|
        invariant Answer(prompt, lines, from) == Answer(prompt, lines, next)
      {
        var candidate := lines[next];
        next := next + 1;
        if Acceptable(prompt, candidate) {
          return Some(Text.StripLower(candidate)), next;
        }
      }
      return None, next;
    }

    /** The username and the email the two line prompts of `register`
        settle on: the email prompt reads on from the line after the
        accepted username. None when the input ends first. */
    function Typed(lines: seq<string>): (r: Option<(string, string)>)
      reads firebase
      requires firebase.Valid()
    {
      match Answer(UsernamePrompt, lines, 0)
      case None => None
      case Some(u) =>
        match Answer(EmailPrompt, lines, u + 1)
        case None => None
        case Some(e) => Some((Text.StripLower(lines[u]), Text.StripLower(lines[e])))
    }

    /** A line accepted at the username prompt names nobody yet. */
    lemma AcceptedUsernameUnused(line: string)
      requires firebase.Valid() && Acceptable(UsernamePrompt, line)
      ensures forall uid :: uid in firebase.users ==> firebase.users[uid].username != Text.StripLower(line)
    {
      assert Text.StripLower(line) != "";
    }

    /** The email prompt settles on an email that has no account. */
    lemma AnsweredEmailUnregistered(lines: seq<string>, from: nat)
      requires firebase.Valid() && from <= |lines| && Answer(EmailPrompt, lines, from).Some?
      ensures Text.StripLower(lines[Answer(EmailPrompt, lines, from).value]) !in firebase.accounts
    {
      AnswerAcceptable(EmailPrompt, lines, from);
      assert Text.StripLower(lines[Answer(EmailPrompt, lines, from).value]) != "";
    }

    /** The two line prompts of `register`, one after the other. */
    method Prompts(lines: seq<string>) returns (answers: Option<(string, string)>)
      requires firebase.Valid()
      ensures answers == Typed(lines)
      ensures answers.Some? ==> forall uid :: uid in firebase.users ==> firebase.users[uid].username != answers.value.0
      ensures answers.Some? ==> answers.value.1 !in firebase.accounts
    {
      var username, next := Ask(UsernamePrompt, lines, 0);
      if username.None? {
        return None;
      }
      AnswerAcceptable(UsernamePrompt, lines, 0);
      AcceptedUsernameUnused(lines[next - 1]);
      var email, _ := Ask(EmailPrompt, lines, next);
      if email.None? {
        return None;
      }
      AnsweredEmailUnregistered(lines, next);
      return Some((username.value, email.value));
    }

    /** register: prompts for a username, then an email, then a password and
        its confirmation, asking again until each is acceptable, and creates
        the user. `lines` are the lines typed at the `input()` prompts and
        `secrets` those typed at the `getpass()` prompts. */
    method Register(lines: seq<string>, secrets: seq<string>) returns (outcome: Registration)
      requires firebase.Valid()
      modifies firebase
      ensures firebase.Valid()
      ensures currentUser == old(currentUser) && currentUserId == old(currentUserId)
      ensures outcome.Registered? ==>
                && old(Typed(lines)) == Some((outcome.username, outcome.email))
                && PasswordChoice(secrets).Some?
                && firebase.users == old(firebase.users)[outcome.uid := UserDoc(outcome.username, outcome.email, InitialProgress())]
                && outcome.uid !in old(firebase.users)
                && firebase.accounts == old(firebase.accounts)[outcome.email := outcome.uid]
                && firebase.nextId == old(firebase.nextId) + 1
      ensures !outcome.Registered? ==>
                firebase.users == old(firebase.users) && firebase.accounts == old(firebase.accounts)
                && firebase.nextId == old(firebase.nextId)
      ensures firebase.lessons == old(firebase.lessons)
      ensures old(Typed(lines)).None? || PasswordChoice(secrets).None? ==> outcome == InputEnded
      ensures old(Typed(lines)).Some? && PasswordChoice(secrets).Some? ==> outcome.Registered?
      ensures old(firebase.UniqueUsernames()) ==> firebase.UniqueUsernames()
    {
      var answers := Prompts(lines);
      if answers.None? {
        return InputEnded;
      }
      var password := ReadPassword(secrets);
      if password.None? {
        return InputEnded;
      }
      outcome := Enrol(answers.value.0, answers.value.1, password.value);
    }

    /** The end of `register`: `create_user` with the answers, reported as
        the outcome. The username is one nobody has. */
    method Enrol(username: string, email: string, password: string) returns (outcome: Registration)
      requires firebase.Valid()
      requires forall uid :: uid in firebase.users ==> firebase.users[uid].username != username
      modifies firebase
      ensures firebase.Valid()
      ensures !outcome.InputEnded?
      ensures outcome.Registered? <==> email !in old(firebase.accounts)
      ensures outcome.Registered? ==>
                && outcome.username == username && outcome.email == email
                && firebase.users == old(firebase.users)[outcome.uid := UserDoc(username, email, InitialProgress())]
                && outcome.uid !in old(firebase.users)
                && firebase.accounts == old(firebase.accounts)[email := outcome.uid]
                && firebase.nextId == old(firebase.nextId) + 1
      ensures !outcome.Registered? ==>
                firebase.users == old(firebase.users) && firebase.accounts == old(firebase.accounts)
                && firebase.nextId == old(firebase.nextId)
      ensures firebase.lessons == old(firebase.lessons)
      ensures old(firebase.UniqueUsernames()) ==> firebase.UniqueUsernames()
    {
      ghost var before := firebase.users;
      var success, message, uid := firebase.CreateUser(email, password, username);
      if success {
        outcome := Registered(uid.value, username, email);
        if DistinctUsernames(before) {
          FreshUsernameKeepsDistinct(before, uid.value, UserDoc(username, email, InitialProgress()));
        }
      } else {
        outcome := CreateFailed(message);
      }
    }

    /** login: on success the session fields name the user found; otherwise
        nothing changes. */
    method Login(identifierLine: string, password: string) returns (ok: bool)
      requires firebase.Valid()
      modifies this
      ensures ok <==> ResolveLogin(firebase, Text.StripLower(identifierLine), password).Accepted?
      ensures ok ==> var user := ResolveLogin(firebase, Text.StripLower(identifierLine), password).user;
                     currentUser == Some(user.doc.username) && currentUserId == Some(user.uid) && IsLoggedIn()
      ensures !ok ==> currentUser == old(currentUser) && currentUserId == old(currentUserId)
    {
      var identifier := Text.StripLower(identifierLine);
      var outcome := ResolveLogin(firebase, identifier, password);
      if outcome.Accepted? {
        currentUser := Some(outcome.user.doc.username);
        currentUserId := Some(outcome.user.uid);
        ok := true;
      } else {
        ok := false;
      }
    }

    /** logout: clears both fields when a (non-empty) user name is set, and
        otherwise changes nothing. */
    method Logout()
      modifies this
      ensures old(currentUser).Some? && old(currentUser).value != "" ==>
                currentUser == None && currentUserId == None && !IsLoggedIn()
      ensures old(currentUser).None? || old(currentUser).value == "" ==>
                currentUser == old(currentUser) && currentUserId == old(currentUserId)
    {
      if currentUser.Some? && currentUser.value != "" {
        currentUser := None;
        currentUserId := None;
      }
    }
  }
}
