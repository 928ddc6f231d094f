/** backend/routes.py: the JSON API. Each handler is modelled on what it
    reads from the request (the body's fields, the query arguments, the path
    parameter), the store, and the client's session; its JSON reply is a
    Response holding the HTTP status, the `success` and `message` fields and
    the rest of the body. */
module Routes {
  import opened Wrappers
  import Text
  import Validators
  import Config
  import opened Firebase
  import Auth

  /** Flask's `session` for one client: the two keys the handlers write. */
  class Session {
    var userId: Option<DocId>
    var username: Option<string>

    /** A new client has an empty session. */
    constructor ()
      ensures userId == None && username == None
    {
      userId := None;
      username := None;
    }

    /** `'user_id' in session`, the test of `login_required`. */
    predicate Active()
      reads this
    {
      userId.Some?
    }
  }

  /** A request's JSON body as the handlers read it: a field that is not
      there reads as "", and the empty map is a missing or empty body. */
  type Json = map<string, string>

  /** `data.get(key, '')` */
  function Field(data: Json, key: string): (v: string)
    ensures key in data ==> v == data[key]
    ensures key !in data ==> v == ""
  {
    if key in data then data[key] else ""
  }

  /** The part of a reply besides `success` and `message`. */
  datatype Payload =
    | NoPayload
    | UserPayload(id: DocId, username: string, email: string)
    | MePayload(userId: Option<DocId>, name: Option<string>, progress: Progress)
    | LessonsPayload(lessons: seq<LessonEntry>, count: nat)
    | LessonPayload(lesson: LessonEntry)
    | CategoriesPayload(categories: seq<string>)
    | ProgressPayload(progress: Progress)

  datatype Response = Response(status: int, success: bool, message: string, payload: Payload)

  function Fail(status: int, message: string): Response {
    Response(status, false, message, NoPayload)
  }

  const NoDataMessage := "No se recibieron datos"

  /** The reply of `login_required` to a request without a session. */
  function Unauthorized(): (r: Response)
    ensures r.status == 401 && !r.success
  {
    Fail(401, "Debes iniciar sesión")
  }

  // ---------------------------------------------------------------------
  // register
  // ---------------------------------------------------------------------

  /** The checks `register` makes before creating the user. */
  datatype RegisterCheck = UsernameFormat | EmailFormat | PasswordPolicy | UsernameFree | EmailFree

  /** The order in which `register` makes them. */
  function Rank(check: RegisterCheck): nat {
    match check
    case UsernameFormat => 0
    case EmailFormat => 1
    case PasswordPolicy => 2
    case UsernameFree => 3
    case EmailFree => 4
  }

  predicate Passes(svc: FirebaseService, check: RegisterCheck, username: string, email: string, password: string)
    reads svc
    requires svc.Valid()
  {
    match check
    case UsernameFormat => Validators.ValidateUsername(username).ok
    case EmailFormat => Validators.ValidateEmail(email)
    case PasswordPolicy => Validators.ValidatePassword(password).ok
    case UsernameFree => !svc.UserExists(username, "")
    case EmailFree => !svc.UserExists("", email)
  }

  /** The message a failed check answers with. */
  function Refusal(check: RegisterCheck, username: string, password: string): string {
    match check
    case UsernameFormat => Validators.ValidateUsername(username).message
    case EmailFormat => "Formato de email inválido"
    case PasswordPolicy => Validators.ValidatePassword(password).message
    case UsernameFree => "El usuario ya existe"
    case EmailFree => "El email ya está registrado"
  }

  /** The first check, in Rank order, that the input fails; None when all pass. */
  function FirstFailing(svc: FirebaseService, username: string, email: string, password: string): (r: Option<RegisterCheck>)
    reads svc
    requires svc.Valid()
    ensures r.None? <==> forall c :: Passes(svc, c, username, email, password)
    ensures r.Some? ==> !Passes(svc, r.value, username, email, password)
    ensures r.Some? ==> forall c :: Rank(c) < Rank(r.value) ==> Passes(svc, c, username, email, password)
  {
    if !Passes(svc, UsernameFormat, username, email, password) then Some(UsernameFormat)
    else if !Passes(svc, EmailFormat, username, email, password) then Some(EmailFormat)
    else if !Passes(svc, PasswordPolicy, username, email, password) then Some(PasswordPolicy)
    else if !Passes(svc, UsernameFree, username, email, password) then Some(UsernameFree)
    else if !Passes(svc, EmailFree, username, email, password) then Some(EmailFree)
    else None
  }

  /** Why `register` refuses a body, if it does: no body at all, or the
      first failing check. Username and email are trimmed and lower-cased
      before they are checked; the password is taken as is. */
  function RegisterRefusal(svc: FirebaseService, data: Json): (r: Option<string>)
    reads svc
    requires svc.Valid()
    ensures data == map[] ==> r == Some(NoDataMessage)
    ensures data != map[] ==>
              var u, e, p := Text.StripLower(Field(data, "username")), Text.StripLower(Field(data, "email")), Field(data, "password");
              var failing := FirstFailing(svc, u, e, p);
              && (r.None? <==> failing.None?)
              && (r.Some? ==> r.value == Refusal(failing.value, u, p))
  {
    if data == map[] then Some(NoDataMessage)
    else
      var u, e, p := Text.StripLower(Field(data, "username")), Text.StripLower(Field(data, "email")), Field(data, "password");
      match FirstFailing(svc, u, e, p)
      case None => None
      case Some(check) => Some(Refusal(check, u, p))
  }

  /** A body that passes every check names a valid username nobody has and a
      valid email with no account. */
  lemma AcceptedRegistration(svc: FirebaseService, data: Json)
    requires svc.Valid()
    requires RegisterRefusal(svc, data).None?
    ensures data != map[]
    ensures var u := Text.StripLower(Field(data, "username"));
            Validators.ValidateUsername(u).ok && forall uid :: uid in svc.users ==> svc.users[uid].username != u
    ensures var e := Text.StripLower(Field(data, "email"));
            Validators.ValidateEmail(e) && e !in svc.accounts
    ensures Validators.ValidatePassword(Field(data, "password")).ok
  {
    var u, e, p := Text.StripLower(Field(data, "username")), Text.StripLower(Field(data, "email")), Field(data, "password");
    AllChecksPassed(svc, u, e, p);
  }

  lemma AllChecksPassed(svc: FirebaseService, username: string, email: string, password: string)
    requires svc.Valid()
    requires FirstFailing(svc, username, email, password).None?
    ensures Validators.ValidateUsername(username).ok
    ensures forall uid :: uid in svc.users ==> svc.users[uid].username != username
    ensures Validators.ValidateEmail(email) && email !in svc.accounts
    ensures Validators.ValidatePassword(password).ok
  {
    assert Passes(svc, UsernameFormat, username, email, password) && Passes(svc, UsernameFree, username, email, password);
    assert Passes(svc, EmailFormat, username, email, password) && Passes(svc, EmailFree, username, email, password);
    assert Passes(svc, PasswordPolicy, username, email, password);
    Validators.EmailShape(email);
  }

  /** The end of a `register` whose checks all passed: create_user, then a
      session for the new user and 201. */
  method CreateAndSignIn(svc: FirebaseService, session: Session, username: string, email: string, password: string)
    returns (r: Response)
    requires svc.Valid()
    requires email !in svc.accounts
    requires forall uid :: uid in svc.users ==> svc.users[uid].username != username
    modifies svc, session
    ensures svc.Valid()
    ensures r == Response(201, true, "Usuario registrado exitosamente", UserPayload(old(svc.nextId), username, email))
    ensures old(svc.nextId) !in old(svc.users)
    ensures svc.users == old(svc.users)[old(svc.nextId) := UserDoc(username, email, InitialProgress())]
    ensures svc.accounts == old(svc.accounts)[email := old(svc.nextId)] && svc.nextId == old(svc.nextId) + 1
    ensures svc.lessons == old(svc.lessons)
    ensures session.userId == Some(old(svc.nextId)) && session.username == Some(username)
    ensures old(svc.UniqueUsernames()) ==> svc.UniqueUsernames()
  {
    ghost var before := svc.users;
    var success, message, userId := svc.CreateUser(email, password, username);
    if success {
      session.userId := userId;
      session.username := Some(username);
      r := Response(201, true, "Usuario registrado exitosamente", UserPayload(userId.value, username, email));
      if DistinctUsernames(before) {
        FreshUsernameKeepsDistinct(before, userId.value, UserDoc(username, email, InitialProgress()));
      }
    } else {
      r := Fail(400, message);
    }
  }

  /** POST /register: 400 with the refusal, or the new user, a session for
      them and 201. Registration through the API never gives two users the
      same username. */
  method Register(svc: FirebaseService, session: Session, data: Json) returns (r: Response)
    requires svc.Valid()
    modifies svc, session
    ensures svc.Valid()
    ensures old(RegisterRefusal(svc, data)).Some? ==>
              r == Fail(400, old(RegisterRefusal(svc, data)).value) && unchanged(svc) && unchanged(session)
    ensures old(RegisterRefusal(svc, data)).None? ==>
              var u, e := Text.StripLower(Field(data, "username")), Text.StripLower(Field(data, "email"));
              && r == Response(201, true, "Usuario registrado exitosamente", UserPayload(old(svc.nextId), u, e))
              && old(svc.nextId) !in old(svc.users)
              && svc.users == old(svc.users)[old(svc.nextId) := UserDoc(u, e, InitialProgress())]
              && svc.accounts == old(svc.accounts)[e := old(svc.nextId)] && svc.nextId == old(svc.nextId) + 1
              && svc.lessons == old(svc.lessons)
              && session.userId == Some(old(svc.nextId)) && session.username == Some(u)
    ensures old(svc.UniqueUsernames()) ==> svc.UniqueUsernames()
  {
    var refusal := RegisterRefusal(svc, data);
    if refusal.Some? {
      return Fail(400, refusal.value);
    }
    AcceptedRegistration(svc, data);
    r := CreateAndSignIn(svc, session, Text.StripLower(Field(data, "username")), Text.StripLower(Field(data, "email")), Field(data, "password"));
  }

  // ---------------------------------------------------------------------
  // login and logout
  // ---------------------------------------------------------------------

  /** POST /login: 404 for an unknown username, 401 when the store refuses
      the email, and otherwise 200 with a session for the user found. The
      password is never checked (see Auth.LoginIgnoresPassword). */
  method Login(svc: FirebaseService, session: Session, data: Json) returns (r: Response)
    requires svc.Valid()
    modifies session
    ensures data == map[] ==> r == Fail(400, NoDataMessage) && unchanged(session)
    ensures data != map[] ==>
              var outcome := old(Auth.ResolveLogin(svc, Text.StripLower(Field(data, "identifier")), Field(data, "password")));
              && (outcome == Auth.UnknownUsername ==> r == Fail(404, "Usuario no encontrado") && unchanged(session))
              && (outcome.Rejected? ==> r == Fail(401, outcome.message) && unchanged(session))
              && (outcome.Accepted? ==>
                    && r == Response(200, true, "Login exitoso",
                                     UserPayload(outcome.user.uid, outcome.user.doc.username, outcome.user.doc.email))
                    && session.userId == Some(outcome.user.uid)
                    && session.username == Some(outcome.user.doc.username))
  {
    if data == map[] {
      return Fail(400, NoDataMessage);
    }
    var identifier := Text.StripLower(Field(data, "identifier"));
    var outcome := Auth.ResolveLogin(svc, identifier, Field(data, "password"));
    match outcome
    case UnknownUsername =>
      r := Fail(404, "Usuario no encontrado");
    case Rejected(message) =>
      r := Fail(401, message);
    case Accepted(user) =>
      session.userId := Some(user.uid);
      session.username := Some(user.doc.username);
      r := Response(200, true, "Login exitoso", UserPayload(user.uid, user.doc.username, user.doc.email));
  }

  /** POST /logout: empties the whole session and says goodbye by the
      session's username ("Usuario" when it has none). */
  method Logout(session: Session) returns (r: Response)
    modifies session
    ensures !old(session.Active()) ==> r == Unauthorized() && unchanged(session)
    ensures old(session.Active()) ==>
              && r == Response(200, true, "Hasta luego, " + old(session.username).GetOr("Usuario") + "!", NoPayload)
              && session.userId == None && session.username == None && !session.Active()
  {
    if !session.Active() {
      return Unauthorized();
    }
    var name := session.username.GetOr("Usuario");
    session.userId := None;
    session.username := None;
    r := Response(200, true, "Hasta luego, " + name + "!", NoPayload);
  }

  // ---------------------------------------------------------------------
  // Read-only endpoints behind login_required
  // ---------------------------------------------------------------------

  /** GET /me: the session's user and that user's progress. */
  function Me(svc: FirebaseService, session: Session): (r: Response)
    reads svc, session
    ensures !session.Active() ==> r == Unauthorized()
    ensures session.Active() ==>
              && r.status == 200 && r.success
              && r.payload == MePayload(session.userId, session.username, svc.GetUserProgress(session.userId.value))
  {
    if !session.Active() then Unauthorized()
    else Response(200, true, "", MePayload(session.userId, session.username, svc.GetUserProgress(session.userId.value)))
  }

  /** GET /lessons: the lessons of the category named by `?category=`, or all
      of them when the argument is missing or empty, with their count. */
  function GetLessons(svc: FirebaseService, session: Session, category: Option<string>): (r: Response)
    reads svc, session
    requires svc.Valid()
    ensures !session.Active() ==> r == Unauthorized()
    ensures session.Active() ==>
              && r.status == 200 && r.success && r.payload.LessonsPayload?
              && r.payload.count == |r.payload.lessons|
              && Ordered(r.payload.lessons)
              && forall e :: e in r.payload.lessons <==>
                   && e.id in svc.lessons && e.doc == svc.lessons[e.id] && e.doc.numero.Some?
                   && (category.Some? && category.value != "" ==> e.doc.categoria == category)
  {
    if !session.Active() then Unauthorized()
    else
      var lessons := if category.Some? && category.value != "" then svc.GetLessonsByCategory(category.value) else svc.GetAllLessons();
      Response(200, true, "", LessonsPayload(lessons, |lessons|))
  }

  /** GET /lessons/<id>: the lesson, or 404. */
  function GetLesson(svc: FirebaseService, session: Session, lessonId: DocId): (r: Response)
    reads svc, session
    ensures !session.Active() ==> r == Unauthorized()
    ensures session.Active() && lessonId in svc.lessons ==>
              r == Response(200, true, "", LessonPayload(LessonEntry(lessonId, svc.lessons[lessonId])))
    ensures session.Active() && lessonId !in svc.lessons ==> r == Fail(404, "Lección no encontrada")
  {
    if !session.Active() then Unauthorized()
    else
      match svc.GetLessonById(lessonId)
      case Some(lesson) => Response(200, true, "", LessonPayload(lesson))
      case None => Fail(404, "Lección no encontrada")
  }

  /** GET /lessons/categories: the three course levels. */
  function GetCategories(session: Session): (r: Response)
    reads session
    ensures !session.Active() ==> r == Unauthorized()
    ensures session.Active() ==>
              && r.status == 200 && r.payload.CategoriesPayload?
              && r.payload.categories == [Config.Basic, Config.Intermediate, Config.Advanced]
  {
    if !session.Active() then Unauthorized()
    else Response(200, true, "", CategoriesPayload(Config.LessonCategories))
  }

  /** GET /progress: the session user's progress (`{}` for an unknown user). */
  function GetProgress(svc: FirebaseService, session: Session): (r: Response)
    reads svc, session
    ensures !session.Active() ==> r == Unauthorized()
    ensures session.Active() ==>
              && r.status == 200 && r.payload.ProgressPayload?
              && (session.userId.value in svc.users ==> r.payload.progress == svc.users[session.userId.value].progress)
              && (session.userId.value !in svc.users ==> r.payload.progress == EmptyProgress)
  {
    if !session.Active() then Unauthorized()
    else Response(200, true, "", ProgressPayload(svc.GetUserProgress(session.userId.value)))
  }

  // ---------------------------------------------------------------------
  // search
  // ---------------------------------------------------------------------

  /** Where GET /search sends a request. The two search functions of the
      store are not part of this model, only the choice between them. */
  datatype SearchRoute =
    | Refused(response: Response)
    | PlainSearch(query: string)
    | AdvancedSearch(query: string, category: string, difficulty: Option<int>)

  /** `q` and `category` are the query arguments ("" when missing) and
      `difficulty` is `?difficulty=` read as an integer (None when missing or
      not a number). A query that is empty or only whitespace is refused;
      the advanced search runs exactly when a category or a difficulty is
      given. */
  function Search(session: Session, q: string, category: string, difficulty: Option<int>): (r: SearchRoute)
    reads session
    ensures !session.Active() ==> r == Refused(Unauthorized())
    ensures session.Active() ==>
              (r.Refused? <==> forall k :: 0 <= k < |q| ==> Text.IsSpace(q[k]))
    ensures r.Refused? && session.Active() ==> r.response == Fail(400, "Parámetro de búsqueda vacío")
    ensures r.AdvancedSearch? <==>
              && session.Active()
              && (exists k :: 0 <= k < |q| && !Text.IsSpace(q[k]))
              && ((exists k :: 0 <= k < |category| && !Text.IsSpace(category[k])) || difficulty.Some?)
    ensures !r.Refused? ==> r.query == Text.Strip(q) && r.query != ""
    ensures r.AdvancedSearch? ==> r.category == Text.Strip(category) && r.difficulty == difficulty
  {
    if !session.Active() then Refused(Unauthorized())
    else
      var query := Text.Strip(q);
      var cat := Text.Strip(category);
      Text.StripBlank(q);
      Text.StripBlank(category);
      if query == "" then Refused(Fail(400, "Parámetro de búsqueda vacío"))
      else if cat != "" || difficulty.Some? then AdvancedSearch(query, cat, difficulty)
      else PlainSearch(query)
  }

  // ---------------------------------------------------------------------
  // complete_lesson
  // ---------------------------------------------------------------------

  /** POST /progress/complete/<id>: marks the lesson completed for the
      session's user. Any successful update answers 200 with the "+10 puntos"
      message, even when nothing changed because the lesson was already
      completed; an unknown user gets 400. */
  method CompleteLesson(svc: FirebaseService, session: Session, lessonId: DocId) returns (r: Response)
    requires svc.Valid()
    modifies svc
    ensures svc.Valid()
    ensures !session.Active() ==> r == Unauthorized() && unchanged(svc)
    ensures svc.accounts == old(svc.accounts) && svc.lessons == old(svc.lessons) && svc.nextId == old(svc.nextId)
    ensures session.Active() ==>
              var uid := session.userId.value;
              && (uid !in old(svc.users) ==> r == Fail(400, "Usuario no encontrado") && svc.users == old(svc.users))
              && (uid in old(svc.users) ==>
                    var progress := AfterCompletion(old(svc.users)[uid].progress, lessonId, true);
                    && lessonId in CompletedLessons(progress)
                    && svc.users == old(svc.users)[uid := old(svc.users)[uid].(progress := progress)]
                    && r == Response(200, true, "¡Lección completada! +10 puntos", ProgressPayload(progress)))
  {
    if !session.Active() {
      return Unauthorized();
    }
    var uid := session.userId.value;
    var success, message := svc.UpdateUserProgress(uid, lessonId, true);
    if success {
      r := Response(200, true, "¡Lección completada! +10 puntos", ProgressPayload(svc.GetUserProgress(uid)));
    } else {
      r := Fail(400, message);
    }
  }
}
