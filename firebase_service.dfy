/** backend/firebase_service.py: the data-access layer. Firestore's two
    collections and Firebase Authentication's email index are maps held by
    the class FirebaseService; document ids are natural numbers drawn from a
    counter, which stands for the store handing out fresh ids. */
module Firebase {
  import opened Wrappers
  import Config

  type DocId = nat

  // ---------------------------------------------------------------------
  // Documents
  // ---------------------------------------------------------------------

  /** A user's `progress` dict. Each key may be absent; a user document
      without `progress` behaves exactly like one whose progress is `{}`,
      so both are EmptyProgress. */
  datatype Progress = Progress(completedLessons: Option<seq<DocId>>, currentLevel: Option<string>, totalPoints: Option<int>)

  const EmptyProgress := Progress(None, None, None)

  /** A document of the `users` collection (its `created_at` stamp is left out). */
  datatype UserDoc = UserDoc(username: string, email: string, progress: Progress)

  /** A user document with its id attached, as `user_data['uid'] = ...` does. */
  datatype UserView = UserView(uid: DocId, doc: UserDoc)

  /** A document of the `lessons` collection. Firestore is schemaless, so the
      two fields that queries filter and order on may be missing. */
  datatype LessonDoc = LessonDoc(
    numero: Option<int>,
    titulo: string,
    descripcion: string,
    ejemplos: string,
    categoria: Option<string>,
    url: string)

  /** `{**lesson.to_dict(), 'id': lesson.id}` */
  datatype LessonEntry = LessonEntry(id: DocId, doc: LessonDoc)

  // ---------------------------------------------------------------------
  // Progress bookkeeping
  // ---------------------------------------------------------------------

  /** `progress.get('completed_lessons', [])` */
  function CompletedLessons(p: Progress): seq<DocId> { p.completedLessons.GetOr([]) }

  /** `progress.get('total_points', 0)` */
  function TotalPoints(p: Progress): int { p.totalPoints.GetOr(0) }

  /** Ten points per distinct completed lesson, and no lesson listed twice. */
  predicate Consistent(p: Progress) {
    var done := CompletedLessons(p);
    && (forall i, j :: 0 <= i < j < |done| ==> done[i] != done[j])
    && TotalPoints(p) == 10 * |done|
  }

  /** The progress create_user writes for a new user. */
  function InitialProgress(): (p: Progress)
    ensures Consistent(p) && CompletedLessons(p) == []
    ensures p.currentLevel == Some(Config.Basic)
  {
    Progress(Some([]), Some(Config.Basic), Some(0))
  }

  /** Whether update_user_progress writes anything. */
  predicate AwardsPoints(p: Progress, lessonId: DocId, completed: bool) {
    completed && lessonId !in CompletedLessons(p)
  }

  /** The progress after update_user_progress: a newly completed lesson is
      appended and earns 10 points (a missing total counting as 0); anything
      else leaves the progress as it was. */
  function AfterCompletion(p: Progress, lessonId: DocId, completed: bool): (q: Progress)
    ensures AwardsPoints(p, lessonId, completed) ==>
              && CompletedLessons(q) == CompletedLessons(p) + [lessonId]
              && TotalPoints(q) == TotalPoints(p) + 10
    ensures !AwardsPoints(p, lessonId, completed) ==> q == p
    ensures q.currentLevel == p.currentLevel
    ensures completed ==> lessonId in CompletedLessons(q)
  {
    if AwardsPoints(p, lessonId, completed) then
      p.(completedLessons := Some(CompletedLessons(p) + [lessonId]),
         totalPoints := Some(TotalPoints(p) + 10))
    else
      p
  }

  /** An update keeps the list duplicate-free and the points at ten per lesson. */
  lemma CompletionKeepsConsistent(p: Progress, lessonId: DocId, completed: bool)
    requires Consistent(p)
    ensures Consistent(AfterCompletion(p, lessonId, completed))
  {
    if AwardsPoints(p, lessonId, completed) {
      var done := CompletedLessons(p);
      var done' := done + [lessonId];
      forall i, j | 0 <= i < j < |done'|
        ensures done'[i] != done'[j]
      {
        if j == |done| {
          assert done'[i] == done[i];
        }
      }
    }
  }

  /** Completing a lesson a second time changes nothing. */
  lemma CompletionIdempotent(p: Progress, lessonId: DocId, completed: bool)
    ensures AfterCompletion(AfterCompletion(p, lessonId, completed), lessonId, completed)
            == AfterCompletion(p, lessonId, completed)
  {
  }

  /** The progress after completing each lesson of `lessonIds` in turn. */
  function CompleteAll(p: Progress, lessonIds: seq<DocId>): Progress
    decreases lessonIds
  {
    if lessonIds == [] then p else CompleteAll(AfterCompletion(p, lessonIds[0], true), lessonIds[1..])
  }

  /** Over any history of completions the progress stays consistent, lists
      exactly the lessons completed so far, and its points never decrease:
      points equal ten times the number of distinct lessons completed. */
  lemma {:induction false} CompleteAllMeaning(p: Progress, lessonIds: seq<DocId>)
    requires Consistent(p)
    ensures Consistent(CompleteAll(p, lessonIds))
    ensures forall l :: l in CompletedLessons(CompleteAll(p, lessonIds)) <==> l in CompletedLessons(p) || l in lessonIds
    ensures TotalPoints(CompleteAll(p, lessonIds)) >= TotalPoints(p)
    decreases lessonIds
  {
    if lessonIds != [] {
      var q := AfterCompletion(p, lessonIds[0], true);
      CompletionKeepsConsistent(p, lessonIds[0], true);
      CompleteAllMeaning(q, lessonIds[1..]);
      assert forall l :: l in lessonIds <==> l == lessonIds[0] || l in lessonIds[1..];
    }
  }

  // ---------------------------------------------------------------------
  // Queries
  // ---------------------------------------------------------------------

  /** No two user documents carry the same username. */
  ghost predicate DistinctUsernames(users: map<DocId, UserDoc>) {
    forall a, b :: a in users && b in users && users[a].username == users[b].username ==> a == b
  }

  /** Adding a user whose username nobody has keeps usernames distinct. */
  lemma FreshUsernameKeepsDistinct(users: map<DocId, UserDoc>, uid: DocId, doc: UserDoc)
    requires DistinctUsernames(users)
    requires uid !in users
    requires forall other :: other in users ==> users[other].username != doc.username
    ensures DistinctUsernames(users[uid := doc])
  {
  }

  /** The first user (by id) below `bound` with this username: the answer to
      `.where('username', '==', name).limit(1)`, whose results come in
      document-id order. */
  function FirstUserNamed(users: map<DocId, UserDoc>, name: string, bound: nat): (r: Option<DocId>)
    ensures r.Some? ==> r.value < bound && r.value in users && users[r.value].username == name
    ensures forall uid :: uid < bound && uid in users && users[uid].username == name ==> r.Some? && r.value <= uid
  {
    if bound == 0 then None
    else
      var r := FirstUserNamed(users, name, bound - 1);
      if r.Some? then r
      else if bound - 1 in users && users[bound - 1].username == name then Some(bound - 1)
      else None
  }

  /** Whether a lesson is returned by a query ordered by `numero_leccion`
      (Firestore leaves out documents without the ordering field), filtered
      on `categoria` when a category is given. */
  predicate Matches(d: LessonDoc, category: Option<string>) {
    d.numero.Some? && (category.None? || d.categoria == category)
  }

  function Numero(e: LessonEntry): int { e.doc.numero.GetOr(0) }

  /** The order of `order_by('numero_leccion')`: by lesson number, ties by document id. */
  predicate Before(a: LessonEntry, b: LessonEntry) {
    Numero(a) < Numero(b) || (Numero(a) == Numero(b) && a.id < b.id)
  }

  /** Strictly ascending, hence also free of repeated documents. */
  predicate Ordered(s: seq<LessonEntry>) {
    forall i, j :: 0 <= i < j < |s| ==> Before(s[i], s[j])
  }

  function Insert(s: seq<LessonEntry>, e: LessonEntry): (r: seq<LessonEntry>)
    requires Ordered(s)
    requires forall k :: 0 <= k < |s| ==> s[k].id != e.id
    ensures Ordered(r)
    ensures |r| == |s| + 1
    ensures forall x :: x in r <==> x in s || x == e
  {
    if s == [] then [e]
    else if Before(e, s[0]) then [e] + s
    else
      assert Before(s[0], e);
      var rest := Insert(s[1..], e);
      assert forall x :: x in rest ==> Before(s[0], x) by {
        forall x | x in rest ensures Before(s[0], x) {
          if x != e {
            var k :| 0 <= k < |s[1..]| && s[1..][k] == x;
            assert s[k + 1] == x;
          }
        }
      }
      [s[0]] + rest
  }

  /** The lessons with id below `bound` that match, in query order. */
  function Query(lessons: map<DocId, LessonDoc>, category: Option<string>, bound: nat): (r: seq<LessonEntry>)
    ensures Ordered(r)
    ensures forall e :: e in r ==> e.id < bound && e.id in lessons && e.doc == lessons[e.id] && Matches(e.doc, category)
    ensures forall id :: id < bound && id in lessons && Matches(lessons[id], category) ==> LessonEntry(id, lessons[id]) in r
  {
    if bound == 0 then []
    else
      var r := Query(lessons, category, bound - 1);
      var id := bound - 1;
      if id in lessons && Matches(lessons[id], category) then
        assert forall k :: 0 <= k < |r| ==> r[k].id != id by {
          forall k | 0 <= k < |r| ensures r[k].id != id {
            assert r[k] in r;
          }
        }
        Insert(r, LessonEntry(id, lessons[id]))
      else
        r
  }

  // ---------------------------------------------------------------------
  // The service
  // ---------------------------------------------------------------------

  class FirebaseService {
    /** The `users` collection. */
    var users: map<DocId, UserDoc>
    /** Firebase Authentication's accounts: email to uid. */
    var accounts: map<string, DocId>
    /** The `lessons` collection. */
    var lessons: map<DocId, LessonDoc>
    /** The next fresh document id. */
    var nextId: DocId

    /** Every id in use is below nextId, and every user document's email is an
        account whose uid is that document's id. */
    ghost predicate Valid()
      reads this
    {
      && (forall uid :: uid in users ==> uid < nextId)
      && (forall id :: id in lessons ==> id < nextId)
      && (forall e :: e in accounts ==> accounts[e] < nextId)
      && (forall uid :: uid in users ==> users[uid].email in accounts && accounts[users[uid].email] == uid)
    }

    /** No two users share a username. */
    ghost predicate UniqueUsernames()
      reads this
    {
      DistinctUsernames(users)
    }

    constructor ()
      ensures Valid() && UniqueUsernames()
      ensures users == map[] && accounts == map[] && lessons == map[]
    {
      users, accounts, lessons, nextId := map[], map[], map[], 0;
    }

    /** create_user: a new Authentication account and a user document with
        the initial progress; refused when the email already has an account. */
    method CreateUser(email: string, password: string, username: string)
      returns (success: bool, message: string, uid: Option<DocId>)
      requires Valid()
      modifies this
      ensures Valid()
      ensures success <==> email !in old(accounts)
      ensures success ==>
                && uid == Some(old(nextId)) && old(nextId) !in old(users)
                && message == "Usuario registrado exitosamente"
                && users == old(users)[old(nextId) := UserDoc(username, email, InitialProgress())]
                && accounts == old(accounts)[email := old(nextId)]
                && lessons == old(lessons) && nextId == old(nextId) + 1
      ensures !success ==> uid == None && message == "El email ya está registrado" && unchanged(this)
    {
      if email in accounts {
        return false, "El email ya está registrado", None;
      }
      var newUid := nextId;
      nextId := nextId + 1;
      accounts := accounts[email := newUid];
      users := users[newUid := UserDoc(username, email, InitialProgress())];
      return true, "Usuario registrado exitosamente", Some(newUid);
    }

    /** verify_user: looks the email up among the accounts and returns the
        matching user document. The password is never compared. */
    function VerifyUser(email: string, password: string): (r: Result<UserView>)
      reads this
      ensures r.Ok? <==> email in accounts && accounts[email] in users
      ensures r.Ok? ==> r.value.uid == accounts[email] && r.value.doc == users[r.value.uid]
      ensures r.Err? ==> r.message == if email in accounts then "Usuario no encontrado en la base de datos" else "Email no registrado"
    {
      if email !in accounts then Err("Email no registrado")
      else if accounts[email] in users then Ok(UserView(accounts[email], users[accounts[email]]))
      else Err("Usuario no encontrado en la base de datos")
    }

    /** Every stored user is found again by the email on its document,
        whatever password is offered. */
    lemma VerifyByStoredEmail(uid: DocId, password: string)
      requires Valid() && uid in users
      ensures VerifyUser(users[uid].email, password) == Ok(UserView(uid, users[uid]))
    {
    }

    /** get_user_by_username */
    function GetUserByUsername(username: string): (r: Option<UserView>)
      reads this
      requires Valid()
      ensures r.Some? ==> r.value.uid in users && r.value.doc == users[r.value.uid] && r.value.doc.username == username
      ensures r.Some? ==> forall uid :: uid in users && users[uid].username == username ==> r.value.uid <= uid
      ensures r.None? <==> forall uid :: uid in users ==> users[uid].username != username
    {
      match FirstUserNamed(users, username, nextId)
      case Some(uid) => Some(UserView(uid, users[uid]))
      case None => None
    }

    /** user_exists: by username when one is given (non-empty), otherwise by
        email among the accounts; false when neither is given. */
    function UserExists(username: string, email: string): (r: bool)
      reads this
      requires Valid()
      ensures username != "" ==> (r <==> exists uid :: uid in users && users[uid].username == username)
      ensures username == "" ==> (r <==> email != "" && email in accounts)
    {
      if username != "" then GetUserByUsername(username).Some?
      else if email != "" then email in accounts
      else false
    }

    /** add_lesson: stores the lesson under a fresh id, unless the store
        raises (`failure` is the exception's text). */
    method AddLesson(data: LessonDoc, failure: Option<string>)
      returns (success: bool, message: string, id: Option<DocId>)
      requires Valid()
      modifies this
      ensures Valid()
      ensures success <==> failure.None?
      ensures success ==>
                && id == Some(old(nextId)) && old(nextId) !in old(lessons)
                && lessons == old(lessons)[old(nextId) := data]
                && users == old(users) && accounts == old(accounts) && nextId == old(nextId) + 1
                && message == "Lección agregada exitosamente"
      ensures !success ==> id == None && message == "Error al agregar lección: " + failure.value && unchanged(this)
    {
      if failure.Some? {
        return false, "Error al agregar lección: " + failure.value, None;
      }
      var newId := nextId;
      nextId := nextId + 1;
      lessons := lessons[newId := data];
      return true, "Lección agregada exitosamente", Some(newId);
    }

    /** get_lessons_by_category: exactly the lessons of that category (that
        have a lesson number), in ascending lesson-number order. */
    function GetLessonsByCategory(category: string): (r: seq<LessonEntry>)
      reads this
      requires Valid()
      ensures Ordered(r)
      ensures forall e :: e in r <==> e.id in lessons && e.doc == lessons[e.id]
                                      && e.doc.numero.Some? && e.doc.categoria == Some(category)
    {
      Query(lessons, Some(category), nextId)
    }

    /** get_all_lessons: every lesson that has a lesson number, in ascending order. */
    function GetAllLessons(): (r: seq<LessonEntry>)
      reads this
      requires Valid()
      ensures Ordered(r)
      ensures forall e :: e in r <==> e.id in lessons && e.doc == lessons[e.id] && e.doc.numero.Some?
    {
      Query(lessons, None, nextId)
    }

    /** get_lesson_by_id */
    function GetLessonById(id: DocId): (r: Option<LessonEntry>)
      reads this
      ensures r.Some? <==> id in lessons
      ensures r.Some? ==> r.value == LessonEntry(id, lessons[id])
    {
      if id in lessons then Some(LessonEntry(id, lessons[id])) else None
    }

    /** update_user_progress: a read-modify-write of one user's progress. */
    method UpdateUserProgress(uid: DocId, lessonId: DocId, completed: bool)
      returns (success: bool, message: string)
      requires Valid()
      modifies this
      ensures Valid()
      ensures accounts == old(accounts) && lessons == old(lessons) && nextId == old(nextId)
      ensures uid !in old(users) ==> !success && message == "Usuario no encontrado" && users == old(users)
      ensures uid in old(users) ==>
                && success
                && users == old(users)[uid := old(users)[uid].(progress := AfterCompletion(old(users)[uid].progress, lessonId, completed))]
                && message == if AwardsPoints(old(users)[uid].progress, lessonId, completed) then "Progreso actualizado" else "Sin cambios"
      ensures uid in old(users) && !AwardsPoints(old(users)[uid].progress, lessonId, completed) ==> users == old(users)
    {
      if uid !in users {
        return false, "Usuario no encontrado";
      }
      var userData := users[uid];
      var progress := userData.progress;
      var completedLessons := CompletedLessons(progress);
      if completed && lessonId !in completedLessons {
        completedLessons := completedLessons + [lessonId];
        progress := progress.(completedLessons := Some(completedLessons));
        progress := progress.(totalPoints := Some(TotalPoints(progress) + 10));
        users := users[uid := userData.(progress := progress)];
        return true, "Progreso actualizado";
      }
      assert users[uid := userData] == users;
      return true, "Sin cambios";
    }

    /** get_user_progress: the stored progress, or `{}` for an unknown user. */
    function GetUserProgress(uid: DocId): (r: Progress)
      reads this
      ensures uid in users ==> r == users[uid].progress
      ensures uid !in users ==> r == EmptyProgress
    {
      if uid in users then users[uid].progress else EmptyProgress
    }
  }
}
