# App_learnCode: a verified model of the core

App_learnCode is a Flask and Firebase application that teaches Python. Its
lessons are scraped from the W3Schools tutorial and loaded into Firestore.
Users register and log in, then read lessons and collect ten points per
completed lesson. This project models that core in Dafny and proves what its
code promises:

- `validators.dfy`: the three input validators of `src/validators.py`. Each
  regular expression is written out as character-class predicates. The
  module also states where Python's `$` anchor changes the outcome.
- `firebase_service.dfy`: the data-access layer. The class
  `FirebaseService` holds the `users` and `lessons` collections and the
  email index of Firebase Authentication as maps, plus a counter for fresh
  document ids. It also holds the progress bookkeeping, the username lookup
  and the ordered lesson queries.
- `auth.dfy`: the console `AuthSystem`, with its two session fields, the
  retry loops of `register`, and the login dispatch it shares with the API.
  The dispatch never looks at the password: `Auth.LoginIgnoresPassword`
  proves it.
- `routes.dfy`: the JSON API. A Flask `session` is the class `Session`.
  Each handler maps a request body or its arguments, the store and the
  session to a reply: status, `success`, `message` and payload.
- `import_lessons.dfy`: the CSV import loop with its `total_imported`
  counter, and the per-category tally of `verify_import`.
- `scraper.dfy`: the W3Schools scraper. It covers URL building, the level
  chosen by position, the joining and cutting of texts and code, the loop
  over the menu's links, and the per-level files of
  `crear_estructura_curso`.
- `text.dfy`, `config.dfy`, `wrappers.dfy`: Python's string operations on
  `seq<char>`, the constants of `config.py`, and `Option`/`Result`.

backend/auth.py and backend/routes.py import `backend/validators.py`. That
file is not part of this model; `src/validators.py` stands in for it.

The network, the files and the console are parameters:

- the lines typed at `input()` and at `getpass()` are sequences, and
  running out of them stands for the end of input;
- the CSV file is the sequence of rows pandas reads;
- the web is a map from URL to fetched page, and a URL missing from the map
  is a request that failed;
- the failures of `add_lesson` are given per row.

## Model

| member | source | states |
|---|---|---|
| Validators.ValidateEmail | src/validators.py:3-6 | the email pattern matched over the whole string: a non-empty local part of `[a-zA-Z0-9._%+-]`, '@', a non-empty domain of `[a-zA-Z0-9.-]`, '.', and two or more ASCII letters |
| Validators.ValidateEmailAsWritten | src/validators.py:3-6 | accepts exactly the strings that match the email pattern in full, or in full but for one final '\n' (Python's `$`) |
| Validators.EmailShape | src/validators.py:5-6 | an accepted email has exactly one '@', not at the start, is at least 5 long and ends in two ASCII letters |
| Validators.EmailFromParts | src/validators.py:5-6 | conversely, every local@domain.tld built from the pattern's three character classes (tld of two or more letters) is accepted |
| Validators.Search | src/validators.py:14-23 | `re.search` of a one-character class finds something iff some character of the string is in the class |
| Validators.ValidatePassword | src/validators.py:9-26 | valid iff the password is 8 or more long and has an uppercase, a lowercase, a digit and a special character; the message is "Contraseña válida" when valid, otherwise the reason of the first rule broken in the order length, uppercase, lowercase, digit, special |
| Validators.ShortPasswordRefusedForLength | src/validators.py:11-12 | a password shorter than 8 is refused with the length message, whatever else it lacks |
| Validators.SamplePasswordAccepted | src/validators.py:9-26 | "Abcd123!" is accepted |
| Validators.WordRunMeaning | src/validators.py:31 | `[a-zA-Z0-9_]{lo,hi}` up to the end accepts exactly the runs of lo to hi word characters |
| Validators.ValidateUsername | src/validators.py:29-34 | valid iff 3 to 20 long, an ASCII letter first and only ASCII letters, digits and '_' after it; the message is the fixed success or rule message accordingly |
| Validators.UsernameMustStartWithLetter | src/validators.py:31 | a username starting with a digit or '_' is refused with the rule message |
| Validators.ValidateUsernameAsWritten | src/validators.py:31 | as written, accepts what the rule accepts and also that followed by one final '\n'; the message is the success message exactly when accepted, the rule message otherwise |
| Validators.UsernameTrailingNewlineAccepted | src/validators.py:31 | as written, "abc\n" is accepted although the rule refuses it |
| Validators.EmailTrailingNewlineAccepted | src/validators.py:5-6 | as written, "a@b.co\n" is accepted although the pattern refuses it |
| Validators.AsWrittenAgreesOnStrippedInput | backend/routes.py:56-75 | on a string that ends in no whitespace, as every caller's `strip()` leaves it, the validators as written and as intended agree |
| Text.Strip | backend/routes.py:279 | `strip()` leaves neither leading nor trailing whitespace |
| Text.StripKeepsMiddle | backend/routes.py:279 | `strip()` drops only whitespace, only at the two ends: s is its result with whitespace before and after it |
| Text.StripBlank | backend/routes.py:279-283 | a string strips to "" exactly when it is all whitespace |
| Text.StripLower | backend/routes.py:56-57 | `strip().lower()` leaves no whitespace at either end |
| Text.StripLowerMiddle | backend/routes.py:56-57 | `strip().lower()` is as long as `strip()`, and each of its characters is the lower-cased character at the same place in the middle of s |
| Text.Lower | src/scrape_w3Schools.py:137 | `lower()` keeps the length and maps each character on its own |
| Text.ReplaceChar | src/scrape_w3Schools.py:137 | `replace(' ', '_')` keeps the length and replaces exactly the matching characters |
| Text.Take | import_lessons.py:67-68 | `s[:n]` is the prefix of length min(n, len(s)) |
| Text.JoinLength | src/scrape_w3Schools.py:70 | a join is as long as its parts plus one separator between each two |
| Firebase.InitialProgress | backend/firebase_service.py:80-84 | a new user's progress has no completed lessons, level "Python Básico" and 0 points, which is consistent |
| Firebase.AfterCompletion | backend/firebase_service.py:288-299 | completing a lesson not yet listed appends it at the end and adds 10 points (a missing total counts as 0); otherwise, or with `completed` false, the progress stays as it was; the lesson is listed afterwards |
| Firebase.CompletionKeepsConsistent | backend/firebase_service.py:289-296 | if the list is duplicate-free with ten points per entry, it still is after an update |
| Firebase.CompletionIdempotent | backend/firebase_service.py:291-299 | completing the same lesson twice equals completing it once |
| Firebase.CompleteAllMeaning | backend/firebase_service.py:289-296 | over any sequence of completions the progress stays consistent, lists exactly the lessons completed so far, and its points never decrease |
| Firebase.FreshUsernameKeepsDistinct | backend/firebase_service.py:76-85 | writing a user document under a fresh id with a username nobody has keeps usernames distinct |
| Firebase.FirstUserNamed | backend/firebase_service.py:140-147 | the `.where(...).limit(1)` lookup finds the lowest id with that username, and finds one whenever one exists |
| Firebase.Insert | backend/firebase_service.py:215 | inserting into a list in `order_by('numero_leccion')` order keeps it ordered and adds exactly that entry |
| Firebase.Query | backend/firebase_service.py:213-220 | the query result is ordered and holds exactly the lessons that have a lesson number and match the category filter, each with its id |
| Firebase.FirebaseService.CreateUser | backend/firebase_service.py:55-92 | succeeds iff the email has no account; then adds the account and the user document with the initial progress under a fresh id and touches no lesson; otherwise "El email ya está registrado" and nothing changes |
| Firebase.FirebaseService.VerifyUser | backend/firebase_service.py:94-127 | succeeds iff the email has an account whose user document exists, returning that document with its uid; otherwise "Email no registrado" or "Usuario no encontrado en la base de datos"; the password is not used |
| Firebase.FirebaseService.VerifyByStoredEmail | backend/auth.py:89-91 | verifying a stored user's own email always returns that user, whatever the password |
| Firebase.FirebaseService.GetUserByUsername | backend/firebase_service.py:129-152 | returns a user with that username (the lowest id), and None iff nobody has it |
| Firebase.FirebaseService.UserExists | backend/firebase_service.py:154-180 | a non-empty username decides by username; otherwise a non-empty email decides by account; neither gives false |
| Firebase.FirebaseService.AddLesson | backend/firebase_service.py:186-200 | stores the lesson under a fresh id unless the store fails, in which case the message carries the error and nothing changes |
| Firebase.FirebaseService.GetLessonsByCategory | backend/firebase_service.py:202-223 | exactly the lessons of that category (that have a lesson number), each with its id, in ascending lesson-number order |
| Firebase.FirebaseService.GetAllLessons | backend/firebase_service.py:225-243 | exactly the lessons that have a lesson number, with their ids, in ascending order |
| Firebase.FirebaseService.GetLessonById | backend/firebase_service.py:245-262 | the lesson with its id when it exists, None otherwise |
| Firebase.FirebaseService.UpdateUserProgress | backend/firebase_service.py:268-302 | an unknown user gets "Usuario no encontrado" and nothing changes; otherwise only that user's progress becomes AfterCompletion of it, with "Progreso actualizado" or, when nothing is awarded, "Sin cambios" and no write |
| Firebase.FirebaseService.GetUserProgress | backend/firebase_service.py:304-321 | the stored progress, or `{}` for an unknown user |
| Auth.LoginByEmail | backend/auth.py:84-86 | an email identifier logs in iff it has an account with a user document, as that user |
| Auth.LoginByUsername | backend/auth.py:88-94 | an unknown username is reported as such; a known one always logs in as a user with that username |
| Auth.ResolveLogin | backend/auth.py:83-94 | an identifier with '@' is verified as an email, any other is looked up as a username; a login found is a stored user |
| Auth.LoginIgnoresPassword | backend/firebase_service.py:109-120 | the outcome of a login does not depend on the password |
| Auth.PasswordChoice | backend/auth.py:46-56 | the password `register` settles on is valid and was typed twice in a row |
| Auth.ReadPassword | backend/auth.py:46-56 | the password loop ends with exactly PasswordChoice of the typed passwords, or None when input ends first |
| Auth.AuthSystem.constructor | backend/auth.py:13-16 | a fresh system is logged out |
| Auth.AuthSystem.Answer | backend/auth.py:23-43 | the line a prompt settles on lies at or after where it starts reading |
| Auth.AuthSystem.AnswerAcceptable | backend/auth.py:23-43 | the line a prompt settles on is acceptable: once trimmed and lower-cased, a valid unused username, or a valid email without an account |
| Auth.AuthSystem.AnswerIsFirst | backend/auth.py:23-43 | no acceptable line is skipped: an acceptable line means the prompt settles on it or on an earlier one |
| Auth.AuthSystem.Ask | backend/auth.py:23-43 | one retry loop returns the trimmed, lower-cased line at Answer and the position after it, or nothing when input ends |
| Auth.AuthSystem.AcceptedUsernameUnused | backend/auth.py:25-30 | a line accepted at the username prompt names no stored user |
| Auth.AuthSystem.AnsweredEmailUnregistered | backend/auth.py:35-43 | the email the email prompt settles on has no account |
| Auth.AuthSystem.Prompts | backend/auth.py:23-43 | the username and email loops together yield the two answers, the email read after the username; the username is unused and the email has no account |
| Auth.AuthSystem.Register | backend/auth.py:18-68 | once both prompts and the password loop finish, the user is always registered; a registration stores exactly the prompts' answers, with the initial progress, under a fresh id, adds their email's account under that id and advances the id counter; when input ends first nothing is created; lessons and the session fields never change; distinct usernames stay distinct |
| Auth.AuthSystem.Enrol | backend/auth.py:58-68 | `create_user` succeeds iff the email has no account, and then adds exactly that user and that account under a fresh id; otherwise users, accounts and the id counter stay as they were; lessons never change |
| Auth.AuthSystem.Login | backend/auth.py:70-104 | succeeds iff ResolveLogin finds a user, and then sets the two fields to that user's name and uid, so is_logged_in holds; otherwise they are unchanged |
| Auth.AuthSystem.IsLoggedIn | backend/auth.py:115-117 | a user is logged in exactly when the current user is set |
| Auth.AuthSystem.Logout | backend/auth.py:106-113 | when a non-empty user name is set, clears both fields so that is_logged_in is false; otherwise changes nothing |
| Routes.Session.Active | backend/routes.py:21 | a session is active when it holds a user id, as `login_required` tests |
| Routes.Field | backend/routes.py:56-58 | `data.get(key, '')` |
| Routes.Unauthorized | backend/routes.py:17-27 | the `login_required` reply is 401 and unsuccessful |
| Routes.FirstFailing | backend/routes.py:60-88 | the check reported is failed and every check made before it passes; none is reported iff all pass |
| Routes.RegisterRefusal | backend/routes.py:46-88 | a missing body is refused with "No se recibieron datos"; otherwise the refusal is the message of the first failing check, on the trimmed, lower-cased username and email and the raw password |
| Routes.AcceptedRegistration | backend/routes.py:60-88 | a body that passes every check names a valid unused username, a valid email without an account and a valid password |
| Routes.AllChecksPassed | backend/routes.py:60-88 | passing all five checks means exactly those facts |
| Routes.CreateAndSignIn | backend/routes.py:90-106 | creates the user and their account under a fresh id, advances the id counter, leaves the lessons alone, writes both session keys and answers 201 with the user |
| Routes.Register | backend/routes.py:34-108 | a refused body gets 400 with the refusal and changes neither store nor session; an accepted one is stored with its account under a fresh id, lessons untouched, signed in and answered 201; usernames stay distinct |
| Routes.Login | backend/routes.py:117-170 | a missing body gets 400; an unknown username 404; a refused email 401 with the store's message; otherwise 200 with the user, and the session names that user; only success touches the session |
| Routes.Logout | backend/routes.py:179-189 | without a session 401; otherwise the whole session is cleared and the goodbye names the session's username, or "Usuario" |
| Routes.Me | backend/routes.py:192-209 | without a session 401; otherwise 200 with the session's id and name and that user's progress |
| Routes.GetLessons | backend/routes.py:216-236 | without a session 401; otherwise 200 with the ordered lessons, filtered by category when a non-empty one is given, and their count |
| Routes.GetLesson | backend/routes.py:239-254 | without a session 401; otherwise 200 with the lesson, or 404 "Lección no encontrada" |
| Routes.GetCategories | backend/routes.py:257-266 | without a session 401; otherwise 200 with the three levels in order |
| Routes.GetProgress | backend/routes.py:311-321 | without a session 401; otherwise 200 with the user's progress, `{}` for an unknown user |
| Routes.Search | backend/routes.py:269-293 | without a session 401; an empty or whitespace-only query is refused with 400; otherwise the trimmed query goes to the advanced search iff the trimmed category is non-empty or a difficulty is given |
| Routes.CompleteLesson | backend/routes.py:324-345 | without a session 401; an unknown user gets 400 "Usuario no encontrado"; otherwise 200 with "+10 puntos" and the updated progress, which lists the lesson, even when nothing changed; only that user's progress changes, never accounts, lessons or the id counter |
| ImportLessons.Str | import_lessons.py:66-69 | `str` of a cell: its text, or "nan" for an empty cell |
| ImportLessons.TextOr | import_lessons.py:66-69 | `str(row.get(column, default))`: the default when the column is missing |
| ImportLessons.BuildLesson | import_lessons.py:64-71 | fails iff the lesson number is NaN; otherwise the number defaults to index + 1, the title to "Sin título" and the category to "Python Básico", the description and code are cut to their first 500 and 1000 characters, and the url is "" when missing or NaN |
| ImportLessons.Stop | import_lessons.py:63-87 | the loop runs up to the first row whose record cannot be built, and every row before it builds |
| ImportLessons.Stored | import_lessons.py:63-81 | the first n rows store at most n records |
| ImportLessons.StoredCount | import_lessons.py:74-81 | every row reached is either stored or counted as a failed `add_lesson`, never both |
| ImportLessons.StoredNumbered | import_lessons.py:64-71 | every stored record has a lesson number and a category |
| ImportLessons.StoredStep | import_lessons.py:74-81 | a row adds its record to the stored ones exactly when its `add_lesson` succeeds |
| ImportLessons.AppendedStep | import_lessons.py:74 | one more successful `add_lesson` extends the stored records by one, under the next id |
| ImportLessons.ImportRow | import_lessons.py:63-81 | one row: ends the file iff its record cannot be built; otherwise adds it and counts it exactly when `add_lesson` succeeds |
| ImportLessons.ImportLessonsFromCsv | import_lessons.py:10-92 | nothing happens for a missing file; otherwise `total_imported` is the number of records stored from the rows before the first one that cannot be built, and the lessons collection gains exactly those records, in row order, under fresh ids; users and accounts are untouched |
| ImportLessons.Bump | import_lessons.py:110-111 | counting one lesson adds 1 to its category's count (a new category enters with 1) and to the total, and keeps keys distinct |
| ImportLessons.TallyMeaning | import_lessons.py:108-111 | the tally has one entry per category met, each count is the number of lessons in that category (lessons without one under "Sin categoría"), and the counts sum to the number of lessons |
| ImportLessons.VerifyImport | import_lessons.py:95-122 | the total is the number of lessons `get_all_lessons` returns, and the per-category counts are its tally |
| Scraper.BuildUrl | src/scrape_w3Schools.py:47-54 | an href starting with "http" is kept, one starting with "/" gets the site prepended, any other gets the site and "/python/"; the URL always ends with the href |
| Scraper.CategoryFor | src/scrape_w3Schools.py:83 | positions 1 to 20 are "Python Básico", 21 to 50 "Python Intermedio", later ones "Python Avanzado" |
| Scraper.CategoryMonotone | src/scrape_w3Schools.py:83 | a later lesson is never at an easier level |
| Scraper.Description | src/scrape_w3Schools.py:69-81 | the first five texts joined by newlines, cut to at most 500 characters, a prefix of that join, and all of it when it fits |
| Scraper.Code | src/scrape_w3Schools.py:73-82 | the first three code blocks joined by "\n---\n", cut to at most 1000 characters, a prefix of that join; "" when there are none |
| Scraper.DescriptionUncut | src/scrape_w3Schools.py:70-81 | texts short enough reach the description uncut |
| Scraper.CodeUncut | src/scrape_w3Schools.py:74-82 | code short enough reaches the examples uncut |
| Scraper.LessonAt | src/scrape_w3Schools.py:41-84 | a link yields a lesson only with a non-empty href whose page was fetched; that lesson carries the position, the title, the built URL, the level of the position and cut texts |
| Scraper.LessonAtMeaning | src/scrape_w3Schools.py:44-82 | a link yields a lesson iff its href is non-empty, its page was fetched and has a main section; the lesson's description and code are Description and Code of that section |
| Scraper.ScrapedNumbering | src/scrape_w3Schools.py:40-78 | the lessons are numbered by link position, from 1 to n and strictly increasing |
| Scraper.ScrapedFromLinks | src/scrape_w3Schools.py:40-84 | every lesson collected is the one its own link yields |
| Scraper.ScrapedComplete | src/scrape_w3Schools.py:40-84 | every lesson a link yields is collected |
| Scraper.ExtractLessons | src/scrape_w3Schools.py:8-114 | None iff the menu is missing or no link yields a lesson (the summary's column selection on an empty DataFrame raises and is caught); otherwise the lessons of the links in order |
| Scraper.FileName | src/scrape_w3Schools.py:137 | "datos_curso/python_" + the level with spaces turned into '_', lower-cased, + ".csv", with no space left in the middle part |
| Scraper.LevelFileNames | src/scrape_w3Schools.py:135-137 | different levels get different files |
| Scraper.Unique | src/scrape_w3Schools.py:135 | `unique()` keeps each value once and loses none |
| Scraper.Categories | src/scrape_w3Schools.py:135 | the `categoria` column, row by row |
| Scraper.OfCategory | src/scrape_w3Schools.py:136 | the rows of exactly that level |
| Scraper.OfCategoryCounts | src/scrape_w3Schools.py:136 | every row of the level is kept as often as it occurs, and rows of other levels not at all |
| Scraper.OfCategoryKeepsOrder | src/scrape_w3Schools.py:136 | the filter keeps row order: filtering two stretches one after the other is filtering the whole |
| Scraper.Filed | src/scrape_w3Schools.py:135-138 | one file per level |
| Scraper.FiledMeaning | src/scrape_w3Schools.py:135-138 | file k is level k's file name with exactly that level's rows |
| Scraper.CreateCourseStructure | src/scrape_w3Schools.py:117-139 | nothing for a missing or empty course; otherwise one file per level present, each level once, with exactly that level's rows |
| Scraper.EachLessonFiledOnce | src/scrape_w3Schools.py:135-138 | every lesson lands in its own level's file and in no other |

## Left out

- backend/validators.py is not part of this model. The validators of src/validators.py stand in for it.
- Validators.ValidatePassword: `\d` is taken as the ASCII digits. Python's `\d` on `str` also matches other Unicode decimal digits.
- Text.Lower: only ASCII letters are lower-cased. Python's `lower()` also maps other Unicode letters.
- Firestore's random string document ids are natural numbers from a counter. The `created_at` server timestamp is not stored.
- The `except Exception` branches of the store are not modelled, except for `add_lesson`'s. Firestore or Authentication errors are outside the model, and so are the "Error al ..." messages and the empty results they produce.
- Firebase.FirebaseService.CreateUser: Authentication's own checks of the email and the password are not modelled. Only an existing email is refused.
- Routes.Register: its checks already refuse an email that has an account, so the 400 for a failed `create_user` cannot happen in this sequential model.
- The 500 replies of `register` and `login` are not modelled. They answer exceptions, such as a JSON field that is not a string; request fields are modelled as strings.
- Concurrency is not modelled. In particular, the unlocked read-modify-write in `update_user_progress` is treated as sequential.
- `search_lessons` and `search_lessons_advanced` are called by `search` but not defined in the repository's service. Routes.Search models which one is called, not their results.
- `health_check` is not modelled: it is a constant reply.
- Also not modelled: the console menus of backend/auth.py, import_lessons.py and src/scrape_w3Schools.py, the getters `get_current_user_id` and `get_current_username` (the model reads the fields directly), and `clear_all_lessons` (a confirmation prompt, then one delete per lesson).
- All printing is left out. That includes verify_import's list of the first five lessons and the groupby summary of `crear_estructura_curso`.
- Also left out: `time.sleep`, the data directory setup and the copy from uploads in import_lessons.py, and the CSV writes. Scraper.CreateCourseStructure returns the files it would write.
- ImportLessons.BuildLesson: a lesson-number cell is an integer or NaN. A fractional number, which `int()` would truncate, is not modelled. Neither is pandas' type inference for the text columns.
- ImportLessons.ImportLessonsFromCsv: the file's existence check and a read error both appear as the file being None.
- Scraper.ExtractLessons: fetching and parsing are replaced by the map of fetched pages. The text that BeautifulSoup's `get_text(strip=True)` extracts is taken as given. A failure after the loop other than the empty course, for example while writing the CSV, is not modelled.
- Auth.AuthSystem.Register: the end of input, where `input()` or `getpass()` raises EOFError, is the InputEnded outcome. The lines typed at `input()` and at `getpass()` are two separate sequences.
- Email addresses are compared as the strings stored. Authentication's case-insensitive matching is not modelled.
- Flask's session holds only the two keys the handlers write. Cookie signing is not modelled.

## Findings

| source | as written | input that shows it | evidently intended | confidence | as-written member | corrected member |
|---|---|---|---|---|---|---|
| src/validators.py:31 | `re.match` with `$` also matches just before a final newline, so a username followed by '\n' passes | "abc\n" | a username made only of letters, digits and '_' (`\Z` or `re.fullmatch`) | not executed; follows from Python's documented `$` semantics. No caller is affected, since each strips its input first (Validators.AsWrittenAgreesOnStrippedInput) | Validators.UsernameTrailingNewlineAccepted | Validators.ValidateUsername |
| src/validators.py:5-6 | the same `$` lets an email followed by '\n' pass | "a@b.co\n" | the email pattern matching the whole string | not executed; follows from Python's documented `$` semantics. No caller is affected, since each strips its input first (Validators.AsWrittenAgreesOnStrippedInput) | Validators.EmailTrailingNewlineAccepted | Validators.ValidateEmail |
