/** import_lessons.py: loading the scraped lessons from the CSV file into the
    `lessons` collection, and the per-category tally that checks the result.
    The CSV file is given as the rows pandas reads from it. */
module ImportLessons {
  import opened Wrappers
  import Text
  import Config
  import opened Firebase

  // ---------------------------------------------------------------------
  // Rows and lesson records
  // ---------------------------------------------------------------------

  /** A text cell: pandas reads an empty field as NaN. */
  datatype Cell = Text(s: string) | NaN

  /** A cell of the numeric `numero_leccion` column. */
  datatype NumberCell = Number(n: int) | NumberNaN

  /** One row; a column the file does not have is None. */
  datatype Row = Row(
    numero: Option<NumberCell>,
    titulo: Option<Cell>,
    descripcion: Option<Cell>,
    ejemplos: Option<Cell>,
    categoria: Option<Cell>,
    url: Option<Cell>)

  /** `str(cell)`: NaN prints as "nan". */
  function Str(c: Cell): (s: string)
    ensures c.NaN? ==> s == "nan"
    ensures c.Text? ==> s == c.s
  {
    match c
    case Text(s) => s
    case NaN => "nan"
  }

  /** `str(row.get(column, default))` */
  function TextOr(c: Option<Cell>, default: string): (s: string)
    ensures c.None? ==> s == default
    ensures c.Some? ==> s == Str(c.value)
  {
    match c
    case None => default
    case Some(cell) => Str(cell)
  }

  const DescriptionLimit := 500
  const CodeLimit := 1000

  /** The `lesson_data` record built from the row at position `index`.
      `int()` of a NaN lesson number raises, which is the only way this
      fails. */
  function BuildLesson(row: Row, index: nat): (r: Result<LessonDoc>)
    ensures r.Err? <==> !Buildable(row)
    ensures r.Ok? ==> r.value.numero == Some(if row.numero.None? then index + 1 else row.numero.value.n)
    ensures r.Ok? ==> r.value.titulo == TextOr(row.titulo, "Sin título")
    ensures r.Ok? ==>
              var d := TextOr(row.descripcion, "");
              && |r.value.descripcion| == (if |d| <= DescriptionLimit then |d| else DescriptionLimit)
              && r.value.descripcion == d[..|r.value.descripcion|]
    ensures r.Ok? ==>
              var e := TextOr(row.ejemplos, "");
              && |r.value.ejemplos| == (if |e| <= CodeLimit then |e| else CodeLimit)
              && r.value.ejemplos == e[..|r.value.ejemplos|]
    ensures r.Ok? ==> r.value.categoria == Some(TextOr(row.categoria, Config.Basic))
    ensures r.Ok? ==> r.value.url == (if row.url.Some? && row.url.value.Text? then row.url.value.s else "")
  {
    match row.numero
    case Some(NumberNaN) => Err("cannot convert float NaN to integer")
    case Some(Number(n)) => Ok(Record(row, n))
    case None => Ok(Record(row, index + 1))
  }

  /** The record of a row once its lesson number is known. */
  function Record(row: Row, numero: int): LessonDoc {
    var url := match row.url
      case Some(Text(s)) => s
      case _ => "";
    LessonDoc(
      Some(numero),
      TextOr(row.titulo, "Sin título"),
      Text.Take(TextOr(row.descripcion, ""), DescriptionLimit),
      Text.Take(TextOr(row.ejemplos, ""), CodeLimit),
      Some(TextOr(row.categoria, Config.Basic)),
      url)
  }

  // ---------------------------------------------------------------------
  // import_lessons_from_csv
  // ---------------------------------------------------------------------

  /** The row's record can be built: its lesson number is not NaN. */
  predicate Buildable(row: Row) {
    row.numero != Some(NumberNaN)
  }

  /** Every one of the first n rows builds a record. */
  predicate AllBuild(rows: seq<Row>, n: nat)
    requires n <= |rows|
  {
    forall i :: 0 <= i < n ==> Buildable(rows[i])
  }

  /** The position of the first row whose record cannot be built (where the
      exception ends the file), or |rows|. */
  function Stop(rows: seq<Row>, from: nat): (k: nat)
    requires from <= |rows| && AllBuild(rows, from)
    ensures from <= k <= |rows| && AllBuild(rows, k)
    ensures k < |rows| ==> !Buildable(rows[k])
    decreases |rows| - from
  {
    if from == |rows| || !Buildable(rows[from]) then from
    else Stop(rows, from + 1)
  }

  /** `add_lesson` for the row at position i fails, with this message, when
      i is in `failures`. */
  function Fault(failures: map<nat, string>, i: nat): (f: Option<string>)
    ensures f.Some? <==> i in failures
  {
    if i in failures then Some(failures[i]) else None
  }

  /** The records the first n rows put in the store, in order: each row's
      record unless its `add_lesson` failed. */
  function Stored(rows: seq<Row>, failures: map<nat, string>, n: nat): (s: seq<LessonDoc>)
    requires n <= |rows| && AllBuild(rows, n)
    ensures |s| <= n
  {
    if n == 0 then []
    else
      var before := Stored(rows, failures, n - 1);
      if n - 1 in failures then before else before + [BuildLesson(rows[n - 1], n - 1).value]
  }

  /** How many of the first n positions have a failing `add_lesson`. */
  function FailedCount(failures: map<nat, string>, n: nat): nat {
    if n == 0 then 0 else FailedCount(failures, n - 1) + (if n - 1 in failures then 1 else 0)
  }

  /** Every row reached is stored or counted as failed, never both. */
  lemma {:induction false} StoredCount(rows: seq<Row>, failures: map<nat, string>, n: nat)
    requires n <= |rows| && AllBuild(rows, n)
    ensures |Stored(rows, failures, n)| + FailedCount(failures, n) == n
  {
    if n > 0 {
      StoredCount(rows, failures, n - 1);
    }
  }

  /** Every stored record has a lesson number and a category. */
  lemma {:induction false} StoredNumbered(rows: seq<Row>, failures: map<nat, string>, n: nat)
    requires n <= |rows| && AllBuild(rows, n)
    ensures forall d :: d in Stored(rows, failures, n) ==> d.numero.Some? && d.categoria.Some?
  {
    if n > 0 {
      StoredNumbered(rows, failures, n - 1);
    }
  }

  /** `after` is `before` with the records `added` stored, in order, under
      the fresh ids start, start + 1, ... */
  ghost predicate Appended(before: map<DocId, LessonDoc>, start: DocId, after: map<DocId, LessonDoc>, added: seq<LessonDoc>) {
    && (forall id :: id in after <==> id in before || start <= id < start + |added|)
    && (forall id :: id in before ==> after[id] == before[id])
    && (forall k :: 0 <= k < |added| ==> after[start + k] == added[k])
  }

  lemma AppendedStep(before: map<DocId, LessonDoc>, start: DocId, after: map<DocId, LessonDoc>, added: seq<LessonDoc>, d: LessonDoc)
    requires forall id :: id in before ==> id < start
    requires Appended(before, start, after, added)
    ensures Appended(before, start, after[start + |added| := d], added + [d])
  {
  }

  /** import_lessons_from_csv for the one CSV file it reads: `file` is None
      when the file is missing or cannot be read. Rows are added one by one;
      the counter goes up exactly when `add_lesson` succeeds, and a row whose
      lesson number is NaN ends the file. */
  method ImportLessonsFromCsv(svc: FirebaseService, file: Option<seq<Row>>, failures: map<nat, string>)
    returns (totalImported: nat)
    requires svc.Valid()
    modifies svc
    ensures svc.Valid()
    ensures svc.users == old(svc.users) && svc.accounts == old(svc.accounts)
    ensures file.None? ==> totalImported == 0 && unchanged(svc)
    ensures file.Some? ==>
              var stored := Stored(file.value, failures, Stop(file.value, 0));
              && totalImported == |stored|
              && svc.nextId == old(svc.nextId) + totalImported
              && Appended(old(svc.lessons), old(svc.nextId), svc.lessons, stored)
  {
    totalImported := 0;
    if file.None? {
      return;
    }
    var rows := file.value;
    ghost var before, start, stop := svc.lessons, svc.nextId, Stop(rows, 0);
    assert forall id :: id in before ==> id < start;
    var i := 0;
    ghost var stored: seq<LessonDoc> := [];
    while i < |rows|
      invariant 0 <= i <= stop && AllBuild(rows, i)
      invariant svc.Valid()
      invariant svc.users == old(svc.users) && svc.accounts == old(svc.accounts)
      invariant stored == Stored(rows, failures, i)
      invariant totalImported == |stored|
      invariant svc.nextId == start + totalImported
      invariant Appended(before, start, svc.lessons, stored)
    {
      var ended;
      ended, totalImported, stored := ImportRow(svc, rows, failures, i, before, start, totalImported, stored);
      if ended {
        break;
      }
      i := i + 1;
    }
    assert i == stop;
  }

  /** One pass of the loop: build row i's record and add it. `ended` says
      the build raised, which ends the file with nothing added. */
  method ImportRow(svc: FirebaseService, rows: seq<Row>, failures: map<nat, string>, i: nat,
                   ghost before: map<DocId, LessonDoc>, ghost start: DocId, count: nat, ghost stored: seq<LessonDoc>)
    returns (ended: bool, total: nat, ghost now: seq<LessonDoc>)
    requires i < |rows| && AllBuild(rows, i)
    requires svc.Valid()
    requires forall id :: id in before ==> id < start
    requires stored == Stored(rows, failures, i) && count == |stored| && svc.nextId == start + count
    requires Appended(before, start, svc.lessons, stored)
    modifies svc
    ensures svc.Valid()
    ensures svc.users == old(svc.users) && svc.accounts == old(svc.accounts)
    ensures ended <==> !Buildable(rows[i])
    ensures ended ==> total == count && now == stored && svc.nextId == old(svc.nextId) && svc.lessons == old(svc.lessons)
    ensures !ended ==> AllBuild(rows, i + 1) && now == Stored(rows, failures, i + 1)
    ensures total == |now| && svc.nextId == start + total
    ensures Appended(before, start, svc.lessons, now)
  {
    var built := BuildLesson(rows[i], i);
    if built.Err? {
      return true, count, stored;
    }
    assert AllBuild(rows, i + 1);
    StoredStep(rows, failures, i);
    AppendedStep(before, start, svc.lessons, stored, built.value);
    var success, message, id := svc.AddLesson(built.value, Fault(failures, i));
    ended := false;
    if success {
      total, now := count + 1, stored + [built.value];
    } else {
      total, now := count, stored;
    }
  }

  /** The records of the first i + 1 rows: those of the first i, and row i's
      unless its `add_lesson` fails. */
  lemma StoredStep(rows: seq<Row>, failures: map<nat, string>, i: nat)
    requires i < |rows| && AllBuild(rows, i + 1)
    ensures Stored(rows, failures, i + 1) ==
              if i in failures then Stored(rows, failures, i)
              else Stored(rows, failures, i) + [BuildLesson(rows[i], i).value]
  {
  }

  // ---------------------------------------------------------------------
  // verify_import
  // ---------------------------------------------------------------------

  /** A dict from category to count, in insertion order. */
  type Tally = seq<(string, nat)>

  const NoCategory := "Sin categoría"

  /** `lesson.get('categoria', 'Sin categoría')` */
  function CategoryOf(e: LessonEntry): string {
    e.doc.categoria.GetOr(NoCategory)
  }

  /** `categories.get(cat, 0)` */
  function Lookup(t: Tally, key: string): nat {
    if t == [] then 0 else if t[0].0 == key then t[0].1 else Lookup(t[1..], key)
  }

  predicate HasKey(t: Tally, key: string) {
    exists i :: 0 <= i < |t| && t[i].0 == key
  }

  predicate DistinctKeys(t: Tally) {
    forall i, j :: 0 <= i < j < |t| ==> t[i].0 != t[j].0
  }

  function Total(t: Tally): nat {
    if t == [] then 0 else t[0].1 + Total(t[1..])
  }

  /** `categories[cat] = categories.get(cat, 0) + 1`: the count of an
      existing key goes up in place, a new key goes at the end with 1. */
  function Bump(t: Tally, key: string): (r: Tally)
    ensures Total(r) == Total(t) + 1
    ensures forall k :: Lookup(r, k) == Lookup(t, k) + (if k == key then 1 else 0)
    ensures forall k :: HasKey(r, k) <==> HasKey(t, k) || k == key
    ensures DistinctKeys(t) ==> DistinctKeys(r)
  {
    if t == [] then [(key, 1)]
    else if t[0].0 == key then [(key, t[0].1 + 1)] + t[1..]
    else
      var rest := Bump(t[1..], key);
      assert forall k :: HasKey(t, k) <==> t[0].0 == k || HasKey(t[1..], k) by {
        forall k ensures HasKey(t, k) ==> t[0].0 == k || HasKey(t[1..], k) {
          if HasKey(t, k) {
            var i :| 0 <= i < |t| && t[i].0 == k;
            if i > 0 {
              assert t[1..][i - 1].0 == k;
            }
          }
        }
      }
      assert forall k :: HasKey([t[0]] + rest, k) <==> t[0].0 == k || HasKey(rest, k) by {
        forall k ensures HasKey([t[0]] + rest, k) ==> t[0].0 == k || HasKey(rest, k) {
          if HasKey([t[0]] + rest, k) {
            var i :| 0 <= i < |[t[0]] + rest| && ([t[0]] + rest)[i].0 == k;
            if i > 0 {
              assert rest[i - 1].0 == k;
            }
          }
        }
        forall k | HasKey(rest, k) ensures HasKey([t[0]] + rest, k) {
          var i :| 0 <= i < |rest| && rest[i].0 == k;
          assert ([t[0]] + rest)[i + 1].0 == k;
        }
        assert ([t[0]] + rest)[0].0 == t[0].0;
      }
      assert DistinctKeys(t) ==> DistinctKeys([t[0]] + rest) by {
        if DistinctKeys(t) {
          assert DistinctKeys(t[1..]);
          assert !HasKey(t[1..], t[0].0);
          forall i, j | 0 <= i < j < |[t[0]] + rest| ensures ([t[0]] + rest)[i].0 != ([t[0]] + rest)[j].0 {
            if i == 0 {
              assert rest[j - 1].0 == ([t[0]] + rest)[j].0;
            }
          }
        }
      }
      [t[0]] + rest
  }

  /** The tally after counting `lessons` in order, from an empty dict. */
  function TallyOf(lessons: seq<LessonEntry>): Tally {
    if lessons == [] then [] else Bump(TallyOf(lessons[..|lessons| - 1]), CategoryOf(lessons[|lessons| - 1]))
  }

  /** How many of `lessons` are in category c. */
  function Occurrences(lessons: seq<LessonEntry>, c: string): nat {
    if lessons == [] then 0
    else Occurrences(lessons[..|lessons| - 1], c) + (if CategoryOf(lessons[|lessons| - 1]) == c then 1 else 0)
  }

  /** The tally has one entry per category met, counts every lesson once,
      and each count is the number of lessons in that category. */
  lemma {:induction false} TallyMeaning(lessons: seq<LessonEntry>)
    ensures DistinctKeys(TallyOf(lessons))
    ensures Total(TallyOf(lessons)) == |lessons|
    ensures forall c :: Lookup(TallyOf(lessons), c) == Occurrences(lessons, c)
    ensures forall c :: HasKey(TallyOf(lessons), c) <==> exists i :: 0 <= i < |lessons| && CategoryOf(lessons[i]) == c
  {
    if lessons != [] {
      var init := lessons[..|lessons| - 1];
      TallyMeaning(init);
      forall c ensures HasKey(TallyOf(lessons), c) <==> exists i :: 0 <= i < |lessons| && CategoryOf(lessons[i]) == c {
        if exists i :: 0 <= i < |lessons| && CategoryOf(lessons[i]) == c {
          var i :| 0 <= i < |lessons| && CategoryOf(lessons[i]) == c;
          if i < |init| {
            assert CategoryOf(init[i]) == c;
          }
        }
        if HasKey(TallyOf(init), c) {
          var i :| 0 <= i < |init| && CategoryOf(init[i]) == c;
          assert CategoryOf(lessons[i]) == c;
        }
      }
    }
  }

  /** verify_import: the number of lessons `get_all_lessons` returns, and
      the per-category counts, in the order the categories first appear. */
  method VerifyImport(svc: FirebaseService) returns (total: nat, categories: Tally)
    requires svc.Valid()
    ensures total == |svc.GetAllLessons()|
    ensures categories == TallyOf(svc.GetAllLessons())
    ensures DistinctKeys(categories) && Total(categories) == total
    ensures forall c :: Lookup(categories, c) == Occurrences(svc.GetAllLessons(), c)
  {
    var lessons := svc.GetAllLessons();
    total := |lessons|;
    categories := [];
    var i := 0;
    while i < |lessons|
      invariant 0 <= i <= |lessons|
      invariant categories == TallyOf(lessons[..i])
    {
      assert lessons[..i + 1][..i] == lessons[..i];
      categories := Bump(categories, CategoryOf(lessons[i]));
      i := i + 1;
    }
    assert lessons[..i] == lessons;
    TallyMeaning(lessons);
  }
}
