/** src/scrape_w3Schools.py: building the course from the W3Schools Python
    tutorial. The network is a parameter: the navigation menu's links, and
    the pages that can be fetched, by URL, each with the texts and code
    blocks of its main section (as BeautifulSoup's stripped `get_text`
    returns them). */
module Scraper {
  import opened Wrappers
  import Text
  import Config

  const BaseUrl := "https://www.w3schools.com"

  /** An `<a>` of the menu: its text and its `href` attribute, if any. */
  datatype Link = Link(title: string, href: Option<string>)

  /** The `div#main` of a lesson page: its first headings and paragraphs
      (`p`, `h1`, `h2`, `h3`, in document order) and its `div.w3-code` blocks. */
  datatype Main = Main(texts: seq<string>, codes: seq<string>)

  /** A fetched page; `main` is None when it has no `div#main`. */
  datatype Page = Page(main: Option<Main>)

  /** A row of `datos_curso`. */
  datatype Lesson = Lesson(numero: nat, titulo: string, url: string, descripcion: string, ejemplos: string, categoria: string)

  // ---------------------------------------------------------------------
  // The pieces of a lesson
  // ---------------------------------------------------------------------

  /** The full URL of an href: absolute ones are kept, site-relative ones
      get the site prepended, and the rest are taken relative to /python/. */
  function BuildUrl(href: string): (url: string)
    ensures Text.StartsWith(url, "http") && Text.EndsWith(url, href)
    ensures Text.StartsWith(href, "http") ==> url == href
    ensures !Text.StartsWith(href, "http") && Text.StartsWith(href, "/") ==> url == BaseUrl + href
    ensures !Text.StartsWith(href, "http") && !Text.StartsWith(href, "/") ==> url == BaseUrl + "/python/" + href
  {
    if Text.StartsWith(href, "http") then href
    else if Text.StartsWith(href, "/") then BaseUrl + href
    else BaseUrl + "/python/" + href
  }

  /** The level of the lesson at 1-based position idx: the first 20 are
      basic, up to 50 intermediate, the rest advanced. */
  function CategoryFor(idx: nat): (c: string)
    ensures c in Config.LessonCategories
    ensures c == Config.Basic <==> idx <= 20
    ensures c == Config.Intermediate <==> 20 < idx <= 50
    ensures c == Config.Advanced <==> 50 < idx
  {
    if idx <= 20 then Config.Basic else if idx <= 50 then Config.Intermediate else Config.Advanced
  }

  /** Position of a level in Config.LESSON_CATEGORIES. */
  function Level(c: string): nat {
    if c == Config.Basic then 0 else if c == Config.Intermediate then 1 else 2
  }

  /** Later lessons never belong to an easier level. */
  lemma CategoryMonotone(i: nat, j: nat)
    requires i <= j
    ensures Level(CategoryFor(i)) <= Level(CategoryFor(j))
  {
  }

  const DescriptionLimit := 500
  const CodeLimit := 1000
  const CodeSeparator := "\n---\n"

  /** The first five texts, one per line, cut to 500 characters. */
  function Description(texts: seq<string>): (d: string)
    ensures var joined := Text.Join(Text.Take(texts, 5), "\n");
            && |d| <= DescriptionLimit && |d| <= |joined| && d == joined[..|d|]
            && (|joined| <= DescriptionLimit ==> d == joined)
  {
    Text.Take(Text.Join(Text.Take(texts, 5), "\n"), DescriptionLimit)
  }

  /** The first three code blocks separated by "---" lines, cut to 1000
      characters; "" when there are none. */
  function Code(codes: seq<string>): (c: string)
    ensures var joined := Text.Join(Text.Take(codes, 3), CodeSeparator);
            && |c| <= CodeLimit && |c| <= |joined| && c == joined[..|c|]
            && (|joined| <= CodeLimit ==> c == joined)
    ensures codes == [] ==> c == ""
  {
    var joined := Text.Join(Text.Take(codes, 3), CodeSeparator);
    if joined != "" then Text.Take(joined, CodeLimit) else ""
  }

  /** Short enough texts reach the description uncut. */
  lemma DescriptionUncut(texts: seq<string>)
    requires Text.TotalLength(Text.Take(texts, 5)) <= DescriptionLimit - 4
    ensures Description(texts) == Text.Join(Text.Take(texts, 5), "\n")
  {
    Text.JoinLength(Text.Take(texts, 5), "\n");
  }

  /** Short enough code blocks reach the examples uncut. */
  lemma CodeUncut(codes: seq<string>)
    requires Text.TotalLength(Text.Take(codes, 3)) <= CodeLimit - 2 * |CodeSeparator|
    ensures Code(codes) == Text.Join(Text.Take(codes, 3), CodeSeparator)
  {
    Text.JoinLength(Text.Take(codes, 3), CodeSeparator);
  }

  // ---------------------------------------------------------------------
  // The loop over the menu's links
  // ---------------------------------------------------------------------

  /** What the link at 1-based position idx adds to `datos_curso`: nothing
      when its href is missing or empty, when the request fails (the URL is
      not among `pages`), or when the page has no main section. */
  function LessonAt(link: Link, idx: nat, pages: map<string, Page>): (r: Option<Lesson>)
    ensures r.Some? ==> link.href.Some? && link.href.value != ""
    ensures r.Some? ==>
              && r.value.numero == idx && r.value.titulo == link.title
              && r.value.url == BuildUrl(link.href.value) && r.value.url in pages
              && r.value.categoria == CategoryFor(idx)
              && |r.value.descripcion| <= DescriptionLimit && |r.value.ejemplos| <= CodeLimit
  {
    if link.href.None? || link.href.value == "" then None
    else
      var url := BuildUrl(link.href.value);
      if url !in pages then None
      else
        match pages[url].main
        case None => None
        case Some(main) => Some(Lesson(idx, link.title, url, Description(main.texts), Code(main.codes), CategoryFor(idx)))
  }

  /** A link yields a lesson exactly when its href is non-empty and its page
      was fetched and has a main section; the lesson's texts are that
      section's cut description and code. */
  lemma LessonAtMeaning(link: Link, idx: nat, pages: map<string, Page>)
    ensures LessonAt(link, idx, pages).Some? <==>
              && link.href.Some? && link.href.value != ""
              && BuildUrl(link.href.value) in pages
              && pages[BuildUrl(link.href.value)].main.Some?
    ensures LessonAt(link, idx, pages).Some? ==>
              var main := pages[BuildUrl(link.href.value)].main.value;
              && LessonAt(link, idx, pages).value.descripcion == Description(main.texts)
              && LessonAt(link, idx, pages).value.ejemplos == Code(main.codes)
  {
  }

  /** `datos_curso` after the first n links. */
  function Scraped(links: seq<Link>, pages: map<string, Page>, n: nat): seq<Lesson>
    requires n <= |links|
  {
    if n == 0 then []
    else
      var before := Scraped(links, pages, n - 1);
      match LessonAt(links[n - 1], n, pages)
      case None => before
      case Some(lesson) => before + [lesson]
  }

  /** Lesson numbers within 1..n, strictly increasing. */
  predicate NumberedUpTo(s: seq<Lesson>, n: nat) {
    && (forall k :: 0 <= k < |s| ==> 1 <= s[k].numero <= n)
    && (forall j, k :: 0 <= j < k < |s| ==> s[j].numero < s[k].numero)
  }

  /** The lessons are numbered by link position: within 1..n and strictly
      increasing, with gaps where links gave nothing. */
  lemma {:induction false} ScrapedNumbering(links: seq<Link>, pages: map<string, Page>, n: nat)
    requires n <= |links|
    ensures NumberedUpTo(Scraped(links, pages, n), n)
  {
    if n > 0 {
      ScrapedNumbering(links, pages, n - 1);
      var before := Scraped(links, pages, n - 1);
      match LessonAt(links[n - 1], n, pages)
      case None =>
        NumberedWithin(before, n - 1);
      case Some(next) =>
        NumberedAppend(before, n, next);
    }
  }

  lemma NumberedWithin(s: seq<Lesson>, n: nat)
    requires NumberedUpTo(s, n)
    ensures NumberedUpTo(s, n + 1)
  {
  }

  lemma NumberedAppend(s: seq<Lesson>, n: nat, next: Lesson)
    requires n > 0 && NumberedUpTo(s, n - 1) && next.numero == n
    ensures NumberedUpTo(s + [next], n)
  {
    var t := s + [next];
    assert forall k :: 0 <= k < |s| ==> t[k] == s[k];
  }

  /** l is the lesson that link number l.numero, one of the first n, yields. */
  predicate FromLink(links: seq<Link>, pages: map<string, Page>, n: nat, l: Lesson)
    requires n <= |links|
  {
    1 <= l.numero <= n && LessonAt(links[l.numero - 1], l.numero, pages) == Some(l)
  }

  /** Each lesson is the one its own link yields. */
  lemma {:induction false} ScrapedFromLinks(links: seq<Link>, pages: map<string, Page>, n: nat)
    requires n <= |links|
    ensures forall l :: l in Scraped(links, pages, n) ==> FromLink(links, pages, n, l)
  {
    if n > 0 {
      ScrapedFromLinks(links, pages, n - 1);
      var before := Scraped(links, pages, n - 1);
      match LessonAt(links[n - 1], n, pages)
      case None =>
        assert forall l :: FromLink(links, pages, n - 1, l) ==> FromLink(links, pages, n, l);
      case Some(next) =>
        forall l | l in before + [next]
          ensures FromLink(links, pages, n, l)
        {
          if l != next {
            assert l in before && FromLink(links, pages, n - 1, l);
          }
        }
    }
  }

  /** Nothing is lost: the lesson any of the first n links yields is collected. */
  lemma {:induction false} ScrapedComplete(links: seq<Link>, pages: map<string, Page>, n: nat, i: nat)
    requires i < n <= |links|
    ensures LessonAt(links[i], i + 1, pages).Some? ==> LessonAt(links[i], i + 1, pages).value in Scraped(links, pages, n)
  {
    var before := Scraped(links, pages, n - 1);
    if i < n - 1 {
      ScrapedComplete(links, pages, n - 1, i);
    }
    match LessonAt(links[n - 1], n, pages)
    case None =>
      assert Scraped(links, pages, n) == before;
    case Some(next) =>
      assert Scraped(links, pages, n) == before + [next];
  }

  /** extraer_informacion_w3schools: None when the menu is missing (or the
      tutorial page cannot be fetched), and None as well when no link yields
      a lesson, since the summary then selects columns that an empty
      DataFrame lacks and the KeyError is caught; otherwise the lessons
      collected by walking the menu's links in order. */
  method ExtractLessons(menu: Option<seq<Link>>, pages: map<string, Page>) returns (datos: Option<seq<Lesson>>)
    ensures datos.None? <==> menu.None? || Scraped(menu.value, pages, |menu.value|) == []
    ensures datos.Some? ==> datos.value == Scraped(menu.value, pages, |menu.value|)
  {
    if menu.None? {
      return None;
    }
    var links := menu.value;
    var course: seq<Lesson> := [];
    var idx := 1;
    while idx <= |links|
      invariant 1 <= idx <= |links| + 1
      invariant course == Scraped(links, pages, idx - 1)
    {
      var link := links[idx - 1];
      if link.href.Some? && link.href.value != "" {
        var url := BuildUrl(link.href.value);
        if url in pages && pages[url].main.Some? {
          var main := pages[url].main.value;
          course := course + [Lesson(idx, link.title, url, Description(main.texts), Code(main.codes), CategoryFor(idx))];
        }
      }
      idx := idx + 1;
    }
    if course == [] {
      return None;
    }
    return Some(course);
  }

  // ---------------------------------------------------------------------
  // crear_estructura_curso
  // ---------------------------------------------------------------------

  /** The CSV file of one level: "datos_curso/python_" + the level with its
      spaces turned into underscores, lower-cased, + ".csv". */
  function FileName(categoria: string): (name: string)
    ensures var middle := Text.Lower(Text.ReplaceChar(categoria, ' ', '_'));
            && name == "datos_curso/python_" + middle + ".csv"
            && |middle| == |categoria|
            && ' ' !in middle
    ensures |name| == |categoria| + 23
  {
    "datos_curso/python_" + Text.Lower(Text.ReplaceChar(categoria, ' ', '_')) + ".csv"
  }

  /** Different levels of Config.LESSON_CATEGORIES get different files. */
  lemma LevelFileNames(a: string, b: string)
    requires a in Config.LessonCategories && b in Config.LessonCategories && a != b
    ensures FileName(a) != FileName(b)
  {
    // the three levels, and so their file names, have different lengths
    assert |a| != |b| by {
      assert |Config.Basic| == 13 && |Config.Intermediate| == 17 && |Config.Advanced| == 15;
    }
    FileNamesOfLength(a, b);
  }

  lemma FileNamesOfLength(a: string, b: string)
    requires |a| != |b|
    ensures FileName(a) != FileName(b)
  {
    assert |FileName(a)| != |FileName(b)|;
  }

  /** `df['categoria'].unique()`: each level once, in order of first appearance. */
  function Unique(cats: seq<string>): (u: seq<string>)
    ensures forall c :: c in u <==> c in cats
    ensures forall i, j :: 0 <= i < j < |u| ==> u[i] != u[j]
  {
    if cats == [] then []
    else
      var before := Unique(cats[..|cats| - 1]);
      assert forall c :: c in cats <==> c in cats[..|cats| - 1] || c == cats[|cats| - 1] by {
        assert cats == cats[..|cats| - 1] + [cats[|cats| - 1]];
      }
      if cats[|cats| - 1] in before then before else before + [cats[|cats| - 1]]
  }

  function Categories(lessons: seq<Lesson>): (cats: seq<string>)
    ensures |cats| == |lessons|
    ensures forall i :: 0 <= i < |lessons| ==> cats[i] == lessons[i].categoria
  {
    if lessons == [] then [] else [lessons[0].categoria] + Categories(lessons[1..])
  }

  /** `df[df['categoria'] == categoria]` */
  function OfCategory(lessons: seq<Lesson>, categoria: string): (r: seq<Lesson>)
    ensures forall l :: l in r <==> l in lessons && l.categoria == categoria
  {
    if lessons == [] then []
    else (if lessons[0].categoria == categoria then [lessons[0]] else []) + OfCategory(lessons[1..], categoria)
  }

  /** The filter keeps every row of that level as often as it occurs, and no
      other row. */
  lemma {:induction false} OfCategoryCounts(lessons: seq<Lesson>, categoria: string, l: Lesson)
    ensures multiset(OfCategory(lessons, categoria))[l] == if l.categoria == categoria then multiset(lessons)[l] else 0
  {
    if lessons != [] {
      assert lessons == [lessons[0]] + lessons[1..];
      OfCategoryCounts(lessons[1..], categoria, l);
    }
  }

  /** The filter keeps the rows in their order: filtering two stretches of
      the course one after the other is filtering the whole. */
  lemma {:induction false} OfCategoryKeepsOrder(front: seq<Lesson>, back: seq<Lesson>, categoria: string)
    ensures OfCategory(front + back, categoria) == OfCategory(front, categoria) + OfCategory(back, categoria)
  {
    if front == [] {
      assert front + back == back;
    } else {
      assert (front + back)[0] == front[0] && (front + back)[1..] == front[1..] + back;
      OfCategoryKeepsOrder(front[1..], back, categoria);
    }
  }

  /** The files written for the levels `cats`, in order: each level's file
      name with that level's lessons. */
  function Filed(lessons: seq<Lesson>, cats: seq<string>): (files: seq<(string, seq<Lesson>)>)
    ensures |files| == |cats|
  {
    if cats == [] then []
    else
      var last := cats[|cats| - 1];
      Filed(lessons, cats[..|cats| - 1]) + [(FileName(last), OfCategory(lessons, last))]
  }

  /** Entry k of the files is level k's name and exactly its lessons. */
  lemma {:induction false} FiledMeaning(lessons: seq<Lesson>, cats: seq<string>)
    ensures forall k :: 0 <= k < |cats| ==>
              Filed(lessons, cats)[k] == (FileName(cats[k]), OfCategory(lessons, cats[k]))
  {
    if cats != [] {
      var init := cats[..|cats| - 1];
      FiledMeaning(lessons, init);
      assert forall k :: 0 <= k < |init| ==> Filed(lessons, cats)[k] == Filed(lessons, init)[k];
    }
  }

  /** crear_estructura_curso: one file per level present, in order of first
      appearance; nothing for a missing or empty course. */
  method CreateCourseStructure(df: Option<seq<Lesson>>) returns (files: seq<(string, seq<Lesson>)>)
    ensures df.None? || df.value == [] ==> files == []
    ensures df.Some? ==> files == Filed(df.value, Unique(Categories(df.value)))
  {
    files := [];
    if df.None? || df.value == [] {
      return;
    }
    var lessons := df.value;
    var cats := Unique(Categories(lessons));
    var k := 0;
    while k < |cats|
      invariant 0 <= k <= |cats|
      invariant files == Filed(lessons, cats[..k])
    {
      assert cats[..k + 1][..k] == cats[..k];
      files := files + [(FileName(cats[k]), OfCategory(lessons, cats[k]))];
      k := k + 1;
    }
    assert cats[..k] == cats;
  }

  /** Every lesson of the course lands in exactly one of the level files:
      the one of its own level. */
  lemma EachLessonFiledOnce(lessons: seq<Lesson>, l: Lesson)
    requires l in lessons
    ensures l.categoria in Unique(Categories(lessons))
    ensures l in OfCategory(lessons, l.categoria)
    ensures forall c :: c != l.categoria ==> l !in OfCategory(lessons, c)
  {
    var i :| 0 <= i < |lessons| && lessons[i] == l;
    assert Categories(lessons)[i] == l.categoria;
  }
}
