/** The stand-alone portal scraper: it logs in through a cascade of field
    locators, walks the paginated tray listing collecting one record per grid
    row, and exports the records as a CSV table for the sync to read. The
    browser is abstracted as what each step observes. */
module Scraper {
  import opened Wrappers
  import opened Text
  import opened Cascade

  // ---------------------------------------------------------------- credentials

  const Bullet: char := '•'
  const EmptyMark: string := "(vacío)"

  /** `_mask`: a missing or empty secret prints as a fixed mark; any other keeps
      its first `show` characters and hides the rest behind bullets. */
  function Mask(s: Option<string>, show: nat): (r: string)
    ensures s.None? || s.value == "" ==> r == EmptyMark
    ensures s.Some? && s.value != "" ==> |r| == |s.value|
    ensures s.Some? && s.value != "" ==>
      forall i :: 0 <= i < |r| ==> r[i] == (if i < show then s.value[i] else Bullet)
  {
    if s.None? || s.value == "" then EmptyMark
    else
      var t := s.value;
      var k := if show < |t| then show else |t|;
      t[..k] + seq(|t| - k, _ => Bullet)
  }

  /** A secret no longer than `show` is printed as is. */
  lemma MaskShortUnchanged(s: string, show: nat)
    requires 0 < |s| <= show
    ensures Mask(Some(s), show) == s
  {
  }

  /** The mask reveals nothing past the first `show` characters: two secrets
      of one length that agree there print the same. */
  lemma MaskHidesRest(s: string, t: string, show: nat)
    requires |s| == |t| > 0
    requires forall i :: 0 <= i < |s| && i < show ==> s[i] == t[i]
    ensures Mask(Some(s), show) == Mask(Some(t), show)
  {
  }

  datatype Credentials = Credentials(user: string, password: string)

  predicate Complete(c: Credentials) {
    c.user != "" && c.password != ""
  }

  const MissingCredentials: string :=
    "No se pudieron cargar USER_MUNI / PASS_MUNI desde .env. Verificá que estén en la raíz del proyecto y sin comillas."

  /** `_load_env`: the credentials from the environment; when one is missing
      and the project root has a `.env`, the ones read after reloading it
      (`reloaded`). Still incomplete credentials raise. */
  function LoadEnv(first: Credentials, reloaded: Option<Credentials>): (r: Result<Credentials>)
    ensures r.Ok? ==> Complete(r.value)
    ensures Complete(first) ==> r == Ok(first)
    ensures !Complete(first) && reloaded.Some? && Complete(reloaded.value) ==> r == Ok(reloaded.value)
    ensures r.Err? <==> !Complete(first) && (reloaded.None? || !Complete(reloaded.value))
    ensures r.Err? ==> r.msg == MissingCredentials
  {
    var c := if !Complete(first) && reloaded.Some? then reloaded.value else first;
    if Complete(c) then Ok(c) else Err(MissingCredentials)
  }

  // ---------------------------------------------------------------- login

  /** How a login field is located: a CSS selector, the field's label, or its
      placeholder text. */
  datatype Locator = Css(selector: string) | ByLabel(caption: string) | ByPlaceholder(placeholder: string)

  /** The comma-separated user selectors split and stripped, then the label
      and placeholder fallbacks. */
  const UserLocators: seq<Locator> := [
    Css("input[name=\"LoginForm[username]\"]"),
    Css("input#loginform-username"),
    ByLabel("Nombre de Usuario"),
    ByPlaceholder("Nombre de Usuario")]

  const PasswordLocators: seq<Locator> := [
    Css("input[name=\"LoginForm[password]\"]"),
    Css("input#loginform-password"),
    ByLabel("Contraseña"),
    ByPlaceholder("Contraseña")]

  /** The locator that fills a field: the first in order that works. */
  function FillWith(locators: seq<Locator>, fills: set<Locator>): (r: Option<Locator>)
    ensures r.Some? ==> r.value in fills
    ensures r.Some? ==> exists i :: (0 <= i < |locators| && locators[i] == r.value
      && forall k :: 0 <= k < i ==> locators[k] !in fills)
    ensures r.None? <==> forall i :: 0 <= i < |locators| ==> locators[i] !in fills
  {
    var a := Attempts(locators, fills);
    match FirstSuccess(a)
    case None => None
    case Some(i) => Some(locators[i])
  }

  /** What the login screen lets the scraper do: the locators that fill, and
      whether the submit selector and the role-based fallback button click. */
  datatype LoginScreen = LoginScreen(fills: set<Locator>, submitClicks: bool, buttonClicks: bool)

  datatype SubmitWay = SubmitSelector | NamedButton

  datatype LoginUsed = LoginUsed(user: Locator, password: Locator, submit: SubmitWay)

  const FieldsNotFound: string :=
    "No pude ubicar los campos de login. Revisá selectors.py o enviame una captura de la pantalla de login."

  /** The timeout the role-based button lookup raises when nothing clicks. */
  const SubmitTimeout: string := "Timeout 3000ms exceeded."

  /** What the role lookup raises when handed a function as the accessible
      name: the name is escaped as text, and a function has no `replace`. */
  const NameNotText: string := "AttributeError: 'function' object has no attribute 'replace'"

  /** `_login` as intended: both fields are tried, each through its cascade;
      either one left unfilled raises; then the submit selector is clicked,
      falling back to a button whose name contains "Ingresar" or "Login",
      whose failure propagates. */
  function Login(screen: LoginScreen): (r: Result<LoginUsed>)
    ensures r.Ok? ==> Some(r.value.user) == FillWith(UserLocators, screen.fills)
    ensures r.Ok? ==> Some(r.value.password) == FillWith(PasswordLocators, screen.fills)
    ensures r.Ok? ==> (r.value.submit == SubmitSelector <==> screen.submitClicks)
    ensures (FillWith(UserLocators, screen.fills).None? || FillWith(PasswordLocators, screen.fills).None?)
      <==> r == Err(FieldsNotFound)
    ensures FillWith(UserLocators, screen.fills).Some? && FillWith(PasswordLocators, screen.fills).Some? ==>
      (r.Ok? <==> screen.submitClicks || screen.buttonClicks)
    ensures FillWith(UserLocators, screen.fills).Some? && FillWith(PasswordLocators, screen.fills).Some? ==>
      (!screen.submitClicks && !screen.buttonClicks ==> r == Err(SubmitTimeout))
  {
    var u := FillWith(UserLocators, screen.fills);
    var p := FillWith(PasswordLocators, screen.fills);
    if u.None? || p.None? then Err(FieldsNotFound)
    else if screen.submitClicks then Ok(LoginUsed(u.value, p.value, SubmitSelector))
    else if screen.buttonClicks then Ok(LoginUsed(u.value, p.value, NamedButton))
    else Err(SubmitTimeout)
  }

  /** `_login` as written: the fallback passes a function where the role
      lookup expects the button's name as text, so the lookup raises and a
      submit selector that does not click always fails the login. */
  function LoginAsWritten(screen: LoginScreen): (r: Result<LoginUsed>)
    ensures r.Ok? <==> Login(screen).Ok? && screen.submitClicks
    ensures r.Ok? ==> r == Login(screen)
    ensures Login(screen).Ok? && !screen.submitClicks ==> r == Err(NameNotText)
  {
    var u := FillWith(UserLocators, screen.fills);
    var p := FillWith(PasswordLocators, screen.fills);
    if u.None? || p.None? then Err(FieldsNotFound)
    else if screen.submitClicks then Ok(LoginUsed(u.value, p.value, SubmitSelector))
    else Err(NameNotText)
  }

  /** A screen whose submit selector misses but whose "Ingresar" button
      clicks: the written login raises, the intended one gets in. */
  lemma NamedButtonExample()
    ensures LoginAsWritten(LoginScreen({UserLocators[0], PasswordLocators[0]}, false, true)) == Err(NameNotText)
    ensures Login(LoginScreen({UserLocators[0], PasswordLocators[0]}, false, true)).Ok?
    ensures Login(LoginScreen({UserLocators[0], PasswordLocators[0]}, false, true)).value.submit == NamedButton
  {
    var fills := {UserLocators[0], PasswordLocators[0]};
    assert Attempts(UserLocators, fills)[0];
    assert Attempts(PasswordLocators, fills)[0];
  }

  /** When one of the CSS selectors works, the label and placeholder
      fallbacks are never consulted. */
  lemma CssBeforeFallbacks(fills: set<Locator>)
    requires UserLocators[0] in fills || UserLocators[1] in fills
    ensures FillWith(UserLocators, fills) == FillWith(UserLocators[..2], fills)
  {
    var a := Attempts(UserLocators, fills);
    assert Attempts(UserLocators[..2], fills) == a[..2];
    assert a == a[..2] + a[2..];
    LaterAttemptsIrrelevant(a[..2], a[2..]);
  }

  // ---------------------------------------------------------------- rows

  /** A grid cell: its text, and the `href` of its first link (`None` when it
      has no link or the link has no `href`). */
  datatype GridCell = GridCell(text: string, link: Option<string>)

  /** One collected row, the keys of the scraper's records. */
  datatype Record = Record(
    nroSistema: string,
    expediente: string,
    estado: string,
    profesional: string,
    nomenclatura: string,
    bandejaActual: string,
    fechaEntrada: string,
    usuarioAsignado: string,
    urlDetalle: string)

  /** The `get` helper: the stripped text of column `j`, empty past the end. */
  function Column(tds: seq<GridCell>, j: nat): (r: string)
    ensures j >= |tds| ==> r == ""
    ensures j < |tds| ==> r == Strip(tds[j].text)
  {
    if j < |tds| then Strip(tds[j].text) else ""
  }

  /** The detail link sits in the ninth column; any failure to read it leaves
      the link empty. */
  function DetailUrl(tds: seq<GridCell>): (r: string)
    ensures |tds| <= 8 ==> r == ""
    ensures |tds| > 8 && tds[8].link.Some? ==> r == tds[8].link.value
    ensures |tds| > 8 && tds[8].link.None? ==> r == ""
  {
    if |tds| > 8 && tds[8].link.Some? then tds[8].link.value else ""
  }

  function CollectRow(tds: seq<GridCell>): Record {
    Record(Column(tds, 0), Column(tds, 1), Column(tds, 2), Column(tds, 3),
      Column(tds, 4), Column(tds, 5), Column(tds, 6), Column(tds, 7), DetailUrl(tds))
  }

  /** `_collect_page_rows`: one record per grid row, in grid order, none
      dropped. */
  function CollectPageRows(rows: seq<seq<GridCell>>): (r: seq<Record>)
    ensures |r| == |rows|
    ensures forall i :: 0 <= i < |rows| ==> r[i] == CollectRow(rows[i])
  {
    seq(|rows|, i requires 0 <= i < |rows| => CollectRow(rows[i]))
  }

  /** Collecting two stretches of rows is collecting them together. */
  lemma CollectConcat(a: seq<seq<GridCell>>, b: seq<seq<GridCell>>)
    ensures CollectPageRows(a + b) == CollectPageRows(a) + CollectPageRows(b)
  {
    assert forall i :: |a| <= i < |a + b| ==> (a + b)[i] == b[i - |a|];
  }

  /** A row with fewer than six cells still yields a record, its missing
      columns empty. */
  lemma ShortRowKept(tds: seq<GridCell>)
    requires |tds| < 6
    ensures CollectRow(tds).bandejaActual == "" && CollectRow(tds).fechaEntrada == ""
    ensures CollectRow(tds).usuarioAsignado == "" && CollectRow(tds).urlDetalle == ""
  {
  }

  // ---------------------------------------------------------------- pagination

  /** What happens when the scraper looks for the next-page control: there is
      none, clicking it moves on, clicking it times out, or something else is
      raised. */
  datatype NextStep = NoNext | Advanced | TimedOut | Raised(msg: string)

  /** One visited listing page: its grid rows and what the next control did. */
  datatype Page = Page(rows: seq<seq<GridCell>>, next: NextStep)

  /** The pages after which the walk goes on. */
  predicate Continues(p: Page) {
    p.next.Advanced?
  }

  /** Number of pages the walk visits: up to the first that does not
      continue, all of them when the observation ends first. */
  function Visited(pages: seq<Page>): (n: nat)
    ensures n <= |pages|
    ensures forall i :: 0 <= i < n - 1 ==> Continues(pages[i])
    ensures n < |pages| ==> n > 0 && !Continues(pages[n - 1])
    ensures n == |pages| && n > 0 ==> forall i :: 0 <= i < n - 1 ==> Continues(pages[i])
  {
    if |pages| == 0 then 0
    else if !Continues(pages[0]) then 1
    else 1 + Visited(pages[1..])
  }

  /** The rows of a stretch of pages, page after page. */
  function AllRows(pages: seq<Page>): seq<Record> {
    if |pages| == 0 then [] else CollectPageRows(pages[0].rows) + AllRows(pages[1..])
  }

  /** Rows collected so far, put in front of the outcome of the rest of the
      walk. */
  function Prepend(rows: seq<Record>, r: Result<seq<Record>>): Result<seq<Record>> {
    match r
    case Ok(rest) => Ok(rows + rest)
    case Err(m) => Err(m)
  }

  /** The `while True` walk: every visited page's rows are appended, a
      missing next control or a click timeout ends it, anything else raised
      propagates. */
  function Walk(pages: seq<Page>): Result<seq<Record>> {
    if |pages| == 0 then Ok([])
    else
      var here := CollectPageRows(pages[0].rows);
      match pages[0].next
      case Raised(m) => Err(m)
      case Advanced => Prepend(here, Walk(pages[1..]))
      case _ => Ok(here)
  }

  /** Unless the last visited page raised, the walk yields the concatenation
      of the visited pages' rows in visit order; pages after the first that
      ends the walk are never looked at. */
  lemma {:induction false} WalkIsConcat(pages: seq<Page>)
    ensures var n := Visited(pages);
      Walk(pages) == if n > 0 && pages[n - 1].next.Raised? then Err(pages[n - 1].next.msg)
                     else Ok(AllRows(pages[..n]))
    decreases |pages|
  {
    if |pages| > 0 {
      var n := Visited(pages);
      if Continues(pages[0]) {
        var rest := pages[1..];
        WalkIsConcat(rest);
        var m := Visited(rest);
        assert n == 1 + m;
        if m > 0 && rest[m - 1].next.Raised? {
          assert pages[n - 1] == rest[m - 1];
        } else {
          assert pages[..n][1..] == rest[..m];
        }
      } else {
        var here := CollectPageRows(pages[0].rows);
        assert pages[..1][1..] == [];
        assert AllRows(pages[..1]) == here + [];
        assert here + [] == here;
      }
    }
  }

  /** The loop of `run_scraper` over the pages it is shown. */
  method WalkPages(pages: seq<Page>) returns (r: Result<seq<Record>>)
    ensures r == Walk(pages)
  {
    var all: seq<Record> := [];
    var i := 0;
    assert pages[0..] == pages;
    match Walk(pages) {
      case Ok(w) => assert [] + w == w;
      case Err(_) =>
    }
    while i < |pages|
      invariant 0 <= i <= |pages|
      invariant Walk(pages) == Prepend(all, Walk(pages[i..]))
      decreases |pages| - i
    {
      var here := CollectPageRows(pages[i].rows);
      var step := pages[i].next;
      if step.Raised? {
        return Err(step.msg);
      } else if !step.Advanced? {
        return Ok(all + here);
      }
      assert pages[i..][1..] == pages[i + 1..];
      match Walk(pages[i + 1..]) {
        case Ok(w) => assert all + (here + w) == (all + here) + w;
        case Err(_) =>
      }
      all := all + here;
      i := i + 1;
    }
    assert pages[i..] == [];
    assert all + [] == all;
    r := Ok(all);
  }

  // ---------------------------------------------------------------- export

  /** A cell of the exported table as the sync reads it back: an empty value
      reads back as NaN. */
  datatype CsvCell = Missing | Val(s: string)

  function CsvOf(s: string): (c: CsvCell)
    ensures c.Missing? <==> s == ""
    ensures c.Val? ==> c.s == s
  {
    if s == "" then Missing else Val(s)
  }

  /** A row of the table the sync reads, restricted to the columns it looks
      at; `None` is a column the table does not have. */
  datatype CsvRow = CsvRow(
    nroSistema: Option<CsvCell>,
    fechaEntrada: Option<CsvCell>,
    bandejaActual: Option<CsvCell>,
    usuarioAsignado: Option<CsvCell>,
    estado: Option<CsvCell>)

  /** The exported columns: number, file, professional, tray, entry date and
      user; the state column is not exported. */
  function ExportRow(r: Record): (row: CsvRow)
    ensures row.estado.None?
    ensures row.nroSistema == Some(CsvOf(r.nroSistema))
    ensures row.bandejaActual == Some(CsvOf(r.bandejaActual))
  {
    CsvRow(Some(CsvOf(r.nroSistema)), Some(CsvOf(r.fechaEntrada)), Some(CsvOf(r.bandejaActual)),
      Some(CsvOf(r.usuarioAsignado)), None)
  }

  /** The column selection on a table built from no records raises, since
      such a table has no columns at all. */
  const NoColumns: string :=
    "KeyError: \"None of [Index(['nro_sistema', 'expediente', 'profesional', 'bandeja_actual', 'fecha_entrada', 'usuario_asignado'], dtype='object')] are in the [columns]\""

  /** The export as written: a scrape with no rows raises before the table is
      written, so the zero-row diagnostic after it never runs. */
  function ExportAsWritten(rows: seq<Record>): (r: Result<seq<CsvRow>>)
    ensures r.Err? <==> |rows| == 0
    ensures r.Ok? ==> r.value == Export(rows)
  {
    if |rows| == 0 then Err(NoColumns) else Ok(Export(rows))
  }

  /** The export as intended: one table row per record, an empty scrape giving
      an empty table. */
  function Export(rows: seq<Record>): (t: seq<CsvRow>)
    ensures |t| == |rows|
    ensures forall i :: 0 <= i < |rows| ==> t[i] == ExportRow(rows[i])
  {
    seq(|rows|, i requires 0 <= i < |rows| => ExportRow(rows[i]))
  }

  /** The two exports differ exactly on the empty scrape. */
  lemma EmptyScrapeRaises()
    ensures ExportAsWritten([]).Err?
    ensures Export([]) == []
  {
  }

  // ---------------------------------------------------------------- the run

  /** `run_scraper` with the corrected export: credentials, login, the page
      walk, the table. The first step that raises ends the run with its error;
      when none does, the table is the export of every walked row. */
  function RunScraper(first: Credentials, reloaded: Option<Credentials>, screen: LoginScreen,
                      pages: seq<Page>): (r: Result<seq<CsvRow>>)
    ensures r.Ok? ==> LoadEnv(first, reloaded).Ok? && Login(screen).Ok?
    ensures r.Ok? ==> Walk(pages).Ok? && |r.value| == |Walk(pages).value|
    ensures LoadEnv(first, reloaded).Err? ==> r == Err(MissingCredentials)
    ensures LoadEnv(first, reloaded).Ok? && Login(screen).Err? ==> r == Err(Login(screen).msg)
    ensures LoadEnv(first, reloaded).Ok? && Login(screen).Ok? && Walk(pages).Err? ==>
      r == Err(Walk(pages).msg)
    ensures LoadEnv(first, reloaded).Ok? && Login(screen).Ok? && Walk(pages).Ok? ==>
      r == Ok(Export(Walk(pages).value))
  {
    match LoadEnv(first, reloaded)
    case Err(m) => Err(m)
    case Ok(_) =>
      match Login(screen)
      case Err(m) => Err(m)
      case Ok(_) =>
        match Walk(pages)
        case Err(m) => Err(m)
        case Ok(rows) => Ok(Export(rows))
  }

  /** `run_scraper` as written: the written login and the written export. */
  function RunScraperAsWritten(first: Credentials, reloaded: Option<Credentials>, screen: LoginScreen,
                               pages: seq<Page>): Result<seq<CsvRow>> {
    match LoadEnv(first, reloaded)
    case Err(m) => Err(m)
    case Ok(_) =>
      match LoginAsWritten(screen)
      case Err(m) => Err(m)
      case Ok(_) =>
        match Walk(pages)
        case Err(m) => Err(m)
        case Ok(rows) => ExportAsWritten(rows)
  }

  /** A successful run through the submit selector over listing pages
      without a single row fails as written and yields an empty table once
      corrected; with rows the two runs agree. A run that needed the named
      button fails as written whatever the listing. */
  lemma EmptyListingFailsAsWritten(first: Credentials, reloaded: Option<Credentials>,
                                   screen: LoginScreen, pages: seq<Page>)
    requires RunScraper(first, reloaded, screen, pages).Ok?
    ensures screen.submitClicks ==> (|RunScraper(first, reloaded, screen, pages).value| == 0 <==>
      RunScraperAsWritten(first, reloaded, screen, pages) == Err(NoColumns))
    ensures screen.submitClicks && |RunScraper(first, reloaded, screen, pages).value| > 0 ==>
      RunScraperAsWritten(first, reloaded, screen, pages) == RunScraper(first, reloaded, screen, pages)
    ensures !screen.submitClicks ==> RunScraperAsWritten(first, reloaded, screen, pages) == Err(NameNotText)
  {
  }

  /** A one-page listing with only empty-grid pages is the concrete case. */
  lemma EmptyListingExample()
    ensures RunScraperAsWritten(Credentials("u", "p"), None,
      LoginScreen({UserLocators[0], PasswordLocators[0]}, true, false), [Page([], NoNext)]) == Err(NoColumns)
    ensures RunScraper(Credentials("u", "p"), None,
      LoginScreen({UserLocators[0], PasswordLocators[0]}, true, false), [Page([], NoNext)]) == Ok([])
  {
    var fills := {UserLocators[0], PasswordLocators[0]};
    assert Attempts(UserLocators, fills)[0];
    assert Attempts(PasswordLocators, fills)[0];
    assert Walk([Page([], NoNext)]) == Ok([]);
  }

  // ---------------------------------------------------------------- attachments

  /** A link on a file's detail page, and what clicking it leads to: a saved
      download, a click that raises, or a download that never completes. */
  datatype LinkOutcome = Saved | ClickFailed | Aborted
  datatype Link = Link(text: string, href: Option<string>, outcome: LinkOutcome)

  /** A link looks like a document when its text mentions a PDF or a
      download, or its target ends in `.pdf`. */
  predicate WantsPdf(l: Link) {
    var txt := Lower(Strip(l.text));
    Contains(txt, "pdf") || Contains(txt, "descargar") || IsSuffix(".pdf", Lower(l.href.GetOr("")))
  }

  /** Downloads saved walking `links` until a document link fails. A click
      that raises leaves the download block through `continue`, and leaving
      the block waits for a download that never comes: the wait times out and
      ends the walk just as an aborted download does. */
  function Saves(links: seq<Link>): (n: nat)
    ensures n <= |links|
  {
    if |links| == 0 then 0
    else if WantsPdf(links[0]) && !links[0].outcome.Saved? then 0
    else (if WantsPdf(links[0]) then 1 else 0) + Saves(links[1..])
  }

  /** Once a document link fails, nothing after it is downloaded. */
  lemma {:induction false} LaterLinksIrrelevant(a: seq<Link>, l: Link, b: seq<Link>, b': seq<Link>)
    requires WantsPdf(l) && !l.outcome.Saved?
    ensures Saves(a + [l] + b) == Saves(a + [l] + b')
    decreases |a|
  {
    if |a| > 0 {
      assert (a + [l] + b)[1..] == a[1..] + [l] + b;
      assert (a + [l] + b')[1..] == a[1..] + [l] + b';
      LaterLinksIrrelevant(a[1..], l, b, b');
    } else {
      assert (a + [l] + b)[0] == l && (a + [l] + b')[0] == l;
    }
  }

  /** Number of links that look like documents. */
  function Wanted(links: seq<Link>): nat {
    if |links| == 0 then 0 else (if WantsPdf(links[0]) then 1 else 0) + Wanted(links[1..])
  }

  /** `_try_download_pdfs`: a record without a detail link downloads nothing,
      and neither does a detail page that cannot be opened. */
  function TryDownloadPdfs(row: Record, reached: bool, links: seq<Link>): (n: nat)
    ensures row.urlDetalle == "" || !reached ==> n == 0
  {
    if row.urlDetalle == "" || !reached then 0 else Saves(links)
  }

  /** At most one download per document-looking link. */
  lemma {:induction false} SavesAtMostWanted(links: seq<Link>)
    ensures Saves(links) <= Wanted(links)
    decreases |links|
  {
    if |links| > 0 {
      SavesAtMostWanted(links[1..]);
    }
  }
}
