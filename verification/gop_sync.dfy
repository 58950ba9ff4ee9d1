/** The portal ("GOP") synchronisation: a direct scraper that logs in through
    ordered selector lists and keeps the useful rows of the tray grid, and the
    reconciliation that reads the exported table back and updates every case
    file whose portal number is on file, counting what happened. Browser and
    database are abstracted as what they answer. */
module GopSync {
  import opened Wrappers
  import opened Text
  import opened Dates
  import opened Cascade
  import opened Scraper

  // ---------------------------------------------------------------- selector lists

  const UserSelectors: seq<string> := [
    "input[name=\"LoginForm[username]\"]", "input#loginform-username",
    "input[name=\"username\"]", "input[type=\"text\"]"]

  const PasswordSelectors: seq<string> := [
    "input[name=\"LoginForm[password]\"]", "input#loginform-password",
    "input[name=\"password\"]", "input[type=\"password\"]"]

  const SubmitSelectors: seq<string> := [
    "button[type=\"submit\"]", "input[type=\"submit\"]",
    "button:has-text(\"Ingresar\")", "button:has-text(\"Login\")", ".btn-primary"]

  const TableSelectors: seq<string> := ["table tbody tr", ".table tbody tr", "#grid tbody tr", "tr"]

  /** The `for selector in ...: try ... break except: continue` loops: the
      first selector in list order that works, `None` when none does. */
  function Choose(selectors: seq<string>, works: set<string>): (r: Option<nat>)
    ensures r.Some? ==> r.value < |selectors| && selectors[r.value] in works
    ensures r.Some? ==> forall k :: 0 <= k < r.value ==> selectors[k] !in works
    ensures r.None? <==> forall k :: 0 <= k < |selectors| ==> selectors[k] !in works
  {
    FirstSuccess(Attempts(selectors, works))
  }

  /** Adding fallback selectors after one that works changes nothing. */
  lemma ChooseIgnoresLater(a: seq<string>, b: seq<string>, works: set<string>)
    requires Choose(a, works).Some?
    ensures Choose(a + b, works) == Choose(a, works)
  {
    assert Attempts(a + b, works) == Attempts(a, works) + Attempts(b, works);
    LaterAttemptsIrrelevant(Attempts(a, works), Attempts(b, works));
  }

  // ---------------------------------------------------------------- login

  /** What the browser shows along the login: the landing address, the
      selectors that fill or click, the address after submitting, and whether
      the tray listing opens directly or through the menu. */
  datatype Portal = Portal(
    landingUrl: string,
    works: set<string>,
    afterLoginUrl: string,
    traysDirect: bool,
    traysByMenu: bool,
    tables: map<string, seq<seq<string>>>)

  const NoCredentials: string := "No se encontraron credenciales USER_MUNI/PASS_MUNI en .env"
  const NoUserField: string := "No se pudo llenar el campo de usuario"
  const NoPasswordField: string := "No se pudo llenar el campo de contraseña"
  const NoSubmit: string := "No se pudo hacer click en el botón de login"
  const StillOnLogin: string := "Login falló - aún en página de login. Verificá credenciales."
  const NoTrays: string := "No se pudo acceder a la página de bandejas"

  function NotOnLogin(url: string): string {
    "No se pudo acceder a la página de login. URL actual: " + url
  }

  predicate OnLoginPage(url: string) {
    Contains(Lower(url), "login")
  }

  /** The selectors the login went through. */
  datatype DirectSession = DirectSession(user: nat, password: nat, submit: nat)

  /** The login steps of `_run_scraper_direct`, each raising in turn:
      credentials, landing page, user field, password field, submit button,
      landing somewhere other than the login page, the tray listing. */
  function DirectLogin(c: Credentials, p: Portal): (r: Result<DirectSession>)
    ensures r.Ok? <==> (Complete(c) && OnLoginPage(p.landingUrl)
      && Choose(UserSelectors, p.works).Some? && Choose(PasswordSelectors, p.works).Some?
      && Choose(SubmitSelectors, p.works).Some? && !OnLoginPage(p.afterLoginUrl)
      && (p.traysDirect || p.traysByMenu))
    ensures r.Ok? ==> (Some(r.value.user) == Choose(UserSelectors, p.works)
      && Some(r.value.password) == Choose(PasswordSelectors, p.works)
      && Some(r.value.submit) == Choose(SubmitSelectors, p.works))
    ensures !Complete(c) ==> r == Err(NoCredentials)
  {
    if !Complete(c) then Err(NoCredentials)
    else if !OnLoginPage(p.landingUrl) then Err(NotOnLogin(p.landingUrl))
    else
      var u := Choose(UserSelectors, p.works);
      if u.None? then Err(NoUserField)
      else
        var w := Choose(PasswordSelectors, p.works);
        if w.None? then Err(NoPasswordField)
        else
          var s := Choose(SubmitSelectors, p.works);
          if s.None? then Err(NoSubmit)
          else if OnLoginPage(p.afterLoginUrl) then Err(StillOnLogin)
          else if !(p.traysDirect || p.traysByMenu) then Err(NoTrays)
          else Ok(DirectSession(u.value, w.value, s.value))
  }

  // ---------------------------------------------------------------- the grid

  /** A kept grid row with the columns the direct scraper names. */
  datatype PortalRow = PortalRow(
    nroSistema: string,
    expediente: string,
    estado: string,
    profesional: string,
    nomenclatura: string,
    bandejaActual: string,
    fechaEntrada: string,
    usuarioAsignado: string)

  /** The stripped text of cell `j`, empty when the row is shorter. */
  function Cell(cells: seq<string>, j: nat): (r: string)
    ensures j >= |cells| ==> r == ""
  {
    if j < |cells| then Strip(cells[j]) else ""
  }

  function MapRow(cells: seq<string>): PortalRow {
    PortalRow(Cell(cells, 0), Cell(cells, 1), Cell(cells, 2), Cell(cells, 3),
      Cell(cells, 4), Cell(cells, 5), Cell(cells, 6), Cell(cells, 7))
  }

  /** A row is worth keeping when it names a portal number or a file. */
  predicate Useful(r: PortalRow) {
    r.nroSistema != "" || r.expediente != ""
  }

  /** A grid row is kept when it has at least six cells and is useful. */
  predicate Kept(cells: seq<string>) {
    |cells| >= 6 && Useful(MapRow(cells))
  }

  /** `[f(x) for x in xs if keep(x)]`, read from the back. */
  function KeepMap<T, U>(xs: seq<T>, keep: T -> bool, f: T -> U): (ys: seq<U>)
    ensures |ys| <= |xs|
  {
    if |xs| == 0 then []
    else KeepMap(xs[..|xs| - 1], keep, f) + (if keep(xs[|xs| - 1]) then [f(xs[|xs| - 1])] else [])
  }

  /** Filtering two stretches is filtering them together, so the kept
      elements keep their relative order. */
  lemma {:induction false} KeepMapConcat<T, U>(a: seq<T>, b: seq<T>, keep: T -> bool, f: T -> U)
    ensures KeepMap(a + b, keep, f) == KeepMap(a, keep, f) + KeepMap(b, keep, f)
    decreases |b|
  {
    if |b| == 0 {
      assert a + b == a;
    } else {
      var b' := b[..|b| - 1];
      KeepMapConcat(a, b', keep, f);
      assert (a + b)[..|a + b| - 1] == a + b';
      assert (a + b)[|a + b| - 1] == b[|b| - 1];
    }
  }

  /** Everything kept is the image of an element that passes. */
  lemma {:induction false} KeepMapSound<T, U>(xs: seq<T>, keep: T -> bool, f: T -> U, y: U)
    requires y in KeepMap(xs, keep, f)
    ensures exists i :: 0 <= i < |xs| && keep(xs[i]) && f(xs[i]) == y
    decreases |xs|
  {
    var init := xs[..|xs| - 1];
    if y in KeepMap(init, keep, f) {
      KeepMapSound(init, keep, f, y);
      var i :| 0 <= i < |init| && keep(init[i]) && f(init[i]) == y;
      assert xs[i] == init[i];
    }
  }

  /** Every element that passes is kept. */
  lemma {:induction false} KeepMapComplete<T, U>(xs: seq<T>, keep: T -> bool, f: T -> U, i: nat)
    requires i < |xs| && keep(xs[i])
    ensures f(xs[i]) in KeepMap(xs, keep, f)
    decreases |xs|
  {
    if i < |xs| - 1 {
      KeepMapComplete(xs[..|xs| - 1], keep, f, i);
    }
  }

  /** The kept rows, in grid order. */
  function KeptRows(grid: seq<seq<string>>): (rows: seq<PortalRow>)
    ensures |rows| <= |grid|
  {
    KeepMap(grid, Kept, MapRow)
  }

  /** Splitting the grid splits the kept rows. */
  lemma KeptRowsConcat(a: seq<seq<string>>, b: seq<seq<string>>)
    ensures KeptRows(a + b) == KeptRows(a) + KeptRows(b)
  {
    KeepMapConcat(a, b, Kept, MapRow);
  }

  /** Every kept row comes from a grid row of six or more cells that names a
      portal number or a file. */
  lemma KeptRowsSound(grid: seq<seq<string>>, r: PortalRow)
    requires r in KeptRows(grid)
    ensures exists i :: 0 <= i < |grid| && Kept(grid[i]) && MapRow(grid[i]) == r
  {
    KeepMapSound(grid, Kept, MapRow, r);
  }

  /** Every grid row of six or more cells naming a portal number or a file is
      kept. */
  lemma KeptRowsComplete(grid: seq<seq<string>>, i: nat)
    requires i < |grid| && Kept(grid[i])
    ensures MapRow(grid[i]) in KeptRows(grid)
  {
    KeepMapComplete(grid, Kept, MapRow, i);
  }

  /** The grid loop of `_run_scraper_direct`. */
  method CollectGrid(grid: seq<seq<string>>) returns (rows: seq<PortalRow>)
    ensures rows == KeptRows(grid)
  {
    rows := [];
    var i := 0;
    while i < |grid|
      invariant 0 <= i <= |grid|
      invariant rows == KeptRows(grid[..i])
    {
      var cells := grid[i];
      assert grid[..i + 1][..i] == grid[..i];
      if Kept(cells) {
        rows := rows + [MapRow(cells)];
      }
      i := i + 1;
    }
    assert grid[..i] == grid;
  }

  /** The rows the table selectors find: the first selector, in order, that
      matches at least one row. `None` is the "no table" early return, which
      hands back the path of a table it never wrote. */
  function FindTable(tables: map<string, seq<seq<string>>>): (r: Option<seq<seq<string>>>)
    ensures r.Some? ==> |r.value| > 0
    ensures r.None? <==> forall k :: 0 <= k < |TableSelectors| ==>
      TableSelectors[k] !in tables || |tables[TableSelectors[k]]| == 0
    ensures r.Some? ==> exists k :: (0 <= k < |TableSelectors| && TableSelectors[k] in tables
      && r.value == tables[TableSelectors[k]]
      && forall j :: 0 <= j < k ==> TableSelectors[j] !in tables || |tables[TableSelectors[j]]| == 0)
  {
    var nonEmpty := set s | s in tables.Keys && |tables[s]| > 0;
    match Choose(TableSelectors, nonEmpty)
    case None => None
    case Some(k) => Some(tables[TableSelectors[k]])
  }

  /** `_run_scraper_direct`: the kept rows, `None` when no table was found. */
  function DirectScrape(c: Credentials, p: Portal): (r: Result<Option<seq<PortalRow>>>)
    ensures r.Ok? <==> DirectLogin(c, p).Ok?
    ensures r.Err? ==> r.msg == DirectLogin(c, p).msg
    ensures r.Ok? ==> (r.value.None? <==> FindTable(p.tables).None?)
    ensures r.Ok? && r.value.Some? ==> r.value.value == KeptRows(FindTable(p.tables).value)
  {
    match DirectLogin(c, p)
    case Err(m) => Err(m)
    case Ok(_) =>
      match FindTable(p.tables)
      case None => Ok(None)
      case Some(grid) => Ok(Some(KeptRows(grid)))
  }

  // ---------------------------------------------------------------- reading the table back

  /** The table the direct scraper writes, as the sync reads it: all eight
      columns, empty values coming back as NaN. */
  function PortalCsvRow(r: PortalRow): CsvRow {
    CsvRow(Some(CsvOf(r.nroSistema)), Some(CsvOf(r.fechaEntrada)), Some(CsvOf(r.bandejaActual)),
      Some(CsvOf(r.usuarioAsignado)), Some(CsvOf(r.estado)))
  }

  /** Reading the table the scraper hands over raises when no table was
      written. */
  const MissingTable: string := "[Errno 2] No such file or directory"

  function ReadBack(scrape: Result<Option<seq<PortalRow>>>): (r: Result<seq<CsvRow>>)
    ensures scrape.Ok? && scrape.value.None? ==> r == Err(MissingTable)
    ensures scrape.Ok? && scrape.value.Some? ==> r.Ok? && |r.value| == |scrape.value.value|
    ensures scrape.Ok? && scrape.value.Some? ==>
      forall i :: 0 <= i < |r.value| ==> r.value[i] == PortalCsvRow(scrape.value.value[i])
    ensures scrape.Err? ==> r == Err(scrape.msg)
  {
    match scrape
    case Err(m) => Err(m)
    case Ok(None) => Err(MissingTable)
    case Ok(Some(rows)) => Ok(seq(|rows|, i requires 0 <= i < |rows| => PortalCsvRow(rows[i])))
  }

  // ---------------------------------------------------------------- one row

  /** How a missing cell reads as text: `str` of NaN, or the blank intended. */
  datatype NanReading = AsWritten | Intended

  /** `str(row.get(col, ''))`: an absent column reads as empty, a NaN cell as
      `nan` as written. */
  function ReadCell(c: Option<CsvCell>, how: NanReading): (t: string)
    ensures c.None? ==> t == ""
    ensures c == Some(Missing) ==> (t == "nan" <==> how == AsWritten)
    ensures c == Some(Missing) && how == Intended ==> t == ""
  {
    match c
    case None => ""
    case Some(Missing) => if how == AsWritten then "nan" else ""
    case Some(Val(s)) => s
  }

  /** `str(row.get('nro_sistema', 'desconocido'))`, for error messages. */
  function RawNumber(c: Option<CsvCell>): string {
    match c
    case None => "desconocido"
    case Some(Missing) => "nan"
    case Some(Val(s)) => s
  }

  /** `v[:n] if v else None`: empty is no value, anything else is cut to `n`
      characters. */
  function Truncate(v: string, n: nat): (r: Option<string>)
    ensures r.None? <==> v == ""
    ensures r.Some? ==> |r.value| <= n && IsPrefix(r.value, v)
    ensures r.Some? && |v| <= n ==> r.value == v
  {
    if v == "" then None else Some(v[..if |v| <= n then |v| else n])
  }

  const EntryDateFormats: seq<Format> := [Iso, Dmy('/'), Dmy('-')]

  /** The entry date: empty or `nan` is no date, otherwise the first of the
      three formats that accepts the stripped text, and no date when none
      does. */
  function EntryDate(cell: string): (r: Option<CalendarDate>)
    ensures Strip(cell) == "" || Strip(cell) == "nan" ==> r.None?
    ensures Strip(cell) != "" && Strip(cell) != "nan" ==> r == ParseFirst(Strip(cell), EntryDateFormats)
  {
    var t := Strip(cell);
    if t == "" || t == "nan" then None else ParseFirst(t, EntryDateFormats)
  }

  /** What the database answers: the id of the case file holding a portal
      number (the first row found), and the portal numbers whose statements
      raise, with the exception text. */
  datatype GopDb = GopDb(ids: map<string, int>, failures: map<string, string>, commitError: Option<string>)

  /** The columns one update writes. */
  datatype GopUpdate = GopUpdate(
    id: int,
    bandeja: Option<string>,
    usuario: Option<string>,
    estado: Option<string>,
    fechaEntrada: Option<CalendarDate>,
    sincronizacion: DateTime)

  datatype RowOutcome = Skipped | NotFound | Updated(update: GopUpdate) | Failed(msg: string)

  /** One iteration of the sync loop: rows without a portal number are
      skipped; a number no case file holds (or held by the falsy id 0) is not
      found; a statement that raises is an error; otherwise the file's portal
      columns are updated. */
  function ProcessRow(row: CsvRow, db: GopDb, now: DateTime, how: NanReading): RowOutcome
  {
    var nro := RowNumber(row, how);
    if nro == "" then Skipped
    else if nro in db.failures then
      Failed("Error procesando GOP " + RawNumber(row.nroSistema) + ": " + db.failures[nro])
    else if nro !in db.ids || db.ids[nro] == 0 then NotFound
    else Updated(RowUpdate(row, db.ids[nro], now, how))
  }

  /** The portal number a row is looked up by. */
  function RowNumber(row: CsvRow, how: NanReading): string {
    Strip(ReadCell(row.nroSistema, how))
  }

  /** A portal number that names a case file and whose statements go
      through: not blank, not failing, and held by a file with a truthy id. */
  predicate OnFile(nro: string, db: GopDb) {
    nro != "" && nro !in db.failures && nro in db.ids && db.ids[nro] != 0
  }

  /** The update `actualizar_expediente_gop` issues for a row and a file id. */
  function RowUpdate(row: CsvRow, id: int, now: DateTime, how: NanReading): (u: GopUpdate)
    ensures u.id == id && u.sincronizacion == now
  {
    GopUpdate(id,
      Truncate(ReadCell(row.bandejaActual, how), 200),
      Truncate(ReadCell(row.usuarioAsignado, how), 200),
      Truncate(ReadCell(row.estado, how), 100),
      EntryDate(ReadCell(row.fechaEntrada, how)),
      now)
  }

  /** Some cell of the row came back as NaN. */
  predicate HasMissingCell(row: CsvRow) {
    || row.nroSistema == Some(Missing) || row.fechaEntrada == Some(Missing)
    || row.bandejaActual == Some(Missing) || row.usuarioAsignado == Some(Missing)
    || row.estado == Some(Missing)
  }

  /** The two readings of a NaN cell differ on nothing else: a row without
      one is processed alike either way. */
  lemma ReadingsAgreeWithoutNan(row: CsvRow, db: GopDb, now: DateTime)
    requires !HasMissingCell(row)
    ensures ProcessRow(row, db, now, AsWritten) == ProcessRow(row, db, now, Intended)
  {
    SameReading(row.nroSistema);
    SameReading(row.fechaEntrada);
    SameReading(row.bandejaActual);
    SameReading(row.usuarioAsignado);
    SameReading(row.estado);
  }

  lemma SameReading(c: Option<CsvCell>)
    requires c != Some(Missing)
    ensures ReadCell(c, AsWritten) == ReadCell(c, Intended)
  {
  }

  /** Read as intended, a row is skipped exactly when it has no portal
      number: the column is absent, the cell is empty, or it is all
      whitespace. */
  lemma IntendedSkipsBlankNumbers(row: CsvRow, db: GopDb, now: DateTime)
    ensures ProcessRow(row, db, now, Intended).Skipped? <==>
      (row.nroSistema.None? || row.nroSistema == Some(Missing) || AllSpaces(row.nroSistema.value.s))
  {
    StripEmptyIffSpaces(ReadCell(row.nroSistema, Intended));
  }

  // ---------------------------------------------------------------- the loop

  datatype Stats = Stats(
    error: Option<string>,
    totalGopEncontrados: nat,
    actualizados: nat,
    noEncontrados: nat,
    errores: seq<string>)

  /** Counters and updates of a stretch of outcomes. */
  datatype Tally = Tally(actualizados: nat, noEncontrados: nat, errores: seq<string>, updates: seq<GopUpdate>)

  function Count(t: Tally, o: RowOutcome): Tally {
    match o
    case Skipped => t
    case NotFound => t.(noEncontrados := t.noEncontrados + 1)
    case Updated(u) => t.(actualizados := t.actualizados + 1, updates := t.updates + [u])
    case Failed(m) => t.(errores := t.errores + [m])
  }

  function TallyOf(os: seq<RowOutcome>): Tally {
    if |os| == 0 then Tally(0, 0, [], []) else Count(TallyOf(os[..|os| - 1]), os[|os| - 1])
  }

  function Skips(os: seq<RowOutcome>): nat {
    if |os| == 0 then 0 else Skips(os[..|os| - 1]) + (if os[|os| - 1].Skipped? then 1 else 0)
  }

  function Outcomes(rows: seq<CsvRow>, db: GopDb, now: DateTime, how: NanReading): (os: seq<RowOutcome>)
    ensures |os| == |rows|
    ensures forall i :: 0 <= i < |rows| ==> os[i] == ProcessRow(rows[i], db, now, how)
  {
    seq(|rows|, i requires 0 <= i < |rows| => ProcessRow(rows[i], db, now, how))
  }

  /** Every outcome lands in exactly one place: updated, not found, an error
      message, or skipped. One update is recorded per updated row. */
  lemma {:induction false} TallyBalances(os: seq<RowOutcome>)
    ensures var t := TallyOf(os);
      t.actualizados + t.noEncontrados + |t.errores| + Skips(os) == |os|
      && |t.updates| == t.actualizados
    decreases |os|
  {
    if |os| > 0 {
      TallyBalances(os[..|os| - 1]);
    }
  }

  /** The per-row loop of `sync_gop_data`: each row's outcome is counted in
      turn. */
  method SyncRows(rows: seq<CsvRow>, db: GopDb, now: DateTime, how: NanReading) returns (t: Tally)
    ensures t == TallyOf(Outcomes(rows, db, now, how))
    ensures t.actualizados + t.noEncontrados + |t.errores| <= |rows|
  {
    var os := Outcomes(rows, db, now, how);
    t := CountAll(os);
    TallyBalances(os);
  }

  /** Counting outcomes one after the other. */
  method CountAll(os: seq<RowOutcome>) returns (t: Tally)
    ensures t == TallyOf(os)
  {
    t := Tally(0, 0, [], []);
    var i := 0;
    while i < |os|
      invariant 0 <= i <= |os|
      invariant t == TallyOf(os[..i])
    {
      var o := os[i];
      assert os[..i + 1][..i] == os[..i];
      assert TallyOf(os[..i + 1]) == Count(TallyOf(os[..i]), o);
      match o {
        case Skipped =>
        case NotFound => t := t.(noEncontrados := t.noEncontrados + 1);
        case Updated(u) => t := t.(actualizados := t.actualizados + 1, updates := t.updates + [u]);
        case Failed(m) => t := t.(errores := t.errores + [m]);
      }
      i := i + 1;
    }
    assert os[..i] == os;
  }

  /** The result of the whole sync, and the updates it commits. */
  datatype Sync = Sync(stats: Stats, committed: seq<GopUpdate>)

  function Failure(m: string): Stats {
    Stats(Some(m), 0, 0, 0, [m])
  }

  /** `sync_gop_data` once the table is read (or reading it raised): a
      failure anywhere outside the per-row loop, the commit included, reports
      zero counters, the single message, and commits nothing; otherwise the
      updates the rows call for are committed. */
  function SyncWith(table: Result<seq<CsvRow>>, db: GopDb, now: DateTime, how: NanReading): (s: Sync)
    ensures table.Err? ==> s == Sync(Failure(table.msg), [])
    ensures table.Ok? && db.commitError.Some? ==> s == Sync(Failure(db.commitError.value), [])
    ensures s.stats.error.None? ==> (table.Ok? && s.stats.totalGopEncontrados == |table.value|
      && s.stats.actualizados + s.stats.noEncontrados + |s.stats.errores| <= s.stats.totalGopEncontrados
      && |s.committed| == s.stats.actualizados)
    ensures s.stats.error.None? ==> s.committed == FoundUpdates(table.value, db, now, how)
  {
    match table
    case Err(m) => Sync(Failure(m), [])
    case Ok(rows) =>
      if db.commitError.Some? then Sync(Failure(db.commitError.value), [])
      else
        var os := Outcomes(rows, db, now, how);
        var t := TallyOf(os);
        TallyBalances(os);
        TallyUpdates(rows, db, now, how);
        Sync(Stats(None, |rows|, t.actualizados, t.noEncontrados, t.errores), t.updates)
  }

  /** The id of the case file holding a portal number, 0 when none does. */
  function FileId(nro: string, db: GopDb): int {
    if nro in db.ids then db.ids[nro] else 0
  }

  /** Whether a row's number is on file, as a test on rows. */
  function RowOnFile(db: GopDb, how: NanReading): CsvRow -> bool {
    row => OnFile(RowNumber(row, how), db)
  }

  /** The update a row calls for, as a map on rows. */
  function UpdateFor(db: GopDb, now: DateTime, how: NanReading): CsvRow -> GopUpdate {
    row => RowUpdate(row, FileId(RowNumber(row, how), db), now, how)
  }

  /** The updates the rows call for, in row order: one for every row whose
      portal number is on file, with that file's id. */
  function FoundUpdates(rows: seq<CsvRow>, db: GopDb, now: DateTime, how: NanReading): seq<GopUpdate> {
    KeepMap(rows, RowOnFile(db, how), UpdateFor(db, now, how))
  }

  /** A row is updated exactly when its number is on file. */
  lemma UpdatedIffOnFile(row: CsvRow, db: GopDb, now: DateTime, how: NanReading)
    ensures ProcessRow(row, db, now, how).Updated? <==> OnFile(RowNumber(row, how), db)
    ensures ProcessRow(row, db, now, how).Updated? ==>
      ProcessRow(row, db, now, how).update == RowUpdate(row, db.ids[RowNumber(row, how)], now, how)
  {
  }

  /** One more outcome adds its update, if any, to the tally's updates. */
  lemma TallyStep(os: seq<RowOutcome>, o: RowOutcome)
    ensures TallyOf(os + [o]).updates == TallyOf(os).updates + (if o.Updated? then [o.update] else [])
  {
    assert (os + [o])[..|os|] == os;
  }

  /** Tallying outcomes that update exactly the elements a filter keeps, each
      with the element's image, records the filtered images. */
  lemma {:induction false} TallyKeeps<T>(os: seq<RowOutcome>, xs: seq<T>, keep: T -> bool, f: T -> GopUpdate)
    requires |os| == |xs|
    requires forall i :: 0 <= i < |os| ==> (os[i].Updated? <==> keep(xs[i]))
    requires forall i :: 0 <= i < |os| && os[i].Updated? ==> os[i].update == f(xs[i])
    ensures TallyOf(os).updates == KeepMap(xs, keep, f)
    decreases |xs|
  {
    if |xs| > 0 {
      var n := |xs| - 1;
      assert forall i :: 0 <= i < n ==> os[..n][i] == os[i] && xs[..n][i] == xs[i];
      TallyKeeps(os[..n], xs[..n], keep, f);
      TallyStep(os[..n], os[n]);
      assert os[..n] + [os[n]] == os;
    }
  }

  /** The tally of the loop records exactly the updates the rows call for. */
  lemma TallyUpdates(rows: seq<CsvRow>, db: GopDb, now: DateTime, how: NanReading)
    ensures TallyOf(Outcomes(rows, db, now, how)).updates == FoundUpdates(rows, db, now, how)
  {
    var os := Outcomes(rows, db, now, how);
    var keep := RowOnFile(db, how);
    var f := UpdateFor(db, now, how);
    forall i | 0 <= i < |rows|
      ensures os[i].Updated? <==> keep(rows[i])
      ensures os[i].Updated? ==> os[i].update == f(rows[i])
    {
      UpdatedIffOnFile(rows[i], db, now, how);
    }
    TallyKeeps(os, rows, keep, f);
  }

  /** Every row whose number is on file calls for its file's update. */
  lemma OnFileRowsFound(rows: seq<CsvRow>, db: GopDb, now: DateTime, how: NanReading)
    ensures forall i :: 0 <= i < |rows| && OnFile(RowNumber(rows[i], how), db) ==>
      RowUpdate(rows[i], db.ids[RowNumber(rows[i], how)], now, how) in FoundUpdates(rows, db, now, how)
  {
    var keep := RowOnFile(db, how);
    var f := UpdateFor(db, now, how);
    forall i | 0 <= i < |rows| && OnFile(RowNumber(rows[i], how), db)
      ensures RowUpdate(rows[i], db.ids[RowNumber(rows[i], how)], now, how) in FoundUpdates(rows, db, now, how)
    {
      assert keep(rows[i]);
      KeepMapComplete(rows, keep, f, i);
    }
  }

  /** Every update called for is the update of a row whose number is on file. */
  lemma FoundFromOnFileRows(rows: seq<CsvRow>, db: GopDb, now: DateTime, how: NanReading)
    ensures forall u :: u in FoundUpdates(rows, db, now, how) ==>
      exists i :: (0 <= i < |rows| && OnFile(RowNumber(rows[i], how), db)
        && u == RowUpdate(rows[i], db.ids[RowNumber(rows[i], how)], now, how))
  {
    var keep := RowOnFile(db, how);
    var f := UpdateFor(db, now, how);
    forall u | u in FoundUpdates(rows, db, now, how)
      ensures exists i :: (0 <= i < |rows| && OnFile(RowNumber(rows[i], how), db)
        && u == RowUpdate(rows[i], db.ids[RowNumber(rows[i], how)], now, how))
    {
      KeepMapSound(rows, keep, f, u);
      var i :| 0 <= i < |rows| && keep(rows[i]) && f(rows[i]) == u;
      assert OnFile(RowNumber(rows[i], how), db);
    }
  }

  /** A sync that reads its table and commits updates every case file whose
      portal number is on file, once per row naming it, in row order, and
      nothing else; the updated counter is the number of those rows. */
  lemma SyncUpdatesFilesOnFile(table: Result<seq<CsvRow>>, db: GopDb, now: DateTime, how: NanReading)
    ensures table.Ok? && db.commitError.None? ==>
      SyncWith(table, db, now, how).committed == FoundUpdates(table.value, db, now, how)
      && SyncWith(table, db, now, how).stats.actualizados == |FoundUpdates(table.value, db, now, how)|
    ensures table.Ok? && db.commitError.None? ==>
      forall i :: 0 <= i < |table.value| && OnFile(RowNumber(table.value[i], how), db) ==>
        RowUpdate(table.value[i], db.ids[RowNumber(table.value[i], how)], now, how)
          in SyncWith(table, db, now, how).committed
    ensures table.Ok? && db.commitError.None? ==>
      forall u :: u in SyncWith(table, db, now, how).committed ==>
        exists i :: (0 <= i < |table.value| && OnFile(RowNumber(table.value[i], how), db)
          && u == RowUpdate(table.value[i], db.ids[RowNumber(table.value[i], how)], now, how))
  {
    if table.Ok? && db.commitError.None? {
      assert SyncWith(table, db, now, how).stats.error.None?;
      OnFileRowsFound(table.value, db, now, how);
      FoundFromOnFileRows(table.value, db, now, how);
    }
  }

  /** The sync as intended: a NaN cell reads as blank. */
  function SyncGopData(table: Result<seq<CsvRow>>, db: GopDb, now: DateTime): (s: Sync)
    ensures table.Err? ==> s.stats == Failure(table.msg)
  {
    SyncWith(table, db, now, Intended)
  }

  /** The sync as written: a NaN cell reads as the text `nan`. */
  function SyncGopDataAsWritten(table: Result<seq<CsvRow>>, db: GopDb, now: DateTime): (s: Sync)
    ensures table.Err? ==> s.stats == Failure(table.msg)
  {
    SyncWith(table, db, now, AsWritten)
  }

  /** The failure report has every counter at zero and the one message. */
  lemma FailureReport(m: string)
    ensures var f := Failure(m);
      f.totalGopEncontrados == 0 && f.actualizados == 0 && f.noEncontrados == 0 && f.errores == [m]
  {
  }

  /** A scrape that found no table makes the whole sync fail. */
  lemma NoTableFailsSync(c: Credentials, p: Portal, db: GopDb, now: DateTime)
    requires DirectLogin(c, p).Ok? && FindTable(p.tables).None?
    ensures SyncGopData(ReadBack(DirectScrape(c, p)), db, now).stats == Failure(MissingTable)
  {
  }

  // ---------------------------------------------------------------- the NaN cells

  /** A kept grid row with an empty tray, written and read back, stores the
      tray `nan` as written; read as intended, it stores no tray. */
  lemma NanTrayStored(r: PortalRow, db: GopDb, now: DateTime)
    requires r.bandejaActual == "" && Strip(r.nroSistema) == r.nroSistema && r.nroSistema != ""
    requires r.nroSistema in db.ids && db.ids[r.nroSistema] != 0 && r.nroSistema !in db.failures
    ensures var o := ProcessRow(PortalCsvRow(r), db, now, AsWritten);
      o.Updated? && o.update.bandeja == Some("nan")
    ensures var o := ProcessRow(PortalCsvRow(r), db, now, Intended);
      o.Updated? && o.update.bandeja.None?
  {
    StripUnpadded("nan");
  }

  /** A kept row with no portal number (kept for its file number) is looked up
      under `nan` as written, and skipped as intended. */
  lemma NanNumberLookedUp(r: PortalRow, db: GopDb, now: DateTime)
    requires r.nroSistema == ""
    ensures ProcessRow(PortalCsvRow(r), db, now, AsWritten) != Skipped
    ensures ProcessRow(PortalCsvRow(r), db, now, Intended) == Skipped
  {
    StripUnpadded("nan");
  }

  /** Read as intended, no stored portal column is ever the text `nan` coming
      from an empty cell: every stored tray, user and state is the start of a
      non-empty cell's own text, and a stored entry date comes from one too. */
  lemma IntendedStoresOnlyCellText(row: CsvRow, db: GopDb, now: DateTime)
    requires ProcessRow(row, db, now, Intended).Updated?
    ensures var u := ProcessRow(row, db, now, Intended).update;
      u.bandeja.Some? ==> CellStarts(u.bandeja.value, row.bandejaActual)
    ensures var u := ProcessRow(row, db, now, Intended).update;
      u.usuario.Some? ==> CellStarts(u.usuario.value, row.usuarioAsignado)
    ensures var u := ProcessRow(row, db, now, Intended).update;
      u.estado.Some? ==> CellStarts(u.estado.value, row.estado)
    ensures var u := ProcessRow(row, db, now, Intended).update;
      u.fechaEntrada.Some? ==> row.fechaEntrada.Some? && row.fechaEntrada.value.Val?
  {
    var u := ProcessRow(row, db, now, Intended).update;
    if u.fechaEntrada.Some? {
      assert Strip(ReadCell(row.fechaEntrada, Intended)) != "";
    }
  }

  /** `v` is the start of a cell that holds text. */
  predicate CellStarts(v: string, c: Option<CsvCell>) {
    c.Some? && c.value.Val? && IsPrefix(v, c.value.s)
  }
}
