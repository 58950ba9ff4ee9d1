# Manejo-expedientes core, modelled in Dafny

A Flask application keeps the case files ("expedientes") of a professional
council's endorsement office. Around its CRUD plumbing sit six small
functional cores, all modelled here:

- **Fee closing** (`tasas.dfy`, module `Tasas`). The four endorsement fees
  ("visados": gas, salubridad, eléctrica, electromecánica) are totalled over
  the paid files. The totals are split between two engineers: gas and
  sanitation go to Imlauer, electrical and electromechanical to Onetto.
  Each share is then split 70/30 between engineer and council (CPIM). The
  module also builds the per-file rows and the summary. For a digital file
  it picks the current portal tray and counts days per tray. A closing
  records the paid files' ids, and is refused when no file is paid.
- **Word documents** (`word.dfy`, module `Word`). A table of `<#tag>`
  replacements is built from a file:
  - money is printed in the Argentine style, with Python's `,.2f` and
    `ROUND_HALF_EVEN` modelled exactly and the separators swapped;
  - dates print as dd/mm/yyyy and flags as Sí/No;
  - portal and tray tags read "No aplica" unless the file is digital.

  A paragraph is rewritten by replacing every tag in turn. The tags offered
  to template authors are listed in sorted order.
- **Forms** (`forms.dfy`, module `Forms`). The database URL is normalised
  from `postgres://` to `postgresql://`. Form fields are parsed as booleans,
  integers and dates (ISO first, then day first). The whole edit form is
  parsed and applied to a file. The form a file's edit page submits is
  modelled too, so that saving it unchanged can be stated.
- **Spreadsheet import** (`excel_import.dfy`, module `ExcelImport`). Each
  cell is coerced by its column's kind. Dates are tried in four formats in
  order. The insert loop skips a record whose CPIM number is already on
  file, and fails when the number is on file twice.
- **Portal scraper** (`scraper.dfy`, module `Scraper`). Secrets are masked
  for the log. Credentials are loaded, with a reload fallback. The login
  fields are filled through locator cascades. The paginated tray listing is
  walked one record per grid row, the records are exported, and attachments
  are downloaded.
- **Portal sync** (`gop_sync.dfy`, module `GopSync`). This is the direct
  scraper's login through ordered selector lists, its grid-row filter and
  its table lookup. The sync reads the exported table back and updates
  every file whose portal number is on file. It counts updated, not-found
  and failed rows, and reports a failure anywhere else with zero counters.

Shared pieces:

- `wrappers.dfy`: `Option`/`Result`.
- `text.dfy`: the Python string operations used, namely `strip`, `lower`,
  `capitalize`, `in`, `replace` and `int`/`str`.
- `dates.dfy`: calendar dates, a `strptime` grammar and `strftime`
  renderings.
- `cascade.dfy`: first-success search.
- `expedientes.dfy`: the case-file record.
- `floats.dfy`: Python's `str` of a whole-valued float, which is what the
  import's text coercion prints for a numeric column with gaps. Module
  `Floats` finds the shortest decimal that reads back as the IEEE 754 double.
  Module `FloatText` prints it: fixed `N.0` below 10^16, `d.ddde+XX` from
  there on. It also reads that text back. Module `FloatRoundTrip` proves
  the round trip.

Amounts are `real`, because the source uses `Decimal` and is therefore
exact. "Today", "now", the browser and the database are parameters. A
failure is a `Result.Err` whose message stands for the exception the source
raises. Where the exact text comes from a library or holds a file path, the
model keeps a representative text (see "Left out").

## Model

| member | source | states |
|---|---|---|
| `Tasas.CalcularTotalesPorTipo` | tasas_analyzer.py:210-229 | each per-type total is the sum over the files of that fee, an absent or zero amount adding nothing |
| `Tasas.CalcularHonorarios` | tasas_analyzer.py:231-259 | Imlauer totals gas + salubridad and Onetto eléctrica + electromecánica; each engineer's part and CPIM's part sum to the engineer's total, in a 7:3 ratio; the general ingenieros + CPIM amounts sum to the grand total and equal the sums of the two engineers' parts |
| `Tasas.PrepararFila` | tasas_analyzer.py:265-310 | a file's row reports each present fee (missing or zero as 0), a `total_visados` equal to the sum of the four, the payment label and the tray info |
| `Tasas.PrepararDatos` | tasas_analyzer.py:261-312 | one row per file, in order |
| `Tasas.FileTotalsMatchTypeTotals` | tasas_analyzer.py:219-227 | the per-file `total_visados` of the paid files add up to the sum of the four per-type totals |
| `Tasas.CrearResumen` | tasas_analyzer.py:314-325 | `total_expedientes` is paid + unpaid; `total_general` is the sum of the four type totals; the fee fields are the engineers' and CPIM's shares |
| `Tasas.Analizar` | tasas_analyzer.py:75-93 | the period bounds are kept; the i-th paid row is the row prepared for the i-th paid file; the unpaid rows are the rows prepared for the unpaid files, and only when requested; the type totals come from the paid files alone and the fees from those totals |
| `Tasas.AnalysisBalances` | tasas_analyzer.py:75-93 | in an analysis the summary total equals the sum of the paid rows' totals and the grand fee total, and the three fee shares add back to it |
| `Tasas.Rank` | tasas_analyzer.py:432-457 | every tray kind has its place in the fixed cpim, imlauer, onetto, profesional order |
| `Tasas.BandejaActual` | tasas_analyzer.py:464-474 | there is no current tray exactly when no tray is both named and dated; otherwise it is a named, dated tray whose date no other such tray strictly exceeds, and a tray later in the order beats an earlier one only with a strictly later date |
| `Tasas.TotalDias` | tasas_analyzer.py:461-469 | the system days are the sum of the days of every dated tray |
| `Tasas.InfoBandejas` | tasas_analyzer.py:417-492 | a file is paper exactly when its format is `Papel`; otherwise every tray's days, the total, the current tray and whether any tray is named are reported |
| `Tasas.CurrentTrayHasFewestDays` | tasas_analyzer.py:467-474 | the current tray has no more days than any other named, dated tray |
| `Tasas.TotalDiasNonNegative` | tasas_analyzer.py:467-469 | with no tray dated in the future the system days are not negative |
| `Tasas.CrearCierre` | tasas_analyzer.py:343-388 | a closing fails exactly when no file is paid; otherwise it holds the paid files' ids in order, the engineers', CPIM and grand totals of the analysis, and the user or `Sistema` |
| `Tasas.ClosingBalances` | tasas_analyzer.py:343-357 | a closing over at least one paid file succeeds, its three shares add up to its grand total, and the grand total is the sum of the included files' totals |
| `Word.RoundCents` | word_generator.py:107 | `,.2f` rounds to the nearest cent with ties going to the even cent |
| `Word.GroupThousandsDigits` | word_generator.py:107 | taking the separators out of the grouped whole part leaves `str(n)`, which reads back as `n` |
| `Word.GroupThousandsLayout` | word_generator.py:107 | the separators sit exactly every four places from the right end and never in front, so every group after the first has three digits |
| `Word.FormatMontoIsPesos` | word_generator.py:104-108 | every amount prints as `$ `, sign, `.`-grouped pesos, `,` and two-digit cents; a missing or zero amount prints as zero pesos |
| `Word.ReplacesAreSwap` | word_generator.py:107 | the three chained `replace` calls act character by character: `,` becomes `.`, `.` becomes `,`, and a literal `X` becomes `.` |
| `Word.SwapPyMoney` | word_generator.py:107 | swapping the separators of Python's rendering gives the Argentine one |
| `Word.SwapInvolution` | word_generator.py:107 | on text without `X` the separator swap is its own inverse |
| `Word.PesosSwapsBack` | word_generator.py:104-108 | swapping the Argentine rendering back gives Python's `,.2f` rendering, so the two carry the same information |
| `Word.GroupSeparatorSwap` | word_generator.py:107 | the `,`-grouped and `.`-grouped whole parts differ only at the separators |
| `Word.FormatFecha` | word_generator.py:110-114 | a date prints as `-` exactly when it is missing |
| `Word.FormatFechaHoraReadsBack` | word_generator.py:116-120 | a missing timestamp prints `-`; a present one with a four-digit year prints 16 characters: its date as dd/mm/yyyy, which parses back to the date, a space, then hour and minute as two digits each around a `:`, which read back as the timestamp's |
| `Word.SiNo` | word_generator.py:122-124 | `Sí` exactly for a true flag, `No` exactly for a false one |
| `Word.Count` | word_generator.py:134 | a present non-zero count prints as a numeral that parses back to it; missing or zero prints `-` |
| `Word.EstadoPago` | word_generator.py:153-154 | a missing or empty payment status prints `Pendiente` |
| `Word.DatosGop` | word_generator.py:186-193 | the portal section fills exactly the seven portal tags |
| `Word.BandejasGop` | word_generator.py:195-210 | the tray section fills exactly the twelve tray tags |
| `Word.Montos` | word_generator.py:156-167 | the amounts section fills the five fee tags, their five `_monto` aliases and the endorsement total |
| `Word.GopGating` | word_generator.py:187-193 | a file that is not digital gets `No aplica (formato papel)` for the portal number and `No aplica` for every other portal tag; a digital one shows its portal number, or `No asignado`, and its entry date |
| `Word.TrayGating` | word_generator.py:196-210 | every tray tag of a non-digital file reads `No aplica`; a digital one shows its trays' data, such as the CPIM tray's name, or `-`, and date |
| `Word.AmountAliasesAgree` | word_generator.py:157-166 | each `_monto` alias prints the same text as its short tag |
| `Word.Lookup` | word_generator.py:127-211 | a lookup finds a value exactly when the key is in the table, and the value is an entry stored under that key |
| `Word.ReplaceTagsAbsent` | word_generator.py:280-285 | with no tag in the text the replacement loop leaves it unchanged |
| `Word.GuardIsShortcut` | word_generator.py:279-290 | the new paragraph text is always what replacing every tag in table order gives; without tags the paragraph is left untouched |
| `Word.Sort` | word_generator.py:340 | the result is ordered and a permutation of the input |
| `Word.ListarEtiquetas` | word_generator.py:293-340 | the listed tags are sorted and are exactly the catalogue's tags |
| `Word.ReemplazosKeys` | word_generator.py:127-211 | the replacement table's keys are the sections' tags, in insertion order, whatever the file |
| `Word.ListedTagsAreReplaced` | word_generator.py:302-340 | every listed tag is a key of the replacement table |
| `Word.ListingOmitsAliases` | word_generator.py:302-340 | the listing has five tags fewer than the table: the `_monto` aliases |
| `Forms.NormalizeDbUrl` | app.py:14-18 | a URL starting with `postgres://` has only that prefix replaced by `postgresql://`; any other URL is returned unchanged |
| `Forms.NormalizeIdempotent` | app.py:14-18 | normalising twice is normalising once |
| `Forms.NormalizeKeepsRest` | app.py:14-18 | normalisation never changes what follows the scheme |
| `Forms.ParseBool` | app.py:142-143 | true exactly when the lower-cased text is one of the seven accepted words; a missing field is false |
| `Forms.ParseBoolIgnoresCase` | app.py:142-143 | upper-casing the input does not change the answer |
| `Forms.ParseIntField` | app.py:159-163 | a number exactly when the stripped text is an integer literal and the text holds none of the information separators U+001C to U+001F, which `int()` does not skip, and `None` for a missing field; the number is the one whose `str` is the literal with `+` and leading zeros dropped and `-` kept only on a value that is not zero |
| `Forms.ParseDateField` | app.py:145-157 | blank or missing is no date; otherwise the stripped text's ISO reading when ISO accepts it, and its day-first reading (a date or none) when ISO does not |
| `Forms.DateFieldRoundTrip` | app.py:149-151 | a date the browser's date input sends is read back as that date |
| `Forms.DateFieldDayFirst` | app.py:153-155 | a date typed day first with a four-digit year is read back as that date |
| `Forms.BuildGet` | app.py:165-188 | a form built from distinct field names returns each field's value |
| `Forms.ParseFormRoundTrip` | app.py:165-188 | the form the edit page submits for some data parses back to that data, each empty text field now holding the empty string; data without an empty text field parses back unchanged |
| `Forms.ApplyForm` | app.py:124-129 | the record's form fields become exactly the parsed data, and every other column is kept: the id, the portal numbers, the amounts, the timestamps, the closing flag, the portal data and the trays |
| `Forms.RecordIsFormAndRest` | app.py:36-72 | two records with the same form fields and the same other columns are the same record, so applying a form changes nothing beyond the form fields |
| `Forms.ResubmitKeepsRecord` | app.py:124-129 | saving a file's edit page unchanged keeps every column, except that an empty text column now holds the empty string; a file without an empty text column is left exactly as it was |
| `ExcelImport.ToBool` | import_from_excel.py:46-50 | a missing cell is false; otherwise true exactly when the stripped, lower-cased text is one of the eight accepted words |
| `ExcelImport.ToBoolOfFlags` | import_from_excel.py:46-50 | for either boolean cell, the cell counts as ticked exactly when it holds TRUE |
| `ExcelImport.ToBoolOfFloatOne` | import_from_excel.py:46-50 | a float 1.0 does not count as ticked |
| `ExcelImport.ToInt` | import_from_excel.py:53-57 | whole and float cells give their value; text converts exactly when its stripped form is an integer literal and it holds none of the information separators U+001C to U+001F, to the number whose `str` is that literal with `+` and leading zeros dropped and `-` kept only on a value that is not zero; missing and date cells give `None` |
| `ExcelImport.ToDate` | import_from_excel.py:60-70 | a missing or empty cell is no date, a date cell gives its date, other cells take the first of the four formats that accepts their text |
| `ExcelImport.ToDateDayFirst` | import_from_excel.py:65-70 | an ambiguous `aa/bb/yyyy` is read day first |
| `ExcelImport.ToDateIso` | import_from_excel.py:65-67 | an ISO text is read as the date it names |
| `ExcelImport.Convert` | import_from_excel.py:102-109 | each field is coerced by its column's kind, and a missing text cell becomes `None`; any other text-column cell becomes its Python `str`, so a float cell from 10^16 on is in exponent notation (`1e+16`) |
| `FloatText.FloatStr` | import_from_excel.py:109 | a whole-valued float prints with a leading `-` exactly when negative, and with an exponent exactly when its magnitude is at least 10^16 |
| `FloatRoundTrip.FloatStrReadsBack` | import_from_excel.py:109 | the printed text reads back as the float itself below 10^16, and from there on as the float's shortest decimal with the float's sign |
| `FloatRoundTrip.ScientificReadsBack` | import_from_excel.py:109 | the exponent form of a number from 10^16 on (trailing zeros of the mantissa dropped, one digit before the point) reads back as that number |
| `FloatRoundTrip.FixedIsShortest` | import_from_excel.py:109 | in fixed notation, a double from 2^53 up to 10^16 prints as its shortest decimal followed by `.0` |
| `Floats.ShortestRoundsBack` | import_from_excel.py:109 | the shortest decimal of a double from 2^53 on is positive and rounds to that double under round-half-to-even |
| `Floats.ShortestHasMostZeros` | import_from_excel.py:109 | no decimal that rounds to the double has more trailing zeros than its shortest decimal |
| `Floats.FixedRangeExact` | import_from_excel.py:109 | from 2^53 up to 10^16 the shortest decimal of a double is the double itself |
| `Floats.ShortestStaysAbove` | import_from_excel.py:109 | from 10^16 on the shortest decimal is still at least 10^16, so it is printed with an exponent |
| `Floats.Pick` | import_from_excel.py:109 | of the two multiples of 10^j around the double, a result is one that rounds to the double; none is given exactly when neither does |
| `Floats.ChooseNearest` | import_from_excel.py:109 | when both multiples round to the double the nearer is chosen, and on a tie the one whose last kept digit is even |
| `Floats.Search` | import_from_excel.py:109 | the result rounds to the double with the given number of trailing zeros, and no larger power of ten up to the bound has a multiple chosen |
| `ExcelImport.ColumnIndex` | import_from_excel.py:93-100 | a column is found exactly when some stripped header equals its name, the first such header |
| `ExcelImport.ConvertRow` | import_from_excel.py:96-110 | a field is set exactly when its column is present in the sheet, and then holds that column's coerced cell |
| `ExcelImport.ConvertedKinds` | import_from_excel.py:102-109 | the four endorsement fields are booleans and the CPIM number is text or `None` |
| `ExcelImport.ImportRecords` | import_from_excel.py:113-125 | the insert loop fails exactly when the import specification does; otherwise it adds the specified records and `created` counts them |
| `ExcelImport.ImportFailsIff` | import_from_excel.py:115-118 | the import raises exactly when some record's CPIM number is already on file at least twice |
| `ExcelImport.AddedKeysFresh` | import_from_excel.py:115-123 | every added record with a number brings a number not on file before, and no two added records share a number |
| `ExcelImport.KeylessAlwaysAdded` | import_from_excel.py:117-123 | records without a CPIM number are always added, in order |
| `ExcelImport.NewKeysAreAdded` | import_from_excel.py:117-123 | every number not on file before the import is on file after it |
| `ExcelImport.ImportSheet` | import_from_excel.py:88-125 | an empty sheet imports nothing; otherwise the rows are converted and imported as specified |
| `Scraper.Mask` | gop_scraper/src/gop_scraper/scraper.py:11-13 | a missing or empty secret prints `(vacío)`; any other keeps its length, shows its first `show` characters and bullets the rest |
| `Scraper.MaskShortUnchanged` | gop_scraper/src/gop_scraper/scraper.py:13 | a secret no longer than `show` prints unchanged |
| `Scraper.MaskHidesRest` | gop_scraper/src/gop_scraper/scraper.py:13 | two secrets of one length that agree on the first `show` characters print the same |
| `Scraper.LoadEnv` | gop_scraper/src/gop_scraper/scraper.py:15-28 | complete credentials are used as found; otherwise the reloaded ones are used when complete; the load fails exactly when neither is complete |
| `Scraper.FillWith` | gop_scraper/src/gop_scraper/scraper.py:35-55 | a field is filled by the first locator in order that works, and none when no locator works |
| `Scraper.Login` | gop_scraper/src/gop_scraper/scraper.py:30-86 | the login as intended uses the first working locator for each field; it raises the fields error exactly when either field has none; with both fields filled it succeeds exactly when the submit selector or the button named "Ingresar" or "Login" clicks, and otherwise fails with the button's timeout; the submit selector is used exactly when it clicks |
| `Scraper.LoginAsWritten` | gop_scraper/src/gop_scraper/scraper.py:83-86 | the login as written succeeds exactly when the intended one does through the submit selector, and then agrees with it; a login that needs the named button fails with the role lookup's error |
| `Scraper.NamedButtonExample` | gop_scraper/src/gop_scraper/scraper.py:83-86 | a screen whose submit selector misses and whose "Ingresar" button clicks fails as written and logs in as intended |
| `Scraper.CssBeforeFallbacks` | gop_scraper/src/gop_scraper/scraper.py:35-55 | when a CSS selector works, the label and placeholder fallbacks are never consulted |
| `Scraper.Column` | gop_scraper/src/gop_scraper/scraper.py:102 | a missing column reads as empty, a present one as its stripped text |
| `Scraper.DetailUrl` | gop_scraper/src/gop_scraper/scraper.py:103-110 | a row of at most eight cells has no detail link; otherwise the link is the ninth cell's `href`, empty when that cell has none |
| `Scraper.CollectPageRows` | gop_scraper/src/gop_scraper/scraper.py:90-122 | one record per grid row, in row order, none dropped |
| `Scraper.CollectConcat` | gop_scraper/src/gop_scraper/scraper.py:98-121 | collecting two stretches of rows is collecting them together |
| `Scraper.ShortRowKept` | gop_scraper/src/gop_scraper/scraper.py:102-121 | a row with fewer than six cells still yields a record, its missing columns empty |
| `Scraper.Visited` | gop_scraper/src/gop_scraper/scraper.py:166-188 | the walk visits pages up to the first one whose next control does not advance |
| `Scraper.WalkIsConcat` | gop_scraper/src/gop_scraper/scraper.py:166-188 | unless the last visited page raised, all rows are the visited pages' rows concatenated in visit order |
| `Scraper.WalkPages` | gop_scraper/src/gop_scraper/scraper.py:166-188 | the pagination loop computes the walk |
| `Scraper.ExportAsWritten` | gop_scraper/src/gop_scraper/scraper.py:190-192 | the export raises exactly when no row was collected |
| `Scraper.Export` | gop_scraper/src/gop_scraper/scraper.py:190-192 | one table row per record, without the state column |
| `Scraper.EmptyListingFailsAsWritten` | gop_scraper/src/gop_scraper/scraper.py:190-197 | after a login through the submit selector, a run that collects no rows raises as written while the corrected run yields an empty table, and with rows the two runs agree; a login through the named button fails as written |
| `Scraper.EmptyListingExample` | gop_scraper/src/gop_scraper/scraper.py:190-197 | a concrete one-page empty listing shows the two behaviours |
| `Scraper.RunScraper` | gop_scraper/src/gop_scraper/scraper.py:151-200 | a run succeeds exactly when credentials, login and the page walk succeed, and its table is then the export of every walked record; otherwise the first failing step's error ends the run unchanged |
| `Scraper.TryDownloadPdfs` | gop_scraper/src/gop_scraper/scraper.py:124-126 | a record without a detail link downloads nothing |
| `Scraper.SavesAtMostWanted` | gop_scraper/src/gop_scraper/scraper.py:132-146 | at most one download per link whose text or target looks like a PDF |
| `Scraper.LaterLinksIrrelevant` | gop_scraper/src/gop_scraper/scraper.py:136-147 | once a document link's click raises or its download does not come, no later link is downloaded |
| `Cascade.FirstSuccess` | gop_integration.py:85-93 | the chosen attempt succeeded and every earlier one failed; there is none exactly when all fail |
| `Cascade.LaterAttemptsIrrelevant` | gop_integration.py:85-93 | fallbacks after a success never change the choice |
| `GopSync.Choose` | gop_integration.py:85-98 | the first selector in list order that works is used; none exactly when none works |
| `GopSync.ChooseIgnoresLater` | gop_integration.py:85-93 | appending fallback selectors after one that works changes nothing |
| `GopSync.DirectLogin` | gop_integration.py:41-172 | the login succeeds exactly when the credentials are complete, the landing page is the login page, the user, password and submit lists each have a working selector, the page leaves the login address and the tray listing opens; it then uses the first working selector of each list |
| `GopSync.KeptRows` | gop_integration.py:208-236 | no more rows are kept than the grid has |
| `GopSync.KeptRowsConcat` | gop_integration.py:208-236 | kept rows keep grid order: filtering two stretches is filtering them together |
| `GopSync.KeptRowsSound` | gop_integration.py:214-226 | every kept row comes from a grid row of six or more cells that names a portal number or a file |
| `GopSync.KeptRowsComplete` | gop_integration.py:214-236 | every grid row of six or more cells naming a portal number or a file is kept |
| `GopSync.CollectGrid` | gop_integration.py:208-236 | the grid loop keeps exactly the kept rows |
| `GopSync.FindTable` | gop_integration.py:178-203 | a table found has rows; none is found exactly when every table selector finds no rows; a table found is the one of the first selector, in list order, that finds rows (lines 189-196) |
| `GopSync.DirectScrape` | gop_integration.py:34-255 | the scrape succeeds exactly when the login does, passing its error on otherwise; it reports no table exactly when no table selector finds rows, and otherwise the kept rows of the table found |
| `GopSync.ReadBack` | gop_integration.py:264-267 | a scrape that found no table leaves no file to read, and reading it fails; a failed scrape passes its error on; otherwise the i-th row read back is the i-th portal row, its empty values as NaN |
| `GopSync.ReadCell` | gop_integration.py:340-342 | an absent column reads as empty; a NaN cell reads as `nan` as written and as empty as intended |
| `GopSync.Truncate` | gop_integration.py:294-296 | an empty value is stored as `None`; any other is cut to at most the column width, keeping its start |
| `GopSync.EntryDate` | gop_integration.py:322-333 | empty or `nan` is no date; otherwise the first of ISO, d/m/Y, d-m-Y that accepts the stripped text, and none when all fail |
| `GopSync.ReadingsAgreeWithoutNan` | gop_integration.py:312-348 | a row without a NaN cell is processed alike whether NaN reads as `nan` or as blank |
| `GopSync.IntendedSkipsBlankNumbers` | gop_integration.py:314-316 | read as intended, a row is skipped exactly when its portal number column is absent, empty or all whitespace |
| `GopSync.TallyBalances` | gop_integration.py:304-351 | every row lands in exactly one of updated, not found, errors or skipped, and one update is committed per updated row |
| `GopSync.SyncRows` | gop_integration.py:312-351 | updated + not found + errors never exceed the rows read |
| `GopSync.SyncWith` | gop_integration.py:262-371 | a failure outside the loop gives zero counters, the single message and nothing committed; otherwise the total is the number of rows, the counters stay within it, and the committed updates are those the rows on file call for |
| `GopSync.SyncUpdatesFilesOnFile` | gop_integration.py:312-354 | a sync that reads its table and commits updates the file of every row whose stripped number is held by a truthy id and raises no error, with that id, in row order; every committed update comes from such a row, and the updated counter is their number |
| `GopSync.FailureReport` | gop_integration.py:364-371 | the failure report has every counter at zero and the one message |
| `GopSync.NoTableFailsSync` | gop_integration.py:200-203 | a scrape that finds no table makes the whole sync report a failure |
| `GopSync.NanTrayStored` | gop_integration.py:340-342 | a portal row with an empty tray whose number is on file stores the tray `nan` as written, and no tray as intended |
| `GopSync.NanNumberLookedUp` | gop_integration.py:314-316 | a kept row without a portal number is looked up as written, and skipped as intended |
| `GopSync.IntendedStoresOnlyCellText` | gop_integration.py:294-296 | read as intended, every stored tray, user and state is the start of a non-empty cell's own text, and a stored entry date comes from a non-empty cell |
| `Dates.ParseFirst` | import_from_excel.py:65-70 | the first format that accepts the text decides, and no date means every format refused it |
| `Dates.FormatIsoRoundTrip` | app.py:149-151 | an ISO-formatted date parses back to itself |
| `Dates.FormatDmyRoundTrip` | word_generator.py:113 | a dd/mm/yyyy rendering with a four-digit year parses back to the date |
| `Dates.DayFirstIsNotIso` | app.py:150-155 | a text read day first is never also read as ISO, so the ISO attempt fails before the fallback |
| `Text.Strip` | app.py:146 | the result is the input with leading and trailing whitespace cut away and no whitespace at either end; whitespace is Python's set: the ASCII controls, the space, NEL, no-break space and the Unicode space and separator characters |
| `Text.StripIdempotent` | app.py:146 | stripping twice is stripping once |
| `Text.IntRoundTrip` | app.py:159-163 | `int(str(n)) == n` |
| `Text.ParseIntAccepts` | app.py:159-163 | `int()` accepts a text exactly when `str.strip()` leaves an integer literal and the text holds no information separator U+001C to U+001F; then `int()` and `str.strip()` cut the same whitespace |
| `Text.ParseIntSpelling` | app.py:159-163 | the number `int()` reads is the one whose `str` is the literal `int()` keeps, with `+` and leading zeros dropped and `-` kept only on a value that is not zero |

## Left out

- Database, ORM and session work is left out because it is I/O: the queries
  of the period analysis, the SQL fallback analysis, the closing's UPDATE and
  commit, and the model-registry lookups. Lookups and updates are parameters
  (a key multiset, an id map) or results.
- Browser automation is abstracted as what each step observes:
  - navigation, waits and screenshots are left out;
  - a selector either works or not;
  - the table rows are given as cell texts;
  - per-row extraction exceptions are left out.
- CSV and spreadsheet reading and writing are abstracted. Only the `na`
  reading of an empty field is modelled; other pandas NA tokens (`NA`,
  `N/A`, `null`, ...) and dtype inference are left out. Under dtype inference
  an all-digit column reads as integers and one with gaps as floats (`123.0`).
- `GopSync.ReadBack`: a table written from zero rows reads back as zero rows.
  How pandas reads a column-less file is not modelled.
- `GopSync.SyncWith`: a failing statement leaves the rest of the loop
  unaffected. PostgreSQL would abort the transaction after the first failure;
  that is not modelled.
- `GopSync.SyncWith`: every update is stamped with one sync time `now`. The
  source reads the clock once per row (gop_integration.py:298), so its stamps
  may differ by row; the model promises nothing about their order.
- `GopSync.ReadBack`: the missing-file error keeps only the
  `[Errno 2] No such file or directory` prefix. The path that follows it in
  the source is built from the output directory and the clock.
- `Scraper.Login`: the failure texts `SubmitTimeout` and `NameNotText` are
  representative. Playwright's own messages add the method name and a call
  log.
- `Forms.ApplyForm`: the `updated_at` column's `onupdate` stamp
  (app.py:72) is left out, because it is the clock and the ORM's change
  tracking. The model keeps `updatedAt` as it was.
- The edit page's template is not part of this model. Its client is assumed
  to send every text input and select, an empty one as the empty string,
  dates in ISO form, numbers in decimal, and a ticked checkbox as `on`.
- `ExcelImport.ColumnIndex`: a sheet whose headers coincide once stripped
  (`fecha` and `fecha `, say) is not modelled. The source then reads a
  series for that column, where `to_int` gives `None` and the other
  conversions raise; the model reads the first such column.
- The import's fallback is not modelled: `_run_gop_scraper` tries the
  packaged scraper and falls back to the direct one on `ImportError`. Both
  scrapers are modelled separately.
- `Scraper.TryDownloadPdfs` states only the no-link guard in its own
  contract. The count bound is in `Scraper.SavesAtMostWanted`. Download
  file naming and directories are I/O. The function is not called by the
  scraper's own run.
- python-docx document handling is left out: sections, tables, headers and
  runs. A paragraph is its text.
- `strptime` is modelled by a grammar:
  - `%Y` is exactly four ASCII digits;
  - `%m` and `%d` are one or two ASCII digits;
  - then calendar validity.

  Space-padded days and non-ASCII digits are left out.
- `Dates.FormatDmyRoundTrip` holds for years of four digits. Years below
  1000 print unpadded and are not read back by `%Y`.
- `int()` is modelled on ASCII digit literals with sign and surrounding
  whitespace. The whitespace is `int()`'s own: every `str.isspace`
  character except the information separators U+001C to U+001F.
  Underscore separators and non-ASCII digits are left out.
- Float cells are modelled only as whole numbers. Non-integral floats in a
  spreadsheet are left out.
- `Floats.IsDouble` does not bound the magnitude: whole numbers beyond the
  largest double (about 1.8e308), which a spreadsheet cannot hold, are
  admitted as float cells and printed by the same rule.
- `FloatText.ReadFloatStr` reads only the two forms `FloatText.FloatStr`
  prints. It is the partner of the printer, not a model of Python's
  `float()`.
- `str.lower`/`capitalize` cover ASCII and the Latin-1 capitals. Full
  Unicode case mapping is left out.
- `Word.Montos`: values a file holds are not checked for containing tags.
  A replacement value that itself contains a later tag would be rewritten
  again, as in the source; no property is claimed about it.
- The admin and user scripts, DB inspection and cleanup, table creation,
  migrations, the Playwright installer, `config.py`, `selectors.py` and
  `utils.py` are plumbing. The selector constants used are copied into the
  model.

## Findings

| source | as written | input that shows it | evidently intended | confidence | as-written member | corrected member |
|---|---|---|---|---|---|---|
| gop_scraper/src/gop_scraper/scraper.py:190-191 | the table is built from the collected rows and then its six columns are selected; with no rows the table has no columns and the selection raises `KeyError`, so the zero-row diagnostic at lines 194-197 is unreachable | a successful login and one listing page with an empty grid and no next control | an empty table with the six headers is written, and the diagnostic screenshot is taken | high; not executed | `Scraper.RunScraperAsWritten`, shown by `Scraper.EmptyListingFailsAsWritten` and `Scraper.EmptyListingExample` | `Scraper.RunScraper` with `Scraper.Export` (`Scraper.EmptyScrapeRaises`: the empty scrape gives an empty table) |
| gop_scraper/src/gop_scraper/scraper.py:83-86 | when the submit selector does not click, the fallback looks the button up by role with a function as its name; the role lookup escapes the name as text, so the call raises `AttributeError` before anything is clicked | a login screen whose submit selector misses and whose "Ingresar" button is clickable | the button whose name contains "Ingresar" or "Login" is clicked, as a text or pattern name would do | medium; not executed | `Scraper.LoginAsWritten`, shown by `Scraper.NamedButtonExample` | `Scraper.Login` |
| gop_integration.py:340-342 | empty cells of the scraped table read back as NaN, and `str(NaN)` is the text `nan`, which is truthy and stored as the tray, user or state; a row kept for its file number alone is looked up under portal number `nan` and counted as not found instead of skipped | a grid row with a portal number on file and an empty tray column | an empty cell stores `None`, as the entry-date branch at line 325 already does by testing for `nan` | medium; not executed | `GopSync.SyncGopDataAsWritten`, shown by `GopSync.NanTrayStored` and `GopSync.NanNumberLookedUp` | `GopSync.SyncGopData` (`GopSync.IntendedStoresOnlyCellText`) |
