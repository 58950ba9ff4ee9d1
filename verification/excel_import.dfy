/** The one-off spreadsheet import: every sheet row becomes a case-file record
    through a fixed column map with per-kind cell coercion, and the records
    are inserted unless their CPIM number is already on file. */
module ExcelImport {
  import opened Wrappers
  import opened Text
  import opened Dates
  import opened Floats
  import opened FloatText

  // ---------------------------------------------------------------- cells

  /** A sheet cell as the spreadsheet reader hands it over: missing (NaN or
      NaT), text, a whole number, a whole number stored as a float (a numeric
      column with gaps), a boolean, or a date-time at midnight. */
  datatype Cell = Nan | Text(s: string) | Whole(i: int) | Float(f: WholeDouble) | Flag(b: bool) | Stamp(d: CalendarDate)

  /** Python's `str` of a cell. */
  function CellStr(c: Cell): string {
    match c
    case Nan => "nan"
    case Text(s) => s
    case Whole(i) => IntToString(i)
    case Float(f) => FloatStr(f)
    case Flag(b) => if b then "True" else "False"
    case Stamp(d) => FormatIso(d) + " 00:00:00"
  }

  const TruthyCellWords: set<string> := {"1", "true", "t", "si", "sí", "x", "yes", "y"}

  /** `to_bool`: a missing cell is false; otherwise the stripped, lower-cased
      text must be one of the accepted words. */
  function ToBool(c: Cell): (b: bool)
    ensures c.Nan? ==> !b
    ensures !c.Nan? ==> (b <==> Lower(Strip(CellStr(c))) in TruthyCellWords)
  {
    if c.Nan? then false else Lower(Strip(CellStr(c))) in TruthyCellWords
  }

  /** A spreadsheet `TRUE` counts as ticked and `FALSE` does not. */
  lemma ToBoolOfFlags(b: bool)
    ensures ToBool(Flag(b)) == b
  {
    FlagWord(b);
  }

  /** What `to_bool` compares for a boolean cell: Python's spelling of it,
      lower-cased. */
  lemma FlagWord(b: bool)
    ensures Lower(Strip(CellStr(Flag(b)))) == (if b then "true" else "false")
  {
    var s := CellStr(Flag(b));
    assert s == (if b then "True" else "False");
    StripUnpadded(s);
    LowerOfFlags();
  }

  /** Python's spelling of the two booleans, lower-cased. */
  lemma LowerOfFlags()
    ensures Lower("True") == "true" && Lower("False") == "false"
  {
    var t, f := Lower("True"), Lower("False");
    assert t[0] == 't' && t[1] == 'r' && t[2] == 'u' && t[3] == 'e';
    assert f[0] == 'f' && f[1] == 'a' && f[2] == 'l' && f[3] == 's' && f[4] == 'e';
  }

  /** A float `1.0`, what a column of ones with gaps holds, does not count as
      ticked. */
  lemma ToBoolOfFloatOne()
    ensures !ToBool(Float(1))
  {
    var one := IntToString(1) + ".0";
    assert one == "1.0";
    StripUnpadded(one);
    assert Lower(one) == "1.0";
  }

  /** `to_int`: `int(val)`, any failure becoming `None`; a text cell reads
      as a number exactly when its stripped text is a literal and the text
      holds no information separator. */
  function ToInt(c: Cell): (r: Option<int>)
    ensures c.Nan? || c.Stamp? ==> r.None?
    ensures c.Text? ==> (r.Some? <==> IsIntLiteral(Strip(c.s)) && NoInfoSeparators(c.s))
    ensures c.Text? && r.Some? ==> IntToString(r.value) == CanonicalLiteral(Strip(c.s))
    ensures c.Whole? ==> r == Some(c.i)
    ensures c.Float? ==> r == Some(c.f)
  {
    match c
    case Nan => None
    case Text(s) => ParseIntAccepts(s); ParseIntSpelling(s); ParseInt(s)
    case Whole(i) => Some(i)
    case Float(f) => Some(f)
    case Flag(b) => Some(if b then 1 else 0)
    case Stamp(_) => None
  }

  /** The formats `to_date` tries, in order. */
  const CellDateFormats: seq<Format> := [Iso, Dmy('/'), Dmy('-'), Mdy('/')]

  /** `to_date`: a missing or empty cell is no date, a date cell gives its
      date, anything else is read with the first format that accepts its
      text. */
  function ToDate(c: Cell): (r: Option<CalendarDate>)
    ensures c.Nan? || c == Text("") ==> r.None?
    ensures c.Stamp? ==> r == Some(c.d)
    ensures !c.Nan? && !c.Stamp? && c != Text("") ==> r == ParseFirst(CellStr(c), CellDateFormats)
  {
    match c
    case Nan => None
    case Stamp(d) => Some(d)
    case _ => if c == Text("") then None else ParseFirst(CellStr(c), CellDateFormats)
  }

  /** A text both orders can read, like `03/04/2024`, is read day first. */
  lemma ToDateDayFirst(s: string)
    requires Parse(s, Dmy('/')).Some?
    ensures ToDate(Text(s)) == Parse(s, Dmy('/'))
  {
    DayFirstIsNotIso(s);
    assert FirstAccepting(s, CellDateFormats) == 1;
  }

  /** An ISO text is read as the date it names. */
  lemma ToDateIso(d: CalendarDate)
    ensures ToDate(Text(FormatIso(d))) == Some(d)
  {
    FormatIsoRoundTrip(d);
    assert FirstAccepting(FormatIso(d), CellDateFormats) == 0;
  }

  // ---------------------------------------------------------------- columns

  /** The field a sheet column is converted into. */
  datatype FieldValue =
    | BoolV(b: bool)
    | IntV(i: Option<int>)
    | DateV(d: Option<CalendarDate>)
    | TextV(t: Option<string>)

  /** Spreadsheet header to case-file field, in the map's order. */
  const ColumnMap: seq<(string, string)> := [
    ("Fecha", "fecha"),
    ("Profesión", "profesion"),
    ("Formato", "formato"),
    ("Nro de Copias", "nro_copias"),
    ("Tipo de trabajo", "tipo_trabajo"),
    ("Nro de expediente CPIM", "nro_expediente_cpim"),
    ("Nombre del Profesional", "nombre_profesional"),
    ("Nombre del Comitente", "nombre_comitente"),
    ("Ubicación", "ubicacion"),
    ("Visado de instalacion de Gas", "visado_gas"),
    ("Visado de instalacion de Salubridad", "visado_salubridad"),
    ("Visado de instalacion electrica", "visado_electrica"),
    ("Visado de instalacion electromecanica", "visado_electromecanica"),
    ("Estado pago sellado", "estado_pago_sellado"),
    ("Estado pago visado", "estado_pago_visado"),
    ("Fecha de salida", "fecha_salida"),
    ("Persona que retira", "persona_retira"),
    ("Nro de Caja", "nro_caja"),
    ("Ruta de carpeta", "ruta_carpeta"),
    ("WhatsApp Profesional", "whatsapp_profesional"),
    ("WhatsApp Tramitador", "whatsapp_tramitador")
  ]

  const BooleanCols: set<string> := {"visado_gas", "visado_salubridad", "visado_electrica", "visado_electromecanica"}
  const IntCols: set<string> := {"nro_copias", "nro_caja"}
  const DateCols: set<string> := {"fecha", "fecha_salida"}

  /** The position of the CPIM number in the column map. */
  const KeyColumn: nat := 5

  /** The coercion each column gets, checked in the order boolean, integer,
      date, text. */
  function Convert(dst: string, c: Cell): (v: FieldValue)
    ensures dst in BooleanCols ==> v == BoolV(ToBool(c))
    ensures dst !in BooleanCols && dst in IntCols ==> v == IntV(ToInt(c))
    ensures dst !in BooleanCols && dst !in IntCols && dst in DateCols ==> v == DateV(ToDate(c))
    ensures dst !in BooleanCols && dst !in IntCols && dst !in DateCols ==>
      v == TextV(if c.Nan? then None else Some(CellStr(c)))
  {
    if dst in BooleanCols then BoolV(ToBool(c))
    else if dst in IntCols then IntV(ToInt(c))
    else if dst in DateCols then DateV(ToDate(c))
    else TextV(if c.Nan? then None else Some(CellStr(c)))
  }

  /** The first column whose stripped header is `name`. */
  function ColumnIndex(header: seq<string>, name: string): (r: Option<nat>)
    ensures r.Some? ==> r.value < |header| && Strip(header[r.value]) == name
    ensures r.Some? ==> forall j :: 0 <= j < r.value ==> Strip(header[j]) != name
    ensures r.None? <==> forall j :: 0 <= j < |header| ==> Strip(header[j]) != name
  {
    FirstMatch(header, Strip, name)
  }

  /** The first position whose reading under `key` is `name`. */
  function FirstMatch<T>(xs: seq<T>, key: T -> string, name: string): (r: Option<nat>)
    ensures r.Some? ==> r.value < |xs| && key(xs[r.value]) == name
    ensures r.Some? ==> forall j :: 0 <= j < r.value ==> key(xs[j]) != name
    ensures r.None? <==> forall j :: 0 <= j < |xs| ==> key(xs[j]) != name
  {
    if |xs| == 0 then None
    else if key(xs[0]) == name then Some(0)
    else match FirstMatch(xs[1..], key, name)
      case None => None
      case Some(j) => Some(j + 1)
  }

  /** The cell of a row in column `j`; the reader fills short rows with NaN. */
  function CellAt(row: seq<Cell>, j: nat): Cell {
    if j < |row| then row[j] else Nan
  }

  /** One converted row: for each entry of the column map, nothing when the
      sheet has no such column, the coerced cell otherwise. */
  type Record = seq<Option<FieldValue>>

  function ConvertRow(header: seq<string>, row: seq<Cell>): (r: Record)
    ensures |r| == |ColumnMap|
    ensures forall i :: 0 <= i < |ColumnMap| ==>
      (r[i].None? <==> forall j :: 0 <= j < |header| ==> Strip(header[j]) != ColumnMap[i].0)
    ensures forall i :: 0 <= i < |ColumnMap| && r[i].Some? ==>
      r[i].value == Convert(ColumnMap[i].1, CellAt(row, ColumnIndex(header, ColumnMap[i].0).value))
  {
    seq(|ColumnMap|, i requires 0 <= i < |ColumnMap| =>
      match ColumnIndex(header, ColumnMap[i].0)
      case None => None
      case Some(j) => Some(Convert(ColumnMap[i].1, CellAt(row, j))))
  }

  /** The four visado columns always come out as booleans and the CPIM number
      as an optional text, a NaN cell as no text. */
  lemma ConvertedKinds(header: seq<string>, row: seq<Cell>)
    ensures var r := ConvertRow(header, row);
      && (forall i :: 9 <= i <= 12 && r[i].Some? ==> r[i].value.BoolV?)
      && (r[KeyColumn].Some? ==> r[KeyColumn].value.TextV?)
      && (r[KeyColumn].Some? && CellAt(row, ColumnIndex(header, ColumnMap[KeyColumn].0).value).Nan? ==>
            r[KeyColumn].value == TextV(None))
  {
    assert ColumnMap[KeyColumn].1 == "nro_expediente_cpim";
    assert "nro_expediente_cpim" !in BooleanCols && "nro_expediente_cpim" !in IntCols;
    assert "nro_expediente_cpim" !in DateCols;
    assert forall i :: 9 <= i <= 12 ==> ColumnMap[i].1 in BooleanCols;
  }

  // ---------------------------------------------------------------- the insert loop

  /** The CPIM number a record is de-duplicated by, when it has a non-empty one. */
  function Key(rec: Record): Option<string> {
    if |rec| > KeyColumn && rec[KeyColumn].Some? && rec[KeyColumn].value.TextV?
       && rec[KeyColumn].value.t.Some? && rec[KeyColumn].value.t.value != ""
    then Some(rec[KeyColumn].value.t.value)
    else None
  }

  /** The CPIM numbers on file after adding `rec`. */
  function AddKey(db: multiset<string>, rec: Record): multiset<string> {
    if Key(rec).Some? then db + multiset{Key(rec).value} else db
  }

  const MultipleRows := "Multiple rows were found when one or none was required"

  /** The insert loop from record `0` on, `db` holding the CPIM numbers on file
      (earlier additions are visible to later lookups, the session flushing
      before each query): a keyed record is skipped when its number is on file
      once, and the one-or-none lookup fails the whole import when it is on
      file more than once. */
  function ImportSpec(records: seq<Record>, db: multiset<string>): Result<seq<Record>>
    decreases |records|
  {
    if |records| == 0 then Ok([])
    else
      var rec := records[0];
      if Key(rec).Some? && db[Key(rec).value] >= 2 then Err(MultipleRows)
      else if Key(rec).Some? && db[Key(rec).value] == 1 then ImportSpec(records[1..], db)
      else match ImportSpec(records[1..], AddKey(db, rec))
        case Err(m) => Err(m)
        case Ok(rest) => Ok([rec] + rest)
  }

  function Prepend(added: seq<Record>, r: Result<seq<Record>>): Result<seq<Record>> {
    if r.Ok? then Ok(added + r.value) else r
  }

  datatype Imported = Imported(added: seq<Record>, created: nat)

  /** The loop of `main` over the converted records, counting what it adds. */
  method ImportRecords(records: seq<Record>, existing: multiset<string>) returns (r: Result<Imported>)
    ensures r.Err? <==> ImportSpec(records, existing).Err?
    ensures r.Ok? ==> ImportSpec(records, existing) == Ok(r.value.added) && r.value.created == |r.value.added|
  {
    var added: seq<Record> := [];
    var created := 0;
    var db := existing;
    var i := 0;
    assert records[0..] == records;
    var whole := ImportSpec(records, existing);
    if whole.Ok? {
      assert [] + whole.value == whole.value;
    }
    while i < |records|
      invariant 0 <= i <= |records|
      invariant created == |added|
      invariant ImportSpec(records, existing) == Prepend(added, ImportSpec(records[i..], db))
      decreases |records| - i
    {
      var rec := records[i];
      assert records[i..][1..] == records[i + 1..];
      var key := Key(rec);
      if key.Some? && db[key.value] >= 2 {
        return Err(MultipleRows);
      }
      if key.Some? && db[key.value] == 1 {
        i := i + 1;
      } else {
        var later := ImportSpec(records[i + 1..], AddKey(db, rec));
        if later.Ok? {
          assert added + ([rec] + later.value) == (added + [rec]) + later.value;
        }
        added := added + [rec];
        created := created + 1;
        db := AddKey(db, rec);
        i := i + 1;
      }
    }
    assert added + [] == added;
    r := Ok(Imported(added, created));
  }

  /** The import fails exactly when some keyed record's number is on file
      more than once before the import: the loop itself never adds a number
      that is already there. */
  lemma {:induction false} ImportFailsIff(records: seq<Record>, db: multiset<string>)
    ensures ImportSpec(records, db).Err? <==>
      exists i :: 0 <= i < |records| && Key(records[i]).Some? && db[Key(records[i]).value] >= 2
    decreases |records|
  {
    if |records| > 0 {
      var rec := records[0];
      var db' := if Key(rec).Some? && db[Key(rec).value] == 1 then db else AddKey(db, rec);
      ImportFailsIff(records[1..], db');
      assert forall i :: 1 <= i < |records| ==> records[1..][i - 1] == records[i];
      if !(Key(rec).Some? && db[Key(rec).value] >= 2) {
        assert forall k :: k != (if Key(rec).Some? then Key(rec).value else k) ==> db'[k] == db[k];
        assert forall i :: 1 <= i < |records| && Key(records[i]).Some? ==>
          (db'[Key(records[i]).value] >= 2 <==> db[Key(records[i]).value] >= 2);
      }
    }
  }

  /** Every record the import adds with a number has a number not on file
      before, and no two added records share a number. */
  lemma {:induction false} AddedKeysFresh(records: seq<Record>, db: multiset<string>)
    requires ImportSpec(records, db).Ok?
    ensures var added := ImportSpec(records, db).value;
      && (forall i :: 0 <= i < |added| && Key(added[i]).Some? ==> db[Key(added[i]).value] == 0)
      && (forall i, j :: 0 <= i < j < |added| && Key(added[i]).Some? ==> Key(added[i]) != Key(added[j]))
    decreases |records|
  {
    if |records| > 0 {
      var rec := records[0];
      if Key(rec).Some? && db[Key(rec).value] == 1 {
        AddedKeysFresh(records[1..], db);
      } else {
        var db' := AddKey(db, rec);
        AddedKeysFresh(records[1..], db');
        var rest := ImportSpec(records[1..], db').value;
        var added := ImportSpec(records, db).value;
        assert added == [rec] + rest;
        assert forall i :: 1 <= i < |added| ==> added[i] == rest[i - 1];
        assert forall k :: db[k] <= db'[k];
      }
    }
  }

  function Keyless(records: seq<Record>): seq<Record> {
    if |records| == 0 then []
    else (if Key(records[0]).None? then [records[0]] else []) + Keyless(records[1..])
  }

  /** Records without a CPIM number are never de-duplicated: all of them are
      added, in sheet order. */
  lemma {:induction false} KeylessAlwaysAdded(records: seq<Record>, db: multiset<string>)
    requires ImportSpec(records, db).Ok?
    ensures Keyless(ImportSpec(records, db).value) == Keyless(records)
    decreases |records|
  {
    if |records| > 0 {
      var rec := records[0];
      if Key(rec).Some? && db[Key(rec).value] == 1 {
        KeylessAlwaysAdded(records[1..], db);
      } else {
        var db' := AddKey(db, rec);
        KeylessAlwaysAdded(records[1..], db');
        var rest := ImportSpec(records[1..], db').value;
        assert ([rec] + rest)[1..] == rest;
      }
    }
  }

  /** A record whose number is not on file is added, or an earlier record with
      the same number was. */
  lemma {:induction false} NewKeysAreAdded(records: seq<Record>, db: multiset<string>, i: nat)
    requires ImportSpec(records, db).Ok?
    requires i < |records| && Key(records[i]).Some? && db[Key(records[i]).value] == 0
    ensures exists j :: 0 <= j < |ImportSpec(records, db).value| && Key(ImportSpec(records, db).value[j]) == Key(records[i])
    decreases |records|
  {
    var rec := records[0];
    var added := ImportSpec(records, db).value;
    if Key(rec).Some? && db[Key(rec).value] == 1 {
      assert i > 0 && records[1..][i - 1] == records[i];
      NewKeysAreAdded(records[1..], db, i - 1);
    } else if i == 0 {
      assert Key(added[0]) == Key(records[0]);
    } else if Key(rec) == Key(records[i]) {
      assert Key(added[0]) == Key(records[i]);
    } else {
      var db' := AddKey(db, rec);
      assert records[1..][i - 1] == records[i];
      assert db'[Key(records[i]).value] == 0;
      NewKeysAreAdded(records[1..], db', i - 1);
      var rest := ImportSpec(records[1..], db').value;
      var j :| 0 <= j < |rest| && Key(rest[j]) == Key(records[i]);
      assert added[j + 1] == rest[j];
    }
  }

  // ---------------------------------------------------------------- the sheet

  /** The first sheet as read: its header row and its data rows. */
  datatype Sheet = Sheet(header: seq<string>, rows: seq<seq<Cell>>)

  /** `df.empty`: no data rows or no columns. */
  predicate EmptySheet(s: Sheet) {
    |s.rows| == 0 || |s.header| == 0
  }

  /** Every data row converted, in sheet order. */
  function Records(sheet: Sheet): (rs: seq<Record>)
    ensures |rs| == |sheet.rows|
    ensures forall i :: 0 <= i < |rs| ==> rs[i] == ConvertRow(sheet.header, sheet.rows[i])
  {
    seq(|sheet.rows|, i requires 0 <= i < |sheet.rows| => ConvertRow(sheet.header, sheet.rows[i]))
  }

  /** `main` after loading the model and the sheet: an empty sheet imports
      nothing; otherwise every row is converted and the records go through
      the insert loop. */
  method ImportSheet(sheet: Sheet, existing: multiset<string>) returns (r: Result<Imported>)
    ensures EmptySheet(sheet) ==> r == Ok(Imported([], 0))
    ensures !EmptySheet(sheet) ==> (r.Err? <==> ImportSpec(Records(sheet), existing).Err?)
    ensures !EmptySheet(sheet) && r.Ok? ==>
      Ok(r.value.added) == ImportSpec(Records(sheet), existing) && r.value.created == |r.value.added|
  {
    if EmptySheet(sheet) {
      return Ok(Imported([], 0));
    }
    r := ImportRecords(Records(sheet), existing);
  }
}
