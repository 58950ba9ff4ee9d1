/** The request-form and configuration helpers of the web application: the
    database-URL scheme rewrite, the checkbox, integer and date parsers, and
    the mapping of a submitted form onto the case-file fields. */
module Forms {
  import opened Wrappers
  import opened Text
  import opened Dates
  import opened Expedientes

  // ---------------------------------------------------------------- database URL

  const OldScheme := "postgres://"
  const NewScheme := "postgresql://"

  /** `_normalize_db_url`: a URL in the old `postgres://` scheme gets the
      scheme SQLAlchemy expects; anything else, the empty URL included, is
      returned as given. */
  function NormalizeDbUrl(url: string): (r: string)
    ensures IsPrefix(OldScheme, url) ==> r == NewScheme + url[|OldScheme|..]
    ensures !IsPrefix(OldScheme, url) ==> r == url
  {
    if |url| > 0 && IsPrefix(OldScheme, url) then ReplaceFirst(url, OldScheme, NewScheme) else url
  }

  /** Normalising twice is normalising once: the new scheme does not start
      with the old one. */
  lemma NormalizeIdempotent(url: string)
    ensures NormalizeDbUrl(NormalizeDbUrl(url)) == NormalizeDbUrl(url)
  {
    var r := NormalizeDbUrl(url);
    if IsPrefix(OldScheme, url) {
      assert r[8] == 'q';
      assert !IsPrefix(OldScheme, r);
    }
  }

  /** The rewrite touches only the scheme: the rest of the URL is kept. */
  lemma NormalizeKeepsRest(url: string)
    ensures var r := NormalizeDbUrl(url);
      (IsPrefix(NewScheme, r) && r[|NewScheme|..] == url[|OldScheme|..]) || r == url
  {
  }

  // ---------------------------------------------------------------- field parsers

  /** Python's `str(value)` on a form value that may be missing. */
  function PyStr(value: Option<string>): string {
    if value.Some? then value.value else "None"
  }

  const TruthyFormWords: set<string> := {"1", "true", "t", "si", "sí", "on", "x"}

  /** `_parse_bool`: a checkbox or flag is set when its lower-cased text is one
      of the accepted words; a missing field reads as `"none"` and is false. */
  function ParseBool(value: Option<string>): (b: bool)
    ensures b <==> Lower(PyStr(value)) in TruthyFormWords
    ensures value.None? ==> !b
  {
    var v := Lower(PyStr(value));
    assert value.None? ==> v == "none";
    v in TruthyFormWords
  }

  /** The test ignores letter case. */
  lemma ParseBoolIgnoresCase(s: string)
    ensures ParseBool(Some(seq(|s|, i requires 0 <= i < |s| => UpperChar(s[i])))) == ParseBool(Some(s))
  {
    LowerUpperInsensitive(s);
  }

  /** `_parse_int`: `int(value)`, any failure (a missing field included)
      becoming `None`. A number is read exactly when the stripped text is a
      literal and the text holds no information separator; the number read
      is the one the literal spells. */
  function ParseIntField(value: Option<string>): (r: Option<int>)
    ensures value.None? ==> r.None?
    ensures value.Some? ==>
      (r.Some? <==> IsIntLiteral(Strip(value.value)) && NoInfoSeparators(value.value))
    ensures r.Some? ==> IntToString(r.value) == CanonicalLiteral(Strip(value.value))
  {
    if value.Some? then
      ParseIntAccepts(value.value);
      ParseIntSpelling(value.value);
      ParseInt(value.value)
    else None
  }

  /** The formats `_parse_date` tries, in order: the date input's ISO form,
      then day first. */
  const FormDateFormats: seq<Format> := [Iso, Dmy('/')]

  /** `_parse_date`: blank or missing is no date; otherwise the first format
      that reads the stripped text decides, and `None` if neither does. */
  function ParseDateField(value: Option<string>): (r: Option<CalendarDate>)
    ensures AllSpaces(OrElse(value, "")) ==> r.None?
    ensures r.Some? ==>
      var t := Strip(value.value);
      || Parse(t, Iso) == r
      || (Parse(t, Iso).None? && Parse(t, Dmy('/')) == r)
    ensures value.Some? && !AllSpaces(value.value) && Parse(Strip(value.value), Iso).Some? ==>
      r == Parse(Strip(value.value), Iso)
    ensures value.Some? && !AllSpaces(value.value) && Parse(Strip(value.value), Iso).None? ==>
      r == Parse(Strip(value.value), Dmy('/'))
  {
    var t := Strip(OrElse(value, ""));
    StripEmptyIffSpaces(OrElse(value, ""));
    if t == "" then None
    else
      ParseFirstPair(t, Iso, Dmy('/'));
      ParseFirst(t, FormDateFormats)
  }

  /** A date the browser's date input sends is read back as that date. */
  lemma DateFieldRoundTrip(d: CalendarDate)
    ensures ParseDateField(Some(FormatIso(d))) == Some(d)
  {
    var y, m, dd := Pad4(d.year), Pad2(d.month), Pad2(d.day);
    var s := FormatIso(d);
    assert s == y + "-" + m + "-" + dd;
    assert s[0] == y[0] && s[|s| - 1] == dd[1];
    StripUnpadded(s);
    FormatIsoRoundTrip(d);
    assert !IsSpace(s[0]);
  }

  lemma DmyUnpadded(d: CalendarDate)
    ensures Strip(FormatDmy(d)) == FormatDmy(d)
  {
    var s := FormatDmy(d);
    var y := NatToString(d.year);
    assert s[|s| - 1] == y[|y| - 1];
    assert IsDigit(s[0]);
    StripUnpadded(s);
  }

  /** A date typed day first with a four-digit year is accepted too. */
  lemma DateFieldDayFirst(d: CalendarDate)
    requires d.year >= 1000
    ensures ParseDateField(Some(FormatDmy(d))) == Some(d)
  {
    var s := FormatDmy(d);
    FormatDmyRoundTrip(d);
    DmyUnpadded(d);
    DayFirstIsNotIso(s);
    assert FirstAccepting(s, FormDateFormats) == 1;
  }

  // ---------------------------------------------------------------- the form

  /** A submitted form: field name to the first value sent for it. */
  type Form = map<string, string>

  function Get(form: Form, k: string): Option<string> {
    if k in form then Some(form[k]) else None
  }

  /** What `_parse_form` returns: always the same 21 fields, the four
      visados always booleans. */
  datatype FormData = FormData(
    fecha: Option<CalendarDate>,
    profesion: Option<string>,
    formato: Option<string>,
    nroCopias: Option<int>,
    tipoTrabajo: Option<string>,
    nroExpedienteCpim: Option<string>,
    nombreProfesional: Option<string>,
    nombreComitente: Option<string>,
    ubicacion: Option<string>,
    visadoGas: bool,
    visadoSalubridad: bool,
    visadoElectrica: bool,
    visadoElectromecanica: bool,
    estadoPagoSellado: Option<string>,
    estadoPagoVisado: Option<string>,
    fechaSalida: Option<CalendarDate>,
    personaRetira: Option<string>,
    nroCaja: Option<int>,
    rutaCarpeta: Option<string>,
    whatsappProfesional: Option<string>,
    whatsappTramitador: Option<string>)

  /** The names `_parse_form` reads, in its order. */
  const FormFields: seq<string> := [
    "fecha", "profesion", "formato", "nro_copias", "tipo_trabajo", "nro_expediente_cpim",
    "nombre_profesional", "nombre_comitente", "ubicacion",
    "visado_gas", "visado_salubridad", "visado_electrica", "visado_electromecanica",
    "estado_pago_sellado", "estado_pago_visado", "fecha_salida", "persona_retira", "nro_caja",
    "ruta_carpeta", "whatsapp_profesional", "whatsapp_tramitador"]

  lemma FormFieldsDistinct()
    ensures forall i, j :: 0 <= i < j < |FormFields| ==> FormFields[i] != FormFields[j]
  {
  }

  /** One form entry, present only when there is a value to send. */
  function Field(k: string, v: Option<string>): Form {
    if v.Some? then map[k := v.value] else map[]
  }

  /** The form holding each name with its value, later names added last. */
  function Build(ks: seq<string>, vs: seq<Option<string>>): (f: Form)
    requires |ks| == |vs|
    ensures forall k :: k in f ==> k in ks
  {
    if |ks| == 0 then map[] else Build(ks[..|ks| - 1], vs[..|vs| - 1]) + Field(ks[|ks| - 1], vs[|vs| - 1])
  }

  /** With distinct names, every name reads back its own value. */
  lemma {:induction false} BuildGet(ks: seq<string>, vs: seq<Option<string>>, i: nat)
    requires |ks| == |vs| && i < |ks|
    requires forall a, b :: 0 <= a < b < |ks| ==> ks[a] != ks[b]
    ensures Get(Build(ks, vs), ks[i]) == vs[i]
  {
    var n := |ks| - 1;
    if i < n {
      BuildGet(ks[..n], vs[..n], i);
      assert ks[..n][i] == ks[i] && vs[..n][i] == vs[i];
      assert ks[n] != ks[i];
    } else {
      assert forall a :: 0 <= a < n ==> ks[..n][a] != ks[n];
      assert ks[n] !in ks[..n];
    }
  }

  /** What the edit page sends for a text input or a select: its text, the
      empty string when the column is empty. */
  function TextSent(v: Option<string>): (r: Option<string>)
    ensures Filled(v) ==> r == v
    ensures !Filled(v) ==> r == Some("")
  {
    Some(OrElse(v, ""))
  }

  /** The value the edit page sends for each field: every input is sent,
      dates in ISO form, numbers in decimal and empty ones as the empty
      string; a ticked checkbox sends "on", an unticked one nothing. */
  function Values(d: FormData): (vs: seq<Option<string>>)
    ensures |vs| == |FormFields|
  {
    [ Some(if d.fecha.Some? then FormatIso(d.fecha.value) else ""),
      TextSent(d.profesion), TextSent(d.formato),
      Some(if d.nroCopias.Some? then IntToString(d.nroCopias.value) else ""),
      TextSent(d.tipoTrabajo), TextSent(d.nroExpedienteCpim), TextSent(d.nombreProfesional),
      TextSent(d.nombreComitente), TextSent(d.ubicacion),
      if d.visadoGas then Some("on") else None,
      if d.visadoSalubridad then Some("on") else None,
      if d.visadoElectrica then Some("on") else None,
      if d.visadoElectromecanica then Some("on") else None,
      TextSent(d.estadoPagoSellado), TextSent(d.estadoPagoVisado),
      Some(if d.fechaSalida.Some? then FormatIso(d.fechaSalida.value) else ""),
      TextSent(d.personaRetira),
      Some(if d.nroCaja.Some? then IntToString(d.nroCaja.value) else ""),
      TextSent(d.rutaCarpeta), TextSent(d.whatsappProfesional), TextSent(d.whatsappTramitador) ]
  }

  /** The thirteen free-text and select fields, in form order. */
  function TextFields(d: FormData): (ts: seq<Option<string>>)
    ensures |ts| == 13
  {
    [ d.profesion, d.formato, d.tipoTrabajo, d.nroExpedienteCpim, d.nombreProfesional, d.nombreComitente,
      d.ubicacion, d.estadoPagoSellado, d.estadoPagoVisado, d.personaRetira, d.rutaCarpeta,
      d.whatsappProfesional, d.whatsappTramitador ]
  }

  /** `d` as it reads after a trip through the edit page: every empty text
      field comes back as the empty string, everything else as it was. */
  function AsSubmitted(d: FormData): (r: FormData)
    ensures forall i :: 0 <= i < 13 ==> TextFields(r)[i] == TextSent(TextFields(d)[i])
    ensures r.fecha == d.fecha && r.fechaSalida == d.fechaSalida && r.nroCopias == d.nroCopias && r.nroCaja == d.nroCaja
    ensures r.visadoGas == d.visadoGas && r.visadoSalubridad == d.visadoSalubridad
    ensures r.visadoElectrica == d.visadoElectrica && r.visadoElectromecanica == d.visadoElectromecanica
  {
    var r := d.(profesion := TextSent(d.profesion), formato := TextSent(d.formato), tipoTrabajo := TextSent(d.tipoTrabajo),
       nroExpedienteCpim := TextSent(d.nroExpedienteCpim), nombreProfesional := TextSent(d.nombreProfesional),
       nombreComitente := TextSent(d.nombreComitente), ubicacion := TextSent(d.ubicacion),
       estadoPagoSellado := TextSent(d.estadoPagoSellado), estadoPagoVisado := TextSent(d.estadoPagoVisado),
       personaRetira := TextSent(d.personaRetira), rutaCarpeta := TextSent(d.rutaCarpeta),
       whatsappProfesional := TextSent(d.whatsappProfesional), whatsappTramitador := TextSent(d.whatsappTramitador));
    assert TextFields(r) == seq(13, i requires 0 <= i < 13 => TextSent(TextFields(d)[i]));
    r
  }

  /** Data whose text fields all hold a value, the empty string included,
      goes through the edit page unchanged. */
  lemma AsSubmittedKeepsSetFields(d: FormData)
    requires forall i :: 0 <= i < 13 ==> TextFields(d)[i].Some?
    ensures AsSubmitted(d) == d
  {
    var ts := TextFields(d);
    assert ts[0].Some? && ts[1].Some? && ts[2].Some? && ts[3].Some? && ts[4].Some? && ts[5].Some? && ts[6].Some?;
    assert ts[7].Some? && ts[8].Some? && ts[9].Some? && ts[10].Some? && ts[11].Some? && ts[12].Some?;
  }

  /** The form the edit page submits for `d`. */
  function FormOf(d: FormData): Form {
    Build(FormFields, Values(d))
  }

  /** What `form.get` returns for each name `_parse_form` reads, in order. */
  function Gather(form: Form): (raw: seq<Option<string>>)
    ensures |raw| == |FormFields|
    ensures forall i :: 0 <= i < |FormFields| ==> raw[i] == Get(form, FormFields[i])
  {
    seq(|FormFields|, i requires 0 <= i < |FormFields| => Get(form, FormFields[i]))
  }

  /** `_parse_form`: each name read with `form.get` and converted by its
      kind. */
  function ParseForm(form: Form): FormData {
    ParseValues(Gather(form))
  }

  /** The conversions of `_parse_form`, by position in `FormFields`. */
  function ParseValues(raw: seq<Option<string>>): FormData
    requires |raw| == |FormFields|
  {
    FormData(
      ParseDateField(raw[0]), raw[1], raw[2], ParseIntField(raw[3]), raw[4], raw[5], raw[6], raw[7], raw[8],
      ParseBool(raw[9]), ParseBool(raw[10]), ParseBool(raw[11]), ParseBool(raw[12]),
      raw[13], raw[14], ParseDateField(raw[15]), raw[16], ParseIntField(raw[17]), raw[18], raw[19], raw[20])
  }

  /** Every field of the submitted form reads back the value sent for it. */
  lemma FormOfFields(d: FormData)
    ensures Gather(FormOf(d)) == Values(d)
  {
    FormFieldsDistinct();
    forall i | 0 <= i < |FormFields|
      ensures Get(FormOf(d), FormFields[i]) == Values(d)[i]
    {
      BuildGet(FormFields, Values(d), i);
    }
  }

  /** Submitting the edit form unchanged gives back the same data, except
      that an empty text field now holds the empty string. */
  lemma ParseFormRoundTrip(d: FormData)
    ensures ParseForm(FormOf(d)) == AsSubmitted(d)
    ensures (forall i :: 0 <= i < 13 ==> TextFields(d)[i].Some?) ==> ParseForm(FormOf(d)) == d
  {
    FormOfFields(d);
    ValuesRoundTrip(d);
    if forall i :: 0 <= i < 13 ==> TextFields(d)[i].Some? {
      AsSubmittedKeepsSetFields(d);
    }
  }

  /** Each value the edit page sends converts back to the field it came from. */
  lemma ValuesRoundTrip(d: FormData)
    ensures ParseValues(Values(d)) == AsSubmitted(d)
  {
    var vs := Values(d);
    DateValueRoundTrip(d.fecha);
    DateValueRoundTrip(d.fechaSalida);
    IntValueRoundTrip(d.nroCopias);
    IntValueRoundTrip(d.nroCaja);
    CheckboxRoundTrip(d.visadoGas);
    CheckboxRoundTrip(d.visadoSalubridad);
    CheckboxRoundTrip(d.visadoElectrica);
    CheckboxRoundTrip(d.visadoElectromecanica);
  }

  lemma DateValueRoundTrip(o: Option<CalendarDate>)
    ensures ParseDateField(Some(if o.Some? then FormatIso(o.value) else "")) == o
  {
    if o.Some? {
      DateFieldRoundTrip(o.value);
    } else {
      assert AllSpaces("");
    }
  }

  lemma IntValueRoundTrip(o: Option<int>)
    ensures ParseIntField(Some(if o.Some? then IntToString(o.value) else "")) == o
  {
    if o.Some? {
      IntRoundTrip(o.value);
    } else {
      assert Strip("") == "";
    }
  }

  /** A ticked checkbox sends "on", which reads as true; an unticked one sends
      nothing, which reads as false. */
  lemma CheckboxRoundTrip(b: bool)
    ensures ParseBool(if b then Some("on") else None) == b
  {
    assert Lower("on") == "on";
  }

  /** The form fields of a stored record. */
  function FormDataOf(e: Expediente): FormData {
    FormData(e.fecha, e.profesion, e.formato, e.nroCopias, e.tipoTrabajo, e.nroExpedienteCpim,
      e.nombreProfesional, e.nombreComitente, e.ubicacion, e.visadoGas, e.visadoSalubridad, e.visadoElectrica,
      e.visadoElectromecanica, e.estadoPagoSellado, e.estadoPagoVisado, e.fechaSalida, e.personaRetira,
      e.nroCaja, e.rutaCarpeta, e.whatsappProfesional, e.whatsappTramitador)
  }

  /** Two records agree on every column the edit form does not carry: the id,
      the portal numbers, the amounts, the timestamps, the closing flag, the
      portal data and the trays. */
  predicate SameNonFormColumns(a: Expediente, b: Expediente) {
    && a.id == b.id && a.partidaInmobiliaria == b.partidaInmobiliaria
    && a.nroExpedienteMunicipal == b.nroExpedienteMunicipal
    && a.tasaSelladoMonto == b.tasaSelladoMonto && a.fees == b.fees && a.totalVisados == b.totalVisados
    && a.fechaFinalizado == b.fechaFinalizado && a.createdAt == b.createdAt && a.updatedAt == b.updatedAt
    && a.finalizado == b.finalizado && a.gop == b.gop && a.trays == b.trays
  }

  /** A record is its form fields together with the other columns. */
  lemma RecordIsFormAndRest(a: Expediente, b: Expediente)
    requires SameNonFormColumns(a, b) && FormDataOf(a) == FormDataOf(b)
    ensures a == b
  {
  }

  /** `actualizar_expediente`: every parsed field is written onto the record,
      so its form fields become exactly `d`, and every other column is kept. */
  function ApplyForm(e: Expediente, d: FormData): (r: Expediente)
    ensures FormDataOf(r) == d
    ensures SameNonFormColumns(r, e)
  {
    e.(fecha := d.fecha, profesion := d.profesion, formato := d.formato, nroCopias := d.nroCopias,
       tipoTrabajo := d.tipoTrabajo, nroExpedienteCpim := d.nroExpedienteCpim,
       nombreProfesional := d.nombreProfesional, nombreComitente := d.nombreComitente, ubicacion := d.ubicacion,
       visadoGas := d.visadoGas, visadoSalubridad := d.visadoSalubridad, visadoElectrica := d.visadoElectrica,
       visadoElectromecanica := d.visadoElectromecanica, estadoPagoSellado := d.estadoPagoSellado,
       estadoPagoVisado := d.estadoPagoVisado, fechaSalida := d.fechaSalida, personaRetira := d.personaRetira,
       nroCaja := d.nroCaja, rutaCarpeta := d.rutaCarpeta, whatsappProfesional := d.whatsappProfesional,
       whatsappTramitador := d.whatsappTramitador)
  }

  /** Saving the edit form unchanged keeps every column, except that an empty
      text column now holds the empty string; a record with no empty text
      column is left exactly as it was. */
  lemma ResubmitKeepsRecord(e: Expediente)
    ensures var r := ApplyForm(e, ParseForm(FormOf(FormDataOf(e))));
      SameNonFormColumns(r, e) && FormDataOf(r) == AsSubmitted(FormDataOf(e))
    ensures (forall i :: 0 <= i < 13 ==> TextFields(FormDataOf(e))[i].Some?) ==>
      ApplyForm(e, ParseForm(FormOf(FormDataOf(e)))) == e
  {
    var d := FormDataOf(e);
    ParseFormRoundTrip(d);
    if forall i :: 0 <= i < 13 ==> TextFields(d)[i].Some? {
      RecordIsFormAndRest(ApplyForm(e, d), e);
    }
  }
}
