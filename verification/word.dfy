/** The Word-document generator: the table of `<#tag>` replacements built from
    a case file, the way a paragraph's text is rewritten with it, and the
    sorted list of tags offered to template authors. */
module Word {
  import opened Wrappers
  import opened Text
  import opened Dates
  import opened Expedientes

  // ---------------------------------------------------------------- money

  /** Decimal's default `ROUND_HALF_EVEN` of a non-negative amount to whole
      cents: the nearest cent, ties going to the even one. */
  function RoundCents(x: real): (c: nat)
    requires x >= 0.0
    ensures c as real - 0.5 <= x * 100.0 <= c as real + 0.5
    ensures x * 100.0 == c as real - 0.5 ==> c % 2 == 0
    ensures x * 100.0 == c as real + 0.5 ==> c % 2 == 0
  {
    var y := x * 100.0;
    var f := y.Floor;
    var frac := y - f as real;
    if frac > 0.5 || (frac == 0.5 && f % 2 == 1) then f + 1 else f
  }

  function Pad3(n: nat): (r: string)
    requires n < 1000
    ensures |r| == 3 && AllDigits(r)
  {
    [DigitChar(n / 100), DigitChar(n / 10 % 10), DigitChar(n % 10)]
  }

  /** The integer part of a `,` format: groups of three digits, the
      separator between them. */
  function GroupThousands(n: nat, sep: char): (r: string)
    ensures |r| > 0
    ensures forall i :: 0 <= i < |r| ==> IsDigit(r[i]) || r[i] == sep
  {
    if n < 1000 then NatToString(n) else GroupThousands(n / 1000, sep) + [sep] + Pad3(n % 1000)
  }

  /** The text with every occurrence of `sep` taken out. */
  function Ungrouped(s: string, sep: char): (r: string)
    ensures |r| <= |s|
  {
    if |s| == 0 then [] else (if s[0] == sep then [] else [s[0]]) + Ungrouped(s[1..], sep)
  }

  lemma {:induction false} UngroupedConcat(a: string, b: string, sep: char)
    ensures Ungrouped(a + b, sep) == Ungrouped(a, sep) + Ungrouped(b, sep)
    decreases |a|
  {
    if |a| > 0 {
      assert (a + b)[0] == a[0] && (a + b)[1..] == a[1..] + b;
      UngroupedConcat(a[1..], b, sep);
      var h := if a[0] == sep then [] else [a[0]];
      assert Ungrouped(a + b, sep) == h + Ungrouped(a[1..] + b, sep);
      assert Ungrouped(a, sep) == h + Ungrouped(a[1..], sep);
      var x, y := Ungrouped(a[1..], sep), Ungrouped(b, sep);
      assert h + (x + y) == (h + x) + y;
    } else {
      assert a + b == b;
    }
  }

  lemma {:induction false} UngroupedDigits(s: string, sep: char)
    requires AllDigits(s) && !IsDigit(sep)
    ensures Ungrouped(s, sep) == s
    decreases |s|
  {
    if |s| > 0 {
      UngroupedDigits(s[1..], sep);
      assert [s[0]] + s[1..] == s;
    }
  }

  /** Three more digits at the end of a rendering are its last group. */
  lemma RenderingSplitsAtThousands(n: nat)
    requires n >= 1000
    ensures NatToString(n) == NatToString(n / 1000) + Pad3(n % 1000)
  {
    ThousandsDigits(n);
    var x := NatToString(n / 1000);
    var a, b, c := DigitChar(n / 100 % 10), DigitChar(n / 10 % 10), DigitChar(n % 10);
    assert NatToString(n / 100) == x + [a];
    assert NatToString(n / 10) == x + [a] + [b];
    assert NatToString(n) == x + [a] + [b] + [c];
    assert Pad3(n % 1000) == [a, b, c];
    assert x + [a] + [b] + [c] == x + [a, b, c];
  }

  /** The digit arithmetic behind the split: dropping one digit three times
      drops three, and the last three digits are those of `n % 1000`. */
  lemma ThousandsDigits(n: nat)
    ensures n / 10 / 10 == n / 100 && n / 100 / 10 == n / 1000
    ensures n % 1000 / 100 == n / 100 % 10 && n % 1000 / 10 % 10 == n / 10 % 10 && n % 1000 % 10 == n % 10
  {
    var q, m := n / 1000, n % 1000;
    var h, t, u := m / 100, m / 10 % 10, m % 10;
    assert m == 100 * h + 10 * t + u;
    assert n == 1000 * q + 100 * h + 10 * t + u;
    assert n / 10 == 100 * q + 10 * h + t;
    assert n / 100 == 10 * q + h;
  }

  lemma ShortRendering(n: nat)
    requires n < 1000
    ensures |NatToString(n)| <= 3
  {
    if n >= 10 {
      assert NatToString(n) == NatToString(n / 10) + [DigitChar(n % 10)];
      if n >= 100 {
        assert NatToString(n / 10) == NatToString(n / 100) + [DigitChar(n / 10 % 10)];
      }
    }
  }

  /** Taking the separators out of the grouped whole part leaves `str(n)`, so
      the digits read back as `n`. */
  lemma {:induction false} GroupThousandsDigits(n: nat, sep: char)
    requires !IsDigit(sep)
    ensures Ungrouped(GroupThousands(n, sep), sep) == NatToString(n)
    ensures DigitsValue(Ungrouped(GroupThousands(n, sep), sep)) == n
    decreases n
  {
    if n < 1000 {
      UngroupedDigits(NatToString(n), sep);
    } else {
      var g := GroupThousands(n / 1000, sep);
      GroupThousandsDigits(n / 1000, sep);
      UngroupedConcat(g + [sep], Pad3(n % 1000), sep);
      UngroupedConcat(g, [sep], sep);
      assert Ungrouped([sep], sep) == [];
      UngroupedDigits(Pad3(n % 1000), sep);
      RenderingSplitsAtThousands(n);
    }
    NatToStringValue(n);
  }

  /** The separators sit exactly every four places counted from the right
      end and never in front. */
  predicate SeparatorsEveryFour(r: string, sep: char) {
    forall i :: 0 <= i < |r| ==> (r[i] == sep <==> 0 < i && (|r| - i) % 4 == 0)
  }

  /** Each group after the first has exactly three digits. */
  lemma {:induction false} GroupThousandsLayout(n: nat, sep: char)
    requires !IsDigit(sep)
    ensures SeparatorsEveryFour(GroupThousands(n, sep), sep)
    decreases n
  {
    var r := GroupThousands(n, sep);
    if n < 1000 {
      ShortRendering(n);
    } else {
      var g := GroupThousands(n / 1000, sep);
      GroupThousandsLayout(n / 1000, sep);
      var p := Pad3(n % 1000);
      assert r == g + [sep] + p;
      assert |r| == |g| + 4;
      forall i | 0 <= i < |r|
        ensures r[i] == sep <==> 0 < i && (|r| - i) % 4 == 0
      {
        if i < |g| {
          assert r[i] == g[i];
          assert g[i] == sep <==> 0 < i && (|g| - i) % 4 == 0;
          assert (|r| - i) % 4 == (|g| - i) % 4;
        } else if i == |g| {
          assert r[i] == sep && |r| - i == 4;
        } else {
          assert r[i] == p[i - |g| - 1] && IsDigit(p[i - |g| - 1]);
          assert 0 < |r| - i < 4;
        }
      }
    }
  }

  /** `f"{a:,.2f}"` on a Decimal: sign, grouped whole part, `.`, two decimals. */
  function PyMoney(a: real): string {
    var c := RoundCents(if a < 0.0 then -a else a);
    (if a < 0.0 then "-" else "") + GroupThousands(c / 100, ',') + "." + Pad2(c % 100)
  }

  /** The Argentine rendering the template wants: `$ `, sign, thousands
      separated by `.`, decimals after `,`. */
  function Pesos(a: real): string {
    var c := RoundCents(if a < 0.0 then -a else a);
    "$ " + (if a < 0.0 then "-" else "") + GroupThousands(c / 100, '.') + "," + Pad2(c % 100)
  }

  /** `formatear_monto`: a falsy amount prints as `$ 0,00`; any other is printed
      the English way and its separators swapped through a placeholder `X`. */
  function FormatMonto(a: Option<real>): string {
    if NonZero(a) then
      ReplaceAll(ReplaceAll(ReplaceAll("$ " + PyMoney(a.value), ",", "X"), ".", ","), "X", ".")
    else "$ 0,00"
  }

  /** What the three replacements do to one character: `,` and `.` trade
      places, and a literal `X` is lost to the placeholder. */
  function SwapChar(c: char): char {
    if c == ',' || c == 'X' then '.' else if c == '.' then ',' else c
  }

  /** The three replacements, read character by character. */
  function SwapSeparators(s: string): (r: string)
    ensures |r| == |s|
    ensures forall i :: 0 <= i < |s| ==> r[i] == SwapChar(s[i])
  {
    seq(|s|, i requires 0 <= i < |s| => SwapChar(s[i]))
  }

  /** The grouped integer part with `,` and with `.` differ only in the
      separator. */
  lemma {:induction false} GroupSeparatorSwap(n: nat)
    ensures |GroupThousands(n, ',')| == |GroupThousands(n, '.')|
    ensures forall i :: 0 <= i < |GroupThousands(n, ',')| ==>
      GroupThousands(n, '.')[i] == (if GroupThousands(n, ',')[i] == ',' then '.' else GroupThousands(n, ',')[i])
    decreases n
  {
    if n >= 1000 {
      GroupSeparatorSwap(n / 1000);
      var a, b := GroupThousands(n / 1000, ','), GroupThousands(n / 1000, '.');
      var p := Pad3(n % 1000);
      assert GroupThousands(n, ',') == a + [','] + p;
      assert GroupThousands(n, '.') == b + ['.'] + p;
    }
  }

  /** Swapping separators distributes over concatenation. */
  lemma SwapConcat(u: string, v: string)
    ensures SwapSeparators(u + v) == SwapSeparators(u) + SwapSeparators(v)
  {
    var w := u + v;
    forall i | 0 <= i < |w|
      ensures SwapSeparators(w)[i] == (SwapSeparators(u) + SwapSeparators(v))[i]
    {
      if i >= |u| { assert w[i] == v[i - |u|]; }
    }
  }

  /** On text without the placeholder `X` the swap undoes itself, so the
      Argentine rendering carries exactly the information of the English one. */
  lemma SwapInvolution(s: string)
    requires forall i :: 0 <= i < |s| ==> s[i] != 'X'
    ensures SwapSeparators(SwapSeparators(s)) == s
  {
    var t := SwapSeparators(SwapSeparators(s));
    forall i | 0 <= i < |s|
      ensures t[i] == s[i]
    {
      assert SwapSeparators(s)[i] == SwapChar(s[i]);
    }
  }

  /** Python's rendering of an amount never contains the placeholder. */
  lemma PyMoneyHasNoPlaceholder(x: real)
    ensures forall i :: 0 <= i < |"$ " + PyMoney(x)| ==> ("$ " + PyMoney(x))[i] != 'X'
  {
    var c := RoundCents(if x < 0.0 then -x else x);
    var g := GroupThousands(c / 100, ',');
    var d := Pad2(c % 100);
    assert "$ " + PyMoney(x) == "$ " + (if x < 0.0 then "-" else "") + g + "." + d;
  }

  /** Swapping the separators of the Argentine amount gives back Python's
      rendering: the two forms determine each other. */
  lemma PesosSwapsBack(x: real)
    ensures SwapSeparators(Pesos(x)) == "$ " + PyMoney(x)
  {
    SwapPyMoney(x);
    PyMoneyHasNoPlaceholder(x);
    SwapInvolution("$ " + PyMoney(x));
  }

  /** Digits are left alone by the swap. */
  lemma SwapDigits(s: string)
    requires AllDigits(s)
    ensures SwapSeparators(s) == s
  {
  }

  /** The separator swap turns the English rendering into the Argentine one. */
  lemma SwapGroup(n: nat)
    ensures SwapSeparators(GroupThousands(n, ',')) == GroupThousands(n, '.')
  {
    GroupSeparatorSwap(n);
  }

  /** The chained `replace` calls of `formatear_monto` are the pointwise swap. */
  lemma ReplacesAreSwap(p: string)
    ensures ReplaceAll(ReplaceAll(ReplaceAll(p, ",", "X"), ".", ","), "X", ".") == SwapSeparators(p)
  {
    ReplaceCharIsSubst(p, ',', 'X');
    ReplaceCharIsSubst(SubstChar(p, ',', 'X'), '.', ',');
    ReplaceCharIsSubst(SubstChar(SubstChar(p, ',', 'X'), '.', ','), 'X', '.');
    assert SubstChar(SubstChar(SubstChar(p, ',', 'X'), '.', ','), 'X', '.') == SwapSeparators(p);
  }

  /** The swap turns Python's `,.2f` rendering into the Argentine one. */
  lemma SwapPyMoney(x: real)
    ensures SwapSeparators("$ " + PyMoney(x)) == Pesos(x)
  {
    var c := RoundCents(if x < 0.0 then -x else x);
    var sign := if x < 0.0 then "-" else "";
    var g := GroupThousands(c / 100, ',');
    var d := Pad2(c % 100);
    assert "$ " + PyMoney(x) == "$ " + sign + g + "." + d;
    SwapParts(sign, g, d);
    SwapGroup(c / 100);
  }

  /** The swap on the pieces of a rendered amount: prefix, sign and decimals
      are kept, the decimal point becomes a comma, the whole part is swapped. */
  lemma SwapParts(sign: string, g: string, d: string)
    requires sign == "" || sign == "-"
    requires AllDigits(d)
    ensures SwapSeparators("$ " + sign + g + "." + d) == "$ " + sign + SwapSeparators(g) + "," + d
  {
    SwapDigits(d);
    assert SwapSeparators("$ ") == "$ ";
    assert SwapSeparators(sign) == sign;
    assert SwapSeparators(".") == ",";
    SwapConcat("$ ", sign);
    SwapConcat("$ " + sign, g);
    SwapConcat("$ " + sign + g, ".");
    SwapConcat("$ " + sign + g + ".", d);
  }

  /** `formatear_monto` prints every amount in the Argentine form; a falsy one
      prints as zero pesos. */
  lemma FormatMontoIsPesos(a: Option<real>)
    ensures FormatMonto(a) == Pesos(Present(a))
  {
    if NonZero(a) {
      ReplacesAreSwap("$ " + PyMoney(a.value));
      SwapPyMoney(a.value);
    } else {
      assert RoundCents(0.0) == 0;
    }
  }

  // ---------------------------------------------------------------- other formatters

  /** `formatear_fecha`. */
  function FormatFecha(d: Option<CalendarDate>): (r: string)
    ensures d.None? <==> r == "-"
  {
    if d.Some? then FormatDmy(d.value) else "-"
  }

  /** `formatear_datetime`. */
  function FormatFechaHora(t: Option<Timestamp>): (r: string)
    ensures t.None? <==> r == "-"
  {
    if t.Some? then FormatDateTime(t.value) else "-"
  }

  /** With a four-digit year the text splits back into its parts: the date,
      read day first, then a space, the hour, a colon and the minute. */
  lemma FormatFechaHoraReadsBack(t: Timestamp)
    requires t.date.year >= 1000
    ensures FormatFechaHora(None) == "-"
    ensures var r := FormatFechaHora(Some(t));
      && |r| == 16 && Parse(r[..10], Dmy('/')) == Some(t.date)
      && r[10] == ' ' && r[13] == ':'
      && AllDigits(r[11..13]) && DigitsValue(r[11..13]) == t.hour
      && AllDigits(r[14..16]) && DigitsValue(r[14..16]) == t.minute
  {
    FourDigitYearLength(t.date);
    FormatDmyRoundTrip(t.date);
    SplitStamp(FormatDmy(t.date), Pad2(t.hour), Pad2(t.minute));
  }

  lemma FourDigitYearLength(d: CalendarDate)
    requires d.year >= 1000
    ensures |FormatDmy(d)| == 10
  {
    assert Pow10(3) == 1000 && Pow10(4) == 10000;
    NatToStringLength(d.year, 4);
  }

  /** Where the parts of a `dd/mm/yyyy HH:MM` text sit. */
  lemma SplitStamp(d: string, hh: string, mm: string)
    requires |d| == 10 && |hh| == 2 && |mm| == 2
    ensures var r := d + " " + hh + ":" + mm;
      |r| == 16 && r[..10] == d && r[10] == ' ' && r[11..13] == hh && r[13] == ':' && r[14..16] == mm
  {
  }

  /** `strftime('%H:%M')`. */
  function HoraMinuto(t: Timestamp): string {
    Pad2(t.hour) + ":" + Pad2(t.minute)
  }

  /** `si_no`: the Spanish yes exactly for a true flag, otherwise no. */
  function SiNo(b: bool): (r: string)
    ensures r == "Sí" <==> b
    ensures r == "No" <==> !b
  {
    if b then "Sí" else "No"
  }

  /** `str(n) if n else '-'`: a missing or zero count prints as a dash. */
  function Count(n: Option<int>): (r: string)
    ensures n.Some? && n.value != 0 ==> ParseInt(r) == Some(n.value)
    ensures (n.None? || n.value == 0) <==> r == "-"
  {
    if n.Some? && n.value != 0 then
      IntRoundTrip(n.value);
      IntToString(n.value)
    else "-"
  }

  /** `(estado or 'pendiente').capitalize()`. */
  function EstadoPago(s: Option<string>): (r: string)
    ensures !Filled(s) ==> r == "Pendiente"
  {
    Capitalize(OrElse(s, "pendiente"))
  }

  // ---------------------------------------------------------------- the replacement table

  /** The part of the table that only a digital file fills in; any other
      format, a missing one included, reads "No aplica". */
  function Gate(digital: bool, v: string): string {
    if digital then v else "No aplica"
  }

  /** `_crear_diccionario_reemplazos`, entries in insertion order, section by
      section as the source groups them. `now` is the clock reading the three
      generation-time tags print. */
  function Reemplazos(e: Expediente, now: Timestamp): seq<(string, string)> {
    DatosBasicos(e) + Actores(e) + Visados(e) + EstadosPago(e) + Montos(e)
      + Fechas(e, now) + OtrosDatos(e) + DatosGop(e) + BandejasGop(e)
  }

  function DatosBasicos(e: Expediente): (r: seq<(string, string)>)
    ensures Keys(r) == ListedBasicos
  {
    [ ("<#id>", IntToString(e.id)),
      ("<#nro_expediente_cpim>", OrElse(e.nroExpedienteCpim, "No asignado")),
      ("<#fecha>", FormatFecha(e.fecha)),
      ("<#profesion>", OrElse(e.profesion, "-")),
      ("<#formato>", OrElse(e.formato, "-")),
      ("<#nro_copias>", Count(e.nroCopias)),
      ("<#tipo_trabajo>", OrElse(e.tipoTrabajo, "-")) ]
  }

  function Actores(e: Expediente): (r: seq<(string, string)>)
    ensures Keys(r) == ListedActores
  {
    [ ("<#profesional>", OrElse(e.nombreProfesional, "-")),
      ("<#nombre_profesional>", OrElse(e.nombreProfesional, "-")),
      ("<#comitente>", OrElse(e.nombreComitente, "-")),
      ("<#nombre_comitente>", OrElse(e.nombreComitente, "-")),
      ("<#ubicacion>", OrElse(e.ubicacion, "-")),
      ("<#partida_inmobiliaria>", OrElse(e.partidaInmobiliaria, "-")),
      ("<#nro_expediente_municipal>", OrElse(e.nroExpedienteMunicipal, "-")) ]
  }

  function Visados(e: Expediente): (r: seq<(string, string)>)
    ensures Keys(r) == ListedVisados
  {
    [ ("<#visado_gas>", SiNo(e.visadoGas)),
      ("<#visado_salubridad>", SiNo(e.visadoSalubridad)),
      ("<#visado_electrica>", SiNo(e.visadoElectrica)),
      ("<#visado_electromecanica>", SiNo(e.visadoElectromecanica)) ]
  }

  function EstadosPago(e: Expediente): (r: seq<(string, string)>)
    ensures Keys(r) == ListedEstados
  {
    [ ("<#estado_pago_sellado>", EstadoPago(e.estadoPagoSellado)),
      ("<#estado_pago_visado>", EstadoPago(e.estadoPagoVisado)) ]
  }

  function Montos(e: Expediente): (r: seq<(string, string)>)
    ensures Keys(r) == MontoKeys
  {
    [ ("<#tasa_sellado>", FormatMonto(e.tasaSelladoMonto)),
      ("<#tasa_sellado_monto>", FormatMonto(e.tasaSelladoMonto)),
      ("<#tasa_visado_electrica>", FormatMonto(e.fees.electrica)),
      ("<#tasa_visado_electrica_monto>", FormatMonto(e.fees.electrica)),
      ("<#tasa_visado_salubridad>", FormatMonto(e.fees.salubridad)),
      ("<#tasa_visado_salubridad_monto>", FormatMonto(e.fees.salubridad)),
      ("<#tasa_visado_gas>", FormatMonto(e.fees.gas)),
      ("<#tasa_visado_gas_monto>", FormatMonto(e.fees.gas)),
      ("<#tasa_visado_electromecanica>", FormatMonto(e.fees.electromecanica)),
      ("<#tasa_visado_electromecanica_monto>", FormatMonto(e.fees.electromecanica)),
      ("<#total_visados>", FormatMonto(e.totalVisados)) ]
  }

  function Fechas(e: Expediente, now: Timestamp): (r: seq<(string, string)>)
    ensures Keys(r) == ListedFechas
  {
    [ ("<#fecha_salida>", FormatFecha(e.fechaSalida)),
      ("<#fecha_finalizado>", FormatFechaHora(e.fechaFinalizado)),
      ("<#fecha_creacion>", FormatFechaHora(e.createdAt)),
      ("<#fecha_actualizacion>", FormatFechaHora(e.updatedAt)),
      ("<#fecha_generacion>", FormatDateTime(now)),
      ("<#fecha_hoy>", FormatDmy(now.date)),
      ("<#hora_actual>", HoraMinuto(now)) ]
  }

  function OtrosDatos(e: Expediente): (r: seq<(string, string)>)
    ensures Keys(r) == ListedOtros
  {
    [ ("<#persona_retira>", OrElse(e.personaRetira, "-")),
      ("<#nro_caja>", Count(e.nroCaja)),
      ("<#ruta_carpeta>", OrElse(e.rutaCarpeta, "-")),
      ("<#whatsapp_profesional>", OrElse(e.whatsappProfesional, "-")),
      ("<#whatsapp_tramitador>", OrElse(e.whatsappTramitador, "-")),
      ("<#finalizado>", SiNo(e.finalizado)) ]
  }

  /** Portal data, only for a file whose format is exactly "Digital". */
  function DatosGop(e: Expediente): (r: seq<(string, string)>)
    ensures Keys(r) == ListedGop
  {
    var dig := e.formato == Some("Digital");
    [ ("<#gop_numero>", if dig then OrElse(e.gop.numero, "No asignado") else "No aplica (formato papel)"),
      ("<#gop_estado>", Gate(dig, OrElse(e.gop.estado, "-"))),
      ("<#gop_bandeja_actual>", Gate(dig, OrElse(e.gop.bandejaActual, "-"))),
      ("<#gop_usuario_asignado>", Gate(dig, OrElse(e.gop.usuarioAsignado, "-"))),
      ("<#gop_fecha_entrada>", Gate(dig, FormatFecha(e.gop.fechaEntrada))),
      ("<#gop_fecha_en_bandeja>", Gate(dig, FormatFecha(e.gop.fechaEnBandeja))),
      ("<#gop_ultima_sincronizacion>", Gate(dig, FormatFechaHora(e.gop.ultimaSincronizacion))) ]
  }

  function BandejasGop(e: Expediente): (r: seq<(string, string)>)
    ensures Keys(r) == ListedBandejas
  {
    Gated(ListedBandejas, e.formato == Some("Digital"), TrayValues(e.trays))
  }

  /** What a digital file shows for its trays: label, user and entry date of
      each tray, in the order of the tray tags. */
  function TrayValues(t: Trays): (vs: seq<string>)
    ensures |vs| == |ListedBandejas|
  {
    [ OrElse(t.cpim.nombre, "-"), OrElse(t.cpim.usuario, "-"), FormatFecha(t.cpim.fecha),
      OrElse(t.imlauer.nombre, "-"), OrElse(t.imlauer.usuario, "-"), FormatFecha(t.imlauer.fecha),
      OrElse(t.onetto.nombre, "-"), OrElse(t.onetto.usuario, "-"), FormatFecha(t.onetto.fecha),
      OrElse(t.profesional.nombre, "-"), OrElse(t.profesional.usuario, "-"), FormatFecha(t.profesional.fecha) ]
  }

  /** A table whose every value passes the digital gate. */
  function Gated(keys: seq<string>, digital: bool, values: seq<string>): (r: seq<(string, string)>)
    requires |keys| == |values|
    ensures Keys(r) == keys
    ensures forall i :: 0 <= i < |r| ==> r[i].1 == Gate(digital, values[i])
  {
    seq(|keys|, i requires 0 <= i < |keys| => (keys[i], Gate(digital, values[i])))
  }

  function Keys(table: seq<(string, string)>): (ks: seq<string>)
    ensures |ks| == |table|
    ensures forall i :: 0 <= i < |table| ==> ks[i] == table[i].0
  {
    seq(|table|, i requires 0 <= i < |table| => table[i].0)
  }

  lemma KeysConcat(a: seq<(string, string)>, b: seq<(string, string)>)
    ensures Keys(a + b) == Keys(a) + Keys(b)
  {
  }

  /** The value a dictionary lookup of `key` returns. */
  function Lookup(table: seq<(string, string)>, key: string): (r: Option<string>)
    ensures r.None? <==> key !in Keys(table)
    ensures r.Some? ==> exists i :: 0 <= i < |table| && table[i] == (key, r.value)
  {
    if |table| == 0 then None
    else if table[0].0 == key then Some(table[0].1)
    else
      assert Keys(table[1..]) == Keys(table)[1..];
      var r := Lookup(table[1..], key);
      if r.Some? then
        var j :| 0 <= j < |table[1..]| && table[1..][j] == (key, r.value);
        assert table[j + 1] == (key, r.value);
        r
      else r
  }

  /** A file that is not digital (paper, another format, or none recorded)
      gets "No aplica" for every portal tag except the portal number, which
      says the file is on paper; a digital file shows its own data. */
  lemma GopGating(e: Expediente)
    ensures e.formato != Some("Digital") ==>
      && DatosGop(e)[0].1 == "No aplica (formato papel)"
      && (forall i :: 1 <= i < |DatosGop(e)| ==> DatosGop(e)[i].1 == "No aplica")
    ensures e.formato == Some("Digital") ==>
      && DatosGop(e)[0].1 == OrElse(e.gop.numero, "No asignado")
      && DatosGop(e)[4].1 == FormatFecha(e.gop.fechaEntrada)
  {
  }

  /** The tray tags follow the same gate. */
  lemma TrayGating(e: Expediente)
    ensures e.formato != Some("Digital") ==>
      forall i :: 0 <= i < |BandejasGop(e)| ==> BandejasGop(e)[i].1 == "No aplica"
    ensures e.formato == Some("Digital") ==>
      && BandejasGop(e)[0].1 == OrElse(e.trays.cpim.nombre, "-")
      && BandejasGop(e)[2].1 == FormatFecha(e.trays.cpim.fecha)
  {
    var digital := e.formato == Some("Digital");
    var vs := TrayValues(e.trays);
    assert BandejasGop(e) == Gated(ListedBandejas, digital, vs);
    if digital {
      assert vs[0] == OrElse(e.trays.cpim.nombre, "-") && vs[2] == FormatFecha(e.trays.cpim.fecha);
    }
  }

  /** Each `_monto` alias prints the same amount as its short tag. */
  lemma AmountAliasesAgree(e: Expediente)
    ensures Montos(e)[1].1 == Montos(e)[0].1 && Montos(e)[3].1 == Montos(e)[2].1
    ensures Montos(e)[5].1 == Montos(e)[4].1 && Montos(e)[7].1 == Montos(e)[6].1
    ensures Montos(e)[9].1 == Montos(e)[8].1
  {
  }

  // ---------------------------------------------------------------- rewriting a paragraph

  /** The replacement loop: every entry, in table order, replaced throughout
      the text produced so far. */
  function ReplaceTags(text: string, table: seq<(string, string)>): string
    decreases |table|
  {
    if |table| == 0 then text else ReplaceTags(ReplaceAll(text, table[0].0, table[0].1), table[1..])
  }

  predicate AnyTagIn(text: string, table: seq<(string, string)>) {
    exists i :: 0 <= i < |table| && Contains(text, table[i].0)
  }

  /** `_reemplazar_en_texto` on the paragraph's text: rewritten only when some
      tag occurs in it. */
  function ReemplazarEnTexto(text: string, table: seq<(string, string)>): string {
    if AnyTagIn(text, table) then ReplaceTags(text, table) else text
  }

  /** With no tag present, the replacement loop changes nothing. */
  lemma {:induction false} ReplaceTagsAbsent(text: string, table: seq<(string, string)>)
    requires !AnyTagIn(text, table)
    ensures ReplaceTags(text, table) == text
    decreases |table|
  {
    if |table| > 0 {
      assert Contains(text, "") by { assert IsPrefix("", text); }
      assert table[0].0 != "";
      ReplaceAbsent(text, table[0].0, table[0].1);
      assert forall i :: 0 <= i < |table[1..]| ==> table[1..][i] == table[i + 1];
      ReplaceTagsAbsent(text, table[1..]);
    }
  }

  /** The `any(...)` guard is only a shortcut: the paragraph's new text is
      always what the replacement loop computes, so paragraphs without tags
      keep their text. */
  lemma GuardIsShortcut(text: string, table: seq<(string, string)>)
    ensures ReemplazarEnTexto(text, table) == ReplaceTags(text, table)
    ensures !AnyTagIn(text, table) ==> ReemplazarEnTexto(text, table) == text
  {
    if !AnyTagIn(text, table) {
      ReplaceTagsAbsent(text, table);
    }
  }

  // ---------------------------------------------------------------- the tag list

  /** The tags `listar_etiquetas_disponibles` lists, before sorting. */
  const ListedTags: seq<string> :=
    ListedBasicos + ListedActores + ListedVisados + ListedEstados + ListedMontos
      + ListedFechas + ListedOtros + ListedGop + ListedBandejas

  const ListedBasicos: seq<string> := ["<#id>", "<#nro_expediente_cpim>", "<#fecha>", "<#profesion>", "<#formato>",
    "<#nro_copias>", "<#tipo_trabajo>"]
  const ListedActores: seq<string> := ["<#profesional>", "<#nombre_profesional>", "<#comitente>", "<#nombre_comitente>",
    "<#ubicacion>", "<#partida_inmobiliaria>", "<#nro_expediente_municipal>"]
  const ListedVisados: seq<string> := ["<#visado_gas>", "<#visado_salubridad>", "<#visado_electrica>", "<#visado_electromecanica>"]
  const ListedEstados: seq<string> := ["<#estado_pago_sellado>", "<#estado_pago_visado>"]
  const ListedMontos: seq<string> := ["<#tasa_sellado>", "<#tasa_visado_electrica>", "<#tasa_visado_salubridad>",
    "<#tasa_visado_gas>", "<#tasa_visado_electromecanica>", "<#total_visados>"]
  const ListedFechas: seq<string> := ["<#fecha_salida>", "<#fecha_finalizado>", "<#fecha_creacion>", "<#fecha_actualizacion>",
    "<#fecha_generacion>", "<#fecha_hoy>", "<#hora_actual>"]
  const ListedOtros: seq<string> := ["<#persona_retira>", "<#nro_caja>", "<#ruta_carpeta>",
    "<#whatsapp_profesional>", "<#whatsapp_tramitador>", "<#finalizado>"]
  const ListedGop: seq<string> := ["<#gop_numero>", "<#gop_estado>", "<#gop_bandeja_actual>", "<#gop_usuario_asignado>",
    "<#gop_fecha_entrada>", "<#gop_fecha_en_bandeja>", "<#gop_ultima_sincronizacion>"]
  /** The keys of the amounts section: each listed amount tag and its `_monto`
      alias. */
  const MontoKeys: seq<string> := ["<#tasa_sellado>", "<#tasa_sellado_monto>",
    "<#tasa_visado_electrica>", "<#tasa_visado_electrica_monto>",
    "<#tasa_visado_salubridad>", "<#tasa_visado_salubridad_monto>",
    "<#tasa_visado_gas>", "<#tasa_visado_gas_monto>",
    "<#tasa_visado_electromecanica>", "<#tasa_visado_electromecanica_monto>", "<#total_visados>"]
  const ListedBandejas: seq<string> := [
    "<#bandeja_cpim_nombre>", "<#bandeja_cpim_usuario>", "<#bandeja_cpim_fecha>",
    "<#bandeja_imlauer_nombre>", "<#bandeja_imlauer_usuario>", "<#bandeja_imlauer_fecha>",
    "<#bandeja_onetto_nombre>", "<#bandeja_onetto_usuario>", "<#bandeja_onetto_fecha>",
    "<#bandeja_profesional_nombre>", "<#bandeja_profesional_usuario>", "<#bandeja_profesional_fecha>"]

  /** Python's `a <= b` on strings: code-point lexicographic order. */
  predicate StrLe(a: string, b: string) {
    |a| == 0 || (|b| > 0 && (a[0] < b[0] || (a[0] == b[0] && StrLe(a[1..], b[1..]))))
  }

  lemma {:induction false} StrLeTotal(a: string, b: string)
    ensures StrLe(a, b) || StrLe(b, a)
  {
    if |a| > 0 && |b| > 0 && a[0] == b[0] {
      StrLeTotal(a[1..], b[1..]);
    }
  }

  lemma {:induction false} StrLeTrans(a: string, b: string, c: string)
    requires StrLe(a, b) && StrLe(b, c)
    ensures StrLe(a, c)
  {
    if |a| > 0 && a[0] == b[0] && b[0] == c[0] {
      StrLeTrans(a[1..], b[1..], c[1..]);
    }
  }

  /** Each neighbour pair in order. */
  predicate Chained(s: seq<string>) {
    forall i :: 0 <= i < |s| - 1 ==> StrLe(s[i], s[i + 1])
  }

  /** Every pair in order, the meaning of "sorted". */
  predicate Ordered(s: seq<string>) {
    forall i, j :: 0 <= i < j < |s| ==> StrLe(s[i], s[j])
  }

  lemma {:induction false} ChainedIsOrdered(s: seq<string>)
    requires Chained(s)
    ensures Ordered(s)
    decreases |s|
  {
    if |s| > 1 {
      ChainedIsOrdered(s[1..]);
      forall j | 1 < j < |s|
        ensures StrLe(s[0], s[j])
      {
        assert s[1..][0] == s[1] && s[1..][j - 1] == s[j];
        StrLeTrans(s[0], s[1], s[j]);
      }
      forall i, j | 0 <= i < j < |s|
        ensures StrLe(s[i], s[j])
      {
        if i > 0 {
          assert s[1..][i - 1] == s[i] && s[1..][j - 1] == s[j];
        }
      }
    }
  }

  function Insert(x: string, s: seq<string>): (r: seq<string>)
    requires Chained(s)
    ensures Chained(r)
    ensures multiset(r) == multiset(s) + multiset{x}
    ensures |r| > 0 && (r[0] == x || (|s| > 0 && r[0] == s[0]))
  {
    if |s| == 0 then [x]
    else if StrLe(x, s[0]) then [x] + s
    else
      StrLeTotal(x, s[0]);
      var rest := Insert(x, s[1..]);
      assert s == [s[0]] + s[1..];
      [s[0]] + rest
  }

  /** Python's `sorted` on a list of strings, as an insertion sort. */
  function Sort(s: seq<string>): (r: seq<string>)
    ensures Ordered(r)
    ensures multiset(r) == multiset(s)
  {
    if |s| == 0 then []
    else
      var rest := Sort(s[..|s| - 1]);
      ChainedFromOrdered(rest);
      var r := Insert(s[|s| - 1], rest);
      assert s == s[..|s| - 1] + [s[|s| - 1]];
      ChainedIsOrdered(r);
      r
  }

  lemma ChainedFromOrdered(s: seq<string>)
    requires Ordered(s)
    ensures Chained(s)
  {
  }

  /** `listar_etiquetas_disponibles`. */
  function ListarEtiquetas(): (r: seq<string>)
    ensures Ordered(r)
    ensures multiset(r) == multiset(ListedTags)
  {
    Sort(ListedTags)
  }

  /** The keys the generator fills, whatever the file: the listed tags with
      the five `_monto` aliases among the amounts. */
  lemma ReemplazosKeys(e: Expediente, now: Timestamp)
    ensures Keys(Reemplazos(e, now)) == ListedBasicos + ListedActores + ListedVisados + ListedEstados + MontoKeys
      + ListedFechas + ListedOtros + ListedGop + ListedBandejas
  {
    var s1 := DatosBasicos(e) + Actores(e);
    var s2 := s1 + Visados(e);
    var s3 := s2 + EstadosPago(e);
    var s4 := s3 + Montos(e);
    var s5 := s4 + Fechas(e, now);
    var s6 := s5 + OtrosDatos(e);
    var s7 := s6 + DatosGop(e);
    KeysConcat(DatosBasicos(e), Actores(e));
    KeysConcat(s1, Visados(e));
    KeysConcat(s2, EstadosPago(e));
    KeysConcat(s3, Montos(e));
    KeysConcat(s4, Fechas(e, now));
    KeysConcat(s5, OtrosDatos(e));
    KeysConcat(s6, DatosGop(e));
    KeysConcat(s7, BandejasGop(e));
  }

  /** The tags the template author is offered all occur among the keys. */
  lemma ListedWithinKeys()
    ensures forall t :: t in ListedTags ==>
      t in ListedBasicos + ListedActores + ListedVisados + ListedEstados + MontoKeys
        + ListedFechas + ListedOtros + ListedGop + ListedBandejas
  {
    assert forall t :: t in ListedMontos ==> t in MontoKeys by {
      assert MontoKeys[0] == ListedMontos[0] && MontoKeys[2] == ListedMontos[1] && MontoKeys[4] == ListedMontos[2];
      assert MontoKeys[6] == ListedMontos[3] && MontoKeys[8] == ListedMontos[4] && MontoKeys[10] == ListedMontos[5];
    }
  }

  /** Every listed tag is one the generator replaces. */
  lemma ListedTagsAreReplaced(e: Expediente, now: Timestamp)
    ensures forall t :: t in ListarEtiquetas() ==> Lookup(Reemplazos(e, now), t).Some?
  {
    ReemplazosKeys(e, now);
    ListedWithinKeys();
    forall t | t in ListarEtiquetas()
      ensures t in Keys(Reemplazos(e, now))
    {
      assert t in multiset(ListarEtiquetas());
      assert t in ListedTags;
    }
  }

  /** The listing offers five tags fewer than the generator replaces: the
      `_monto` aliases are left out of it. */
  lemma ListingOmitsAliases(e: Expediente, now: Timestamp)
    ensures |ListarEtiquetas()| + 5 == |Reemplazos(e, now)|
  {
    ReemplazosKeys(e, now);
    ListedCount();
    ListingLength();
  }

  /** The listing has one entry per catalogued tag. */
  lemma ListingLength()
    ensures |ListarEtiquetas()| == |ListedTags|
  {
    var r := ListarEtiquetas();
    assert |r| == |multiset(r)| == |multiset(ListedTags)| == |ListedTags|;
  }

  /** The section keys number five more than the listed tags. */
  lemma ListedCount()
    ensures |ListedBasicos + ListedActores + ListedVisados + ListedEstados + MontoKeys
      + ListedFechas + ListedOtros + ListedGop + ListedBandejas| == |ListedTags| + 5
  {
  }
}
