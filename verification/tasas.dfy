/** The fee-closing ("cierre de tasas") arithmetic of `TasasAnalyzer`: per
    type totals of the endorsement fees of the paid case files of a period,
    the split between the two engineers and the board (CPIM), the per-file
    rows with their tray information, the summary, and the closing record.
    Decimal arithmetic is exact, so amounts are reals. */
module Tasas {
  import opened Wrappers
  import opened Dates
  import opened Expedientes

  // ---------------------------------------------------------------- type totals

  datatype TypeTotals = TypeTotals(gas: real, salubridad: real, electrica: real, electromecanica: real)

  function GasOf(f: Fees): Option<real> { f.gas }
  function SalubridadOf(f: Fees): Option<real> { f.salubridad }
  function ElectricaOf(f: Fees): Option<real> { f.electrica }
  function ElectromecanicaOf(f: Fees): Option<real> { f.electromecanica }

  /** The sum over the files of one fee type, missing amounts read as zero. */
  function SumOf(es: seq<Expediente>, fee: Fees -> Option<real>): real {
    if |es| == 0 then 0.0 else SumOf(es[..|es| - 1], fee) + Present(fee(es[|es| - 1].fees))
  }

  /** The per-type totals as sums over the files. */
  function TotalesPorTipo(es: seq<Expediente>): TypeTotals {
    TypeTotals(SumOf(es, GasOf), SumOf(es, SalubridadOf), SumOf(es, ElectricaOf), SumOf(es, ElectromecanicaOf))
  }

  /** `_calcular_totales_por_tipo`: one pass over the files adding each present,
      non-zero fee to its type's running total. */
  method CalcularTotalesPorTipo(es: seq<Expediente>) returns (t: TypeTotals)
    ensures t.gas == SumOf(es, GasOf)
    ensures t.salubridad == SumOf(es, SalubridadOf)
    ensures t.electrica == SumOf(es, ElectricaOf)
    ensures t.electromecanica == SumOf(es, ElectromecanicaOf)
  {
    t := TypeTotals(0.0, 0.0, 0.0, 0.0);
    var i := 0;
    while i < |es|
      invariant 0 <= i <= |es|
      invariant t == TotalesPorTipo(es[..i])
    {
      var f := es[i].fees;
      if NonZero(f.gas) {
        t := t.(gas := t.gas + f.gas.value);
      }
      if NonZero(f.salubridad) {
        t := t.(salubridad := t.salubridad + f.salubridad.value);
      }
      if NonZero(f.electrica) {
        t := t.(electrica := t.electrica + f.electrica.value);
      }
      if NonZero(f.electromecanica) {
        t := t.(electromecanica := t.electromecanica + f.electromecanica.value);
      }
      assert es[..i + 1][..i] == es[..i];
      i := i + 1;
    }
    assert es[..|es|] == es;
  }

  // ---------------------------------------------------------------- fees split

  /** One engineer's part: the fees of his types and their 70/30 split. */
  datatype Share = Share(totalTasas: real, paraIngeniero: real, paraCpim: real, tiposVisado: seq<string>)

  datatype Honorarios = Honorarios(
    imlauer: Share,
    onetto: Share,
    totalTodasTasas: real,
    totalParaIngenieros: real,
    totalParaCpim: real)

  const EngineerRate: real := 0.70
  const BoardRate: real := 0.30

  /** `_calcular_honorarios`: gas and sanitation fees go to Imlauer, electrical
      and electromechanical fees to Onetto; of every total 70% is the
      engineer's and 30% the board's. */
  function CalcularHonorarios(t: TypeTotals): (h: Honorarios)
    ensures h.imlauer.totalTasas == t.gas + t.salubridad
    ensures h.onetto.totalTasas == t.electrica + t.electromecanica
    ensures h.totalTodasTasas == t.gas + t.salubridad + t.electrica + t.electromecanica
    ensures h.imlauer.paraIngeniero + h.imlauer.paraCpim == h.imlauer.totalTasas
    ensures h.onetto.paraIngeniero + h.onetto.paraCpim == h.onetto.totalTasas
    ensures 3.0 * h.imlauer.paraIngeniero == 7.0 * h.imlauer.paraCpim
    ensures 3.0 * h.onetto.paraIngeniero == 7.0 * h.onetto.paraCpim
    ensures h.totalParaIngenieros == h.imlauer.paraIngeniero + h.onetto.paraIngeniero
    ensures h.totalParaCpim == h.imlauer.paraCpim + h.onetto.paraCpim
    ensures h.totalParaIngenieros + h.totalParaCpim == h.totalTodasTasas
  {
    var totalImlauer := t.gas + t.salubridad;
    var totalOnetto := t.electrica + t.electromecanica;
    var totalGeneral := totalImlauer + totalOnetto;
    Honorarios(
      Share(totalImlauer, totalImlauer * EngineerRate, totalImlauer * BoardRate, ["Gas", "Salubridad"]),
      Share(totalOnetto, totalOnetto * EngineerRate, totalOnetto * BoardRate, ["Eléctrica", "Electromecánica"]),
      totalGeneral,
      (totalImlauer + totalOnetto) * EngineerRate,
      (totalImlauer + totalOnetto) * BoardRate)
  }

  // ---------------------------------------------------------------- trays

  /** The `dias` of one tray: days since the file entered it (negative for a
      date after `today`), 0 for a tray with no date. */
  function DiasEn(t: Tray, today: CalendarDate): int {
    if t.fecha.Some? then Ordinal(today) - Ordinal(t.fecha.value) else 0
  }

  /** A tray that can be the current one: it has both a label and a date. */
  predicate Candidate(t: Tray) {
    t.fecha.Some? && Filled(t.nombre)
  }

  function Rank(k: TrayKind): (r: nat)
    ensures r < |TrayOrder| && TrayOrder[r] == k
  {
    match k
    case Cpim => 0
    case Imlauer => 1
    case Onetto => 2
    case Profesional => 3
  }

  /** `actual` is the right answer among the first `n` trays in list order:
      none when no tray there is a candidate; otherwise a candidate whose date
      no other candidate's exceeds, and strictly later than every candidate
      listed before it (a tie keeps the earlier tray). */
  ghost predicate LatestAmong(trays: Trays, n: nat, actual: Option<TrayKind>) {
    && (actual.None? <==> forall k :: Rank(k) < n ==> !Candidate(trays.Get(k)))
    && (actual.Some? ==>
        var a := trays.Get(actual.value);
        && Rank(actual.value) < n
        && Candidate(a)
        && forall k :: Rank(k) < n && Candidate(trays.Get(k)) ==>
             && !Before(a.fecha.value, trays.Get(k).fecha.value)
             && (Rank(k) < Rank(actual.value) ==> Before(trays.Get(k).fecha.value, a.fecha.value)))
  }

  /** The `bandeja_actual` loop run over the first `n` trays: a candidate
      replaces the current choice only when its date is strictly later. */
  function BandejaActual(trays: Trays, n: nat): (r: Option<TrayKind>)
    requires n <= |TrayOrder|
    ensures LatestAmong(trays, n, r)
  {
    if n == 0 then None
    else
      var prev := BandejaActual(trays, n - 1);
      var k := TrayOrder[n - 1];
      var t := trays.Get(k);
      assert Rank(k) == n - 1;
      if Candidate(t) && (prev.None? || Before(trays.Get(prev.value).fecha.value, t.fecha.value)) then
        Some(k)
      else
        prev
  }

  /** The summary of a digital file's trays. */
  datatype TrayInfo =
    | PaperFile
    | DigitalFile(
        trays: Trays,
        dias: seq<int>,
        bandejaActual: Option<TrayKind>,
        totalDiasSistema: int,
        tieneDatosBandeja: bool,
        gop: Gop)

  /** `_obtener_info_bandejas_expediente`. */
  function InfoBandejas(e: Expediente, today: CalendarDate): (r: TrayInfo)
    ensures r.PaperFile? <==> e.formato == Some("Papel")
    ensures r.DigitalFile? ==>
      && |r.dias| == |TrayOrder|
      && (forall i :: 0 <= i < |TrayOrder| ==> r.dias[i] == DiasEn(e.trays.Get(TrayOrder[i]), today))
      && r.totalDiasSistema == r.dias[0] + r.dias[1] + r.dias[2] + r.dias[3]
      && LatestAmong(e.trays, |TrayOrder|, r.bandejaActual)
      && (r.tieneDatosBandeja <==> exists k :: Filled(e.trays.Get(k).nombre))
  {
    if e.formato == Some("Papel") then PaperFile
    else
      var tr := e.trays;
      DigitalFile(tr, DiasPorBandeja(tr, today), BandejaActual(tr, |TrayOrder|), TotalDias(tr, today, |TrayOrder|),
        AnyNamed(tr), e.gop)
  }

  /** The day count of each tray, in list order. */
  function DiasPorBandeja(tr: Trays, today: CalendarDate): (dias: seq<int>)
    ensures |dias| == |TrayOrder|
    ensures forall i :: 0 <= i < |TrayOrder| ==> dias[i] == DiasEn(tr.Get(TrayOrder[i]), today)
    ensures TotalDias(tr, today, |TrayOrder|) == dias[0] + dias[1] + dias[2] + dias[3]
  {
    [DiasEn(tr.cpim, today), DiasEn(tr.imlauer, today), DiasEn(tr.onetto, today), DiasEn(tr.profesional, today)]
  }

  /** Whether some tray carries a label. */
  function AnyNamed(tr: Trays): (b: bool)
    ensures b <==> exists k :: Filled(tr.Get(k).nombre)
  {
    assert forall k :: tr.Get(k) in [tr.cpim, tr.imlauer, tr.onetto, tr.profesional];
    assert Filled(tr.cpim.nombre) ==> Filled(tr.Get(Cpim).nombre);
    assert Filled(tr.imlauer.nombre) ==> Filled(tr.Get(Imlauer).nombre);
    assert Filled(tr.onetto.nombre) ==> Filled(tr.Get(Onetto).nombre);
    assert Filled(tr.profesional.nombre) ==> Filled(tr.Get(Profesional).nombre);
    Filled(tr.cpim.nombre) || Filled(tr.imlauer.nombre) || Filled(tr.onetto.nombre) || Filled(tr.profesional.nombre)
  }

  /** `total_dias_sistema` over the first `n` trays: the days of each dated
      tray added in list order. */
  function TotalDias(trays: Trays, today: CalendarDate, n: nat): (total: int)
    requires n <= |TrayOrder|
    ensures total == (if n >= 1 then DiasEn(trays.cpim, today) else 0)
                   + (if n >= 2 then DiasEn(trays.imlauer, today) else 0)
                   + (if n >= 3 then DiasEn(trays.onetto, today) else 0)
                   + (if n >= 4 then DiasEn(trays.profesional, today) else 0)
  {
    if n == 0 then 0
    else
      var t := trays.Get(TrayOrder[n - 1]);
      TotalDias(trays, today, n - 1) + (if t.fecha.Some? then Ordinal(today) - Ordinal(t.fecha.value) else 0)
  }

  /** The current tray is the one the file entered most recently, so its day
      count is the smallest among the labelled, dated trays. */
  lemma CurrentTrayHasFewestDays(e: Expediente, today: CalendarDate, k: TrayKind)
    requires InfoBandejas(e, today).DigitalFile?
    requires InfoBandejas(e, today).bandejaActual.Some?
    requires Candidate(e.trays.Get(k))
    ensures var info := InfoBandejas(e, today);
      DiasEn(e.trays.Get(info.bandejaActual.value), today) <= DiasEn(e.trays.Get(k), today)
  {
    var info := InfoBandejas(e, today);
    var a := e.trays.Get(info.bandejaActual.value).fecha.value;
    var b := e.trays.Get(k).fecha.value;
    assert !Before(a, b);
    if a != b {
      assert Before(b, a);
      OrdinalMonotone(b, a);
    }
  }

  /** A file whose tray dates all lie on or before `today` has a non-negative
      day total. */
  lemma TotalDiasNonNegative(e: Expediente, today: CalendarDate)
    requires InfoBandejas(e, today).DigitalFile?
    requires forall k :: e.trays.Get(k).fecha.Some? ==> !Before(today, e.trays.Get(k).fecha.value)
    ensures InfoBandejas(e, today).totalDiasSistema >= 0
  {
    forall k | e.trays.Get(k).fecha.Some?
      ensures DiasEn(e.trays.Get(k), today) >= 0
    {
      var f := e.trays.Get(k).fecha.value;
      if f != today {
        OrdinalMonotone(f, today);
      }
    }
    assert DiasEn(e.trays.Get(Cpim), today) >= 0;
    assert DiasEn(e.trays.Get(Imlauer), today) >= 0;
    assert DiasEn(e.trays.Get(Onetto), today) >= 0;
    assert DiasEn(e.trays.Get(Profesional), today) >= 0;
  }

  // ---------------------------------------------------------------- per-file rows

  datatype FileRow = FileRow(
    id: int,
    fecha: Option<CalendarDate>,
    profesional: Option<string>,
    comitente: Option<string>,
    nroExpedienteCpim: Option<string>,
    gopNumero: Option<string>,
    gas: real,
    salubridad: real,
    electrica: real,
    electromecanica: real,
    totalVisados: real,
    estadoPago: string,
    formato: Option<string>,
    finalizado: bool,
    fechaFinalizado: Option<Timestamp>,
    bandejas: TrayInfo)

  /** One entry of `_preparar_datos_expedientes`: each fee type that is present
      and non-zero is reported and added to the file's total, a missing type is
      reported as 0. */
  function PrepararFila(e: Expediente, esPagado: bool, today: CalendarDate): (r: FileRow)
    ensures r.id == e.id
    ensures r.gas == Present(e.fees.gas) && r.salubridad == Present(e.fees.salubridad)
    ensures r.electrica == Present(e.fees.electrica) && r.electromecanica == Present(e.fees.electromecanica)
    ensures r.totalVisados == r.gas + r.salubridad + r.electrica + r.electromecanica
    ensures r.estadoPago == (if esPagado then "Pagado" else "No pagado")
    ensures r.bandejas == InfoBandejas(e, today)
  {
    var f := e.fees;
    var total := 0.0;
    var total := if NonZero(f.gas) then total + f.gas.value else total;
    var total := if NonZero(f.salubridad) then total + f.salubridad.value else total;
    var total := if NonZero(f.electrica) then total + f.electrica.value else total;
    var total := if NonZero(f.electromecanica) then total + f.electromecanica.value else total;
    FileRow(e.id, e.fechaSalida, e.nombreProfesional, e.nombreComitente, e.nroExpedienteCpim, e.gop.numero,
      Present(f.gas), Present(f.salubridad), Present(f.electrica), Present(f.electromecanica),
      total,
      if esPagado then "Pagado" else "No pagado",
      e.formato, e.finalizado, e.fechaFinalizado,
      InfoBandejas(e, today))
  }

  function PrepararDatos(es: seq<Expediente>, esPagado: bool, today: CalendarDate): (rows: seq<FileRow>)
    ensures |rows| == |es|
    ensures forall i :: 0 <= i < |es| ==> rows[i] == PrepararFila(es[i], esPagado, today)
  {
    seq(|es|, i requires 0 <= i < |es| => PrepararFila(es[i], esPagado, today))
  }

  function SumTotalVisados(rows: seq<FileRow>): real {
    if |rows| == 0 then 0.0 else SumTotalVisados(rows[..|rows| - 1]) + rows[|rows| - 1].totalVisados
  }

  /** Adding the files' totals gives the same amount as adding the four type
      totals: the per-file and the per-type views of the period agree. */
  lemma {:induction false} FileTotalsMatchTypeTotals(es: seq<Expediente>, esPagado: bool, today: CalendarDate)
    ensures var t := TotalesPorTipo(es);
      SumTotalVisados(PrepararDatos(es, esPagado, today)) == t.gas + t.salubridad + t.electrica + t.electromecanica
  {
    if |es| > 0 {
      var init := es[..|es| - 1];
      FileTotalsMatchTypeTotals(init, esPagado, today);
      var rows := PrepararDatos(es, esPagado, today);
      assert rows[..|rows| - 1] == PrepararDatos(init, esPagado, today);
    }
  }

  // ---------------------------------------------------------------- summary

  datatype Resumen = Resumen(
    cantidadPagados: nat,
    cantidadNoPagados: nat,
    totalExpedientes: nat,
    totales: TypeTotals,
    totalGeneral: real,
    honorariosImlauer: real,
    honorariosOnetto: real,
    honorariosCpim: real)

  /** `_crear_resumen`. */
  function CrearResumen(t: TypeTotals, h: Honorarios, cantPagados: nat, cantNoPagados: nat): (r: Resumen)
    ensures r.totalExpedientes == r.cantidadPagados + r.cantidadNoPagados
    ensures r.cantidadPagados == cantPagados && r.cantidadNoPagados == cantNoPagados
    ensures r.totalGeneral == t.gas + t.salubridad + t.electrica + t.electromecanica
    ensures r.honorariosImlauer == h.imlauer.paraIngeniero
    ensures r.honorariosOnetto == h.onetto.paraIngeniero
    ensures r.honorariosCpim == h.totalParaCpim
  {
    Resumen(cantPagados, cantNoPagados, cantPagados + cantNoPagados, t,
      0.0 + t.gas + t.salubridad + t.electrica + t.electromecanica,
      h.imlauer.paraIngeniero, h.onetto.paraIngeniero, h.totalParaCpim)
  }

  datatype Analysis = Analysis(
    fechaDesde: CalendarDate,
    fechaHasta: CalendarDate,
    pagados: seq<FileRow>,
    noPagados: seq<FileRow>,
    totales: TypeTotals,
    honorarios: Honorarios,
    resumen: Resumen)

  /** The pure part of `analizar_periodo`, given the paid and the unpaid files
      of the period that the database query selected: only paid files count
      towards the totals; unpaid ones are listed only when asked for. */
  function Analizar(desde: CalendarDate, hasta: CalendarDate, pagados: seq<Expediente>, noPagados: seq<Expediente>,
                    incluirNoPagados: bool, today: CalendarDate): (a: Analysis)
    ensures a.fechaDesde == desde && a.fechaHasta == hasta
    ensures |a.pagados| == |pagados|
    ensures forall i :: 0 <= i < |pagados| ==> a.pagados[i] == PrepararFila(pagados[i], true, today)
    ensures |a.noPagados| == (if incluirNoPagados then |noPagados| else 0)
    ensures forall i :: 0 <= i < |a.noPagados| ==> a.noPagados[i] == PrepararFila(noPagados[i], false, today)
    ensures a.totales == TotalesPorTipo(pagados)
    ensures a.honorarios == CalcularHonorarios(a.totales)
  {
    var listados := if incluirNoPagados then noPagados else [];
    var t := TotalesPorTipo(pagados);
    var h := CalcularHonorarios(t);
    var datosPagados := PrepararDatos(pagados, true, today);
    var datosNoPagados := PrepararDatos(listados, false, today);
    Analysis(desde, hasta, datosPagados, datosNoPagados, t, h,
      CrearResumen(t, h, |datosPagados|, |datosNoPagados|))
  }

  /** Everything the analysis reports about money agrees: the grand total is
      the sum of the paid files' totals, the engineers' and the board's parts
      add up to it, and the file count is paid plus listed unpaid files. */
  lemma AnalysisBalances(desde: CalendarDate, hasta: CalendarDate, pagados: seq<Expediente>, noPagados: seq<Expediente>,
                         incluirNoPagados: bool, today: CalendarDate)
    ensures var a := Analizar(desde, hasta, pagados, noPagados, incluirNoPagados, today);
      && a.resumen.totalGeneral == SumTotalVisados(a.pagados)
      && a.resumen.totalGeneral == a.honorarios.totalTodasTasas
      && a.resumen.honorariosImlauer + a.resumen.honorariosOnetto + a.resumen.honorariosCpim == a.resumen.totalGeneral
      && a.resumen.totalExpedientes == |a.pagados| + |a.noPagados|
  {
    FileTotalsMatchTypeTotals(pagados, true, today);
  }

  // ---------------------------------------------------------------- closing

  datatype Cierre = Cierre(
    nombreCierre: string,
    fechaDesde: CalendarDate,
    fechaHasta: CalendarDate,
    fechaCierre: Timestamp,
    usuarioCierre: string,
    totalImlauer: real,
    totalOnetto: real,
    totalCpim: real,
    totalGeneral: real,
    expedientesIncluidos: seq<int>,
    observaciones: Option<string>)

  /** The record `crear_cierre` builds before writing it: refused when the
      analysis has no paid file; otherwise it includes exactly the paid files,
      in order, with the analysis's fee split. `now` is the clock reading. */
  function CrearCierre(a: Analysis, nombre: string, usuario: Option<string>, observaciones: Option<string>,
                       now: Timestamp): (r: Result<Cierre>)
    ensures r.Err? <==> |a.pagados| == 0
    ensures r.Ok? ==> (
      && |r.value.expedientesIncluidos| == |a.pagados|
      && forall i :: 0 <= i < |a.pagados| ==> r.value.expedientesIncluidos[i] == a.pagados[i].id)
    ensures r.Ok? ==> (
      && r.value.totalImlauer == a.honorarios.imlauer.paraIngeniero
      && r.value.totalOnetto == a.honorarios.onetto.paraIngeniero
      && r.value.totalCpim == a.honorarios.totalParaCpim
      && r.value.totalGeneral == a.honorarios.totalTodasTasas)
    ensures r.Ok? ==> r.value.usuarioCierre == OrElse(usuario, "Sistema")
  {
    if |a.pagados| == 0 then Err("No hay expedientes pagados para incluir en el cierre")
    else
      var ids := seq(|a.pagados|, i requires 0 <= i < |a.pagados| => a.pagados[i].id);
      Ok(Cierre(nombre, a.fechaDesde, a.fechaHasta, now, OrElse(usuario, "Sistema"),
        a.honorarios.imlauer.paraIngeniero, a.honorarios.onetto.paraIngeniero,
        a.honorarios.totalParaCpim, a.honorarios.totalTodasTasas, ids, observaciones))
  }

  /** A closing built from an analysis balances: the two engineers' amounts
      and the board's amount add up to its grand total, and it lists the ids
      of the paid files the analysis started from. */
  lemma ClosingBalances(desde: CalendarDate, hasta: CalendarDate, pagados: seq<Expediente>, noPagados: seq<Expediente>,
                        incluir: bool, today: CalendarDate, nombre: string, usuario: Option<string>,
                        obs: Option<string>, now: Timestamp)
    requires |pagados| > 0
    ensures var c := CrearCierre(Analizar(desde, hasta, pagados, noPagados, incluir, today), nombre, usuario, obs, now);
      && c.Ok?
      && c.value.totalImlauer + c.value.totalOnetto + c.value.totalCpim == c.value.totalGeneral
      && c.value.totalGeneral == SumTotalVisados(PrepararDatos(pagados, true, today))
      && |c.value.expedientesIncluidos| == |pagados|
      && forall i :: 0 <= i < |pagados| ==> c.value.expedientesIncluidos[i] == pagados[i].id
  {
    AnalysisBalances(desde, hasta, pagados, noPagados, incluir, today);
  }
}
