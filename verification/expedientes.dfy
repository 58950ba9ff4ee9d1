/** The case file ("expediente") as the application's `expedientes` table
    stores it: nullable columns are `Option`s, dates are calendar dates. */
module Expedientes {
  import opened Wrappers
  import opened Dates

  /** The four endorsement ("visado") fees, nullable Numeric columns. */
  datatype Fees = Fees(
    gas: Option<real>,
    salubridad: Option<real>,
    electrica: Option<real>,
    electromecanica: Option<real>)

  /** The four portal trays ("bandejas") a digital case file can sit in, in the
      order the application lists them. */
  datatype TrayKind = Cpim | Imlauer | Onetto | Profesional

  const TrayOrder: seq<TrayKind> := [Cpim, Imlauer, Onetto, Profesional]

  /** What the last sync recorded about one tray: its label, the user holding
      the file there, and the day the file entered it. */
  datatype Tray = Tray(nombre: Option<string>, usuario: Option<string>, fecha: Option<CalendarDate>)

  datatype Trays = Trays(cpim: Tray, imlauer: Tray, onetto: Tray, profesional: Tray) {
    function Get(k: TrayKind): Tray {
      match k
      case Cpim => cpim
      case Imlauer => imlauer
      case Onetto => onetto
      case Profesional => profesional
    }
  }

  /** The portal ("GOP") columns of a case file. */
  datatype Gop = Gop(
    numero: Option<string>,
    estado: Option<string>,
    bandejaActual: Option<string>,
    usuarioAsignado: Option<string>,
    fechaEntrada: Option<CalendarDate>,
    fechaEnBandeja: Option<CalendarDate>,
    ultimaSincronizacion: Option<Timestamp>)

  datatype Expediente = Expediente(
    id: int,
    fecha: Option<CalendarDate>,
    profesion: Option<string>,
    formato: Option<string>,
    nroCopias: Option<int>,
    tipoTrabajo: Option<string>,
    nroExpedienteCpim: Option<string>,
    nombreProfesional: Option<string>,
    nombreComitente: Option<string>,
    ubicacion: Option<string>,
    partidaInmobiliaria: Option<string>,
    nroExpedienteMunicipal: Option<string>,
    visadoGas: bool,
    visadoSalubridad: bool,
    visadoElectrica: bool,
    visadoElectromecanica: bool,
    estadoPagoSellado: Option<string>,
    estadoPagoVisado: Option<string>,
    tasaSelladoMonto: Option<real>,
    fees: Fees,
    totalVisados: Option<real>,
    fechaSalida: Option<CalendarDate>,
    fechaFinalizado: Option<Timestamp>,
    createdAt: Option<Timestamp>,
    updatedAt: Option<Timestamp>,
    personaRetira: Option<string>,
    nroCaja: Option<int>,
    rutaCarpeta: Option<string>,
    whatsappProfesional: Option<string>,
    whatsappTramitador: Option<string>,
    finalizado: bool,
    gop: Gop,
    trays: Trays)

  /** Python truthiness of a nullable text: present and non-empty. */
  predicate Filled(s: Option<string>) {
    s.Some? && s.value != ""
  }

  /** Python truthiness of a nullable amount: present and non-zero. */
  predicate NonZero(a: Option<real>) {
    a.Some? && a.value != 0.0
  }

  /** What a truthiness-guarded use of an amount sees: a present, non-zero
      amount counts in full, a missing or zero one counts as nothing. */
  function Present(a: Option<real>): real {
    if NonZero(a) then a.value else 0.0
  }

  /** Python's `s or default` on a nullable text. */
  function OrElse(s: Option<string>, default: string): (r: string)
    ensures Filled(s) ==> r == s.value
    ensures !Filled(s) ==> r == default
  {
    if Filled(s) then s.value else default
  }
}
