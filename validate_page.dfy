/** The public certificate validation page: a code field, prefilled from the
    `codigo` query parameter and validated on arrival when that parameter is
    set, and a panel showing the certificate when the code resolves. */
module ValidatePage {
  import opened Js
  import opened Text
  import opened Certificados
  import opened CertificateRepository

  datatype Status = Idle | Loading | Validated | Rejected

  /** The texts of the "valid certificate" panel. */
  datatype Panel = Panel(eventTitle: string, hours: string, issuedOn: string, institution: string)

  /** Reading a numeric property of the certificate object: `None` for a
      property the object does not carry (`undefined`). */
  function NumberProperty(c: CertificateView, name: string): (v: Option<int>)
    ensures v.Some? ==> name == "cargaHoraria"
  {
    if name == "cargaHoraria" then c.cargaHoraria else None
  }

  /** Reading a date property of the certificate object. */
  function DateProperty(c: CertificateView, name: string): (v: Option<string>)
    ensures v.Some? <==> name == "dataEmissao"
  {
    if name == "dataEmissao" then Some(c.dataEmissao) else None
  }

  /** `Math.floor(n / 60)` as displayed: `NaN` when `n` is undefined. */
  function HoursFromMinutes(n: Option<int>): (t: string)
    ensures n.None? <==> t == "NaN"
    ensures n.Some? ==> exists h :: t == IntToString(h) && h * 60 <= n.value < h * 60 + 60
  {
    match n
    case None => "NaN"
    case Some(m) =>
      var t := IntToString(m / 60);
      assert t[0] == '-' || '0' <= t[0] <= '9';
      assert (m / 60) * 60 <= m < (m / 60) * 60 + 60;
      t
  }

  /** `new Date(d).toLocaleDateString('pt-BR')`: `Invalid Date` when `d` is
      undefined. */
  function DateText(d: Option<string>, formatDate: string -> string): (t: string)
    ensures d.Some? ==> t == formatDate(d.value)
    ensures d.None? ==> t == "Invalid Date"
  {
    match d
    case None => "Invalid Date"
    case Some(s) => formatDate(s)
  }

  /** The panel as the page writes it: hours from `carga_horaria_minutos`
      and the date from `data_emissao`, neither of which the certificate
      object carries. */
  function PanelAsWritten(r: ValidationResult, formatDate: string -> string): (p: Panel)
    ensures p.eventTitle == r.event.titulo
    ensures p.institution == r.event.instituicao + " — " + r.event.campus
    ensures p.hours == "NaN Horas" && p.issuedOn == "Invalid Date"
  {
    assert |"carga_horaria_minutos"| != |"cargaHoraria"| && |"data_emissao"| != |"dataEmissao"|;
    Panel(r.event.titulo,
          HoursFromMinutes(NumberProperty(r.certificate, "carga_horaria_minutos")) + " Horas",
          DateText(DateProperty(r.certificate, "data_emissao"), formatDate),
          r.event.instituicao + " — " + r.event.campus)
  }

  /** The panel showing the workload snapshot in hours and the issue date
      of the certificate object's own properties. */
  function ShownPanel(r: ValidationResult, formatDate: string -> string): (p: Panel)
    ensures p.eventTitle == r.event.titulo
    ensures p.issuedOn == DateText(DateProperty(r.certificate, "dataEmissao"), formatDate)
    ensures p.institution == r.event.instituicao + " — " + r.event.campus
  {
    Panel(r.event.titulo,
          IntToString(IntOr(NumberProperty(r.certificate, "cargaHoraria"), 0)) + " Horas",
          DateText(DateProperty(r.certificate, "dataEmissao"), formatDate),
          r.event.instituicao + " — " + r.event.campus)
  }

  /** As written, every validated certificate shows `NaN Horas` and
      `Invalid Date`, whatever its record holds. */
  lemma AsWrittenPanelLosesRecord(code: string, rows: seq<CertificateRow>, events: map<string, EventJoin>,
                                  formatDate: string -> string)
    requires ValidateAsWritten(code, rows, events).Found?
    ensures PanelAsWritten(ValidateAsWritten(code, rows, events).result, formatDate).hours == "NaN Horas"
    ensures PanelAsWritten(ValidateAsWritten(code, rows, events).result, formatDate).issuedOn == "Invalid Date"
  {
  }

  /** A concrete case: a 20-hour certificate is shown as `NaN Horas`. */
  lemma AsWrittenTwentyHoursShowsNaN(formatDate: string -> string, events: map<string, EventJoin>)
    requires "E1" in events
    ensures var row := CertificateRow("c1", "E1", "P1", "K3Y9QZ2A", "SIGEA-E1XX-26", 20, "2026-05-02", None);
      var v := ValidateAsWritten("SIGEA-E1XX-26", [row], events);
      v.Found? && PanelAsWritten(v.result, formatDate).hours == "NaN Horas"
  {
    var code := "SIGEA-E1XX-26";
    var row := CertificateRow("c1", "E1", "P1", "K3Y9QZ2A", code, 20, "2026-05-02", None);
    assert ValidateAsWritten(code, [row], events).Found? by {
      assert code[0] == 'S' && code[|code| - 1] == '6';
      TrimUnchanged(code);
      assert row.eventoId in events;
      OneRowFound(code, row, events);
    }
  }

  /** With the workload carried, a validated certificate shows its record's
      workload, issue date and event. */
  lemma PanelShowsRecord(code: string, rows: seq<CertificateRow>, events: map<string, EventJoin>,
                         formatDate: string -> string)
    requires Validate(code, rows, events).Found?
    ensures var row := RowsWithCode(rows, Trim(code))[0];
      var p := ShownPanel(Validate(code, rows, events).result, formatDate);
      && row in rows && row.codigoCertificado == Trim(code)
      && p.hours == IntToString(row.cargaHoraria) + " Horas"
      && p.issuedOn == formatDate(row.emitidoEm)
      && p.eventTitle == events[row.eventoId].title
  {
    ValidateFound(code, rows, events);
  }

  /** The page's state. */
  class ValidationPage {
    var code: string
    var status: Status
    var result: Option<ValidationResult>

    /** A result is held exactly when the status is "valid". */
    predicate Consistent()
      reads this
    {
      status.Validated? <==> result.Some?
    }

    /** The page as first rendered: the code field holds the `codigo`
        parameter, or nothing. */
    constructor (codigo: Option<string>)
      ensures Consistent()
      ensures code == StrOr(codigo, "") && status == Idle && result.None?
    {
      code := StrOr(codigo, "");
      status := Idle;
      result := None;
    }

    /** Typing in the code field. */
    method SetCode(c: string)
      modifies this
      ensures code == c && status == old(status) && result == old(result)
    {
      code := c;
    }

    /** Whether the "Validar" button is enabled. */
    function CanSubmit(): (b: bool)
      reads this
      ensures b <==> !status.Loading? && !AllSpace(code)
    {
      TrimEmptyIffAllSpace(code);
      !status.Loading? && Trim(code) != ""
    }

    /** `handleValidation`: ignores a blank code; otherwise looks the trimmed
        code up and shows the result, or "not found" when the lookup finds
        nothing or fails. */
    method HandleValidation(rows: seq<CertificateRow>, events: map<string, EventJoin>)
      requires Consistent()
      modifies this
      ensures Consistent()
      ensures code == old(code)
      ensures Trim(code) == "" ==> status == old(status) && result == old(result)
      ensures Trim(code) != "" ==>
        var v := ValidateAsWritten(Trim(code), rows, events);
        && status == (if v.Found? then Validated else Rejected)
        && result == (if v.Found? then Some(v.result) else None)
    {
      var trimmed := Trim(code);
      if trimmed == "" {
        return;
      }
      status, result := Loading, None;
      var v := ValidateAsWritten(trimmed, rows, events);
      if v.Found? {
        status, result := Validated, Some(v.result);
      } else {
        status := Rejected;
      }
    }

    /** The effect run once on arrival: validates when the link carried a
        code. */
    method OnMount(codigo: Option<string>, rows: seq<CertificateRow>, events: map<string, EventJoin>)
      requires Consistent() && code == StrOr(codigo, "")
      modifies this
      ensures Consistent()
      ensures StrOr(codigo, "") == "" ==> status == old(status) && result == old(result)
      ensures Trim(StrOr(codigo, "")) != "" ==> status == (if ValidateAsWritten(code, rows, events).Found? then Validated else Rejected)
    {
      if codigo.Some? && codigo.value != "" {
        HandleValidation(rows, events);
      }
    }

    /** The valid-certificate panel, when it is shown: the event's title
        and institution, with `NaN Horas` and `Invalid Date` in place of
        the workload and issue date. */
    function VisiblePanel(formatDate: string -> string): (p: Option<Panel>)
      reads this
      requires Consistent()
      ensures p.Some? <==> status.Validated?
      ensures p.Some? ==>
        && p.value.eventTitle == result.value.event.titulo
        && p.value.institution == result.value.event.instituicao + " — " + result.value.event.campus
        && p.value.hours == "NaN Horas" && p.value.issuedOn == "Invalid Date"
    {
      if status.Validated? then Some(PanelAsWritten(result.value, formatDate)) else None
    }
  }

  /** Following the link printed on a certificate, `?codigo=<code>`, shows
      that certificate's panel when its code is held by one record. */
  lemma LinkValidates(code: string, rows: seq<CertificateRow>, events: map<string, EventJoin>)
    requires |RowsWithCode(rows, Trim(code))| == 1
    requires RowsWithCode(rows, Trim(code))[0].eventoId in events
    ensures ValidateAsWritten(code, rows, events).Found?
    ensures ValidateAsWritten(code, rows, events).result.certificate
      == CertificateSummaryAsWritten(RowsWithCode(rows, Trim(code))[0])
    ensures ValidateAsWritten(code, rows, events).result.certificate.codigo == Trim(code)
  {
    ValidateFound(code, rows, events);
    AsWrittenAgreesWithValidate(code, rows, events);
  }
}
