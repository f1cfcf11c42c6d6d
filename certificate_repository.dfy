/** `CertificateRepository.validate`: the public lookup of a certificate by
    its human-readable code, returning the record and a summary of its event,
    or `null`. */
module CertificateRepository {
  import opened Js
  import opened Text
  import opened Query
  import opened Certificados
  import Seqs
  import IssueCertificate

  /** The `events` row joined through `evento_id`. */
  datatype EventJoin = EventJoin(
    id: string,
    title: string,
    description: Option<string>,
    date: string,
    location: Option<string>,
    campus: Option<string>,
    workload: Option<int>)

  /** The `Certificate` object handed to the page. `cargaHoraria` is an
      optional property: `None` when the object does not carry it. */
  datatype CertificateView = CertificateView(
    id: string,
    userId: string,
    eventoId: string,
    codigo: string,
    dataEmissao: string,
    cargaHoraria: Option<int>)

  /** The `Event` summary handed to the page. */
  datatype EventView = EventView(
    id: string,
    titulo: string,
    descricao: string,
    dataInicio: string,
    local: string,
    campus: string,
    instituicao: string,
    modalidade: string,
    status: string,
    vagas: int)

  datatype ValidationResult = ValidationResult(certificate: CertificateView, event: EventView)

  /** What `validate` does: resolves to a result, resolves to `null`, or
      rejects (reading the join of a row whose event is missing). */
  datatype Validation = Found(result: ValidationResult) | NotFound | Throws

  /** The rows whose certificate code is exactly `code`. */
  function RowsWithCode(rows: seq<CertificateRow>, code: string): (r: seq<CertificateRow>)
    ensures |r| <= |rows|
    ensures forall x :: x in r <==> x in rows && x.codigoCertificado == code
  {
    if rows == [] then []
    else (if rows[0].codigoCertificado == code then [rows[0]] else []) + RowsWithCode(rows[1..], code)
  }

  /** Two rows carrying the code are both matched. */
  lemma {:induction false} RowsWithCodeKeepsTwo(rows: seq<CertificateRow>, code: string, i: int, j: int)
    requires 0 <= i < j < |rows| && rows[i].codigoCertificado == code && rows[j].codigoCertificado == code
    ensures |RowsWithCode(rows, code)| >= 2
  {
    if i == 0 {
      assert rows[1..][j - 1] == rows[j];
      assert rows[j] in RowsWithCode(rows[1..], code);
    } else {
      RowsWithCodeKeepsTwo(rows[1..], code, i - 1, j - 1);
    }
  }

  /** The event summary: missing texts become empty, a missing workload 0,
      and the institution, modality and status are fixed. */
  function EventSummary(e: EventJoin): (v: EventView)
    ensures v.id == e.id && v.titulo == e.title && v.dataInicio == e.date
    ensures v.descricao == StrOr(e.description, "") && v.local == StrOr(e.location, "") && v.campus == StrOr(e.campus, "")
    ensures v.instituicao == "IFAL" && v.modalidade == "Presencial" && v.status == "publicado"
    ensures v.vagas == IntOr(e.workload, 0)
  {
    EventView(e.id, e.title, StrOr(e.description, ""), e.date, StrOr(e.location, ""), StrOr(e.campus, ""),
              "IFAL", "Presencial", "publicado", IntOr(e.workload, 0))
  }

  /** The certificate object as the repository builds it: five properties,
      no workload. */
  function CertificateSummaryAsWritten(row: CertificateRow): (v: CertificateView)
    ensures v.id == row.id && v.userId == row.userId && v.eventoId == row.eventoId
    ensures v.codigo == row.codigoCertificado && v.dataEmissao == row.emitidoEm
    ensures v.cargaHoraria.None?
  {
    CertificateView(row.id, row.userId, row.eventoId, row.codigoCertificado, row.emitidoEm, None)
  }

  /** The certificate object carrying the workload snapshot as well, which
      the validation page displays. */
  function CertificateSummary(row: CertificateRow): (v: CertificateView)
    ensures v == CertificateSummaryAsWritten(row).(cargaHoraria := Some(row.cargaHoraria))
  {
    CertificateView(row.id, row.userId, row.eventoId, row.codigoCertificado, row.emitidoEm, Some(row.cargaHoraria))
  }

  /** The certificate object handed to the page: as the repository writes
      it, or also carrying the workload. */
  function Project(row: CertificateRow, withWorkload: bool): CertificateView {
    if withWorkload then CertificateSummary(row) else CertificateSummaryAsWritten(row)
  }

  /** The query for an already trimmed code: asks for at most one row with
      exactly that code and projects it with its event. */
  function Lookup(trimmed: string, rows: seq<CertificateRow>, events: map<string, EventJoin>,
                  withWorkload: bool): (v: Validation)
    ensures v.Found? ==> (v.result.certificate.cargaHoraria.Some? <==> withWorkload)
  {
    match MaybeSingle(RowsWithCode(rows, trimmed))
    case Row(row) =>
      if row.eventoId in events
      then Found(ValidationResult(Project(row, withWorkload), EventSummary(events[row.eventoId])))
      else Throws
    case _ => NotFound
  }

  /** `validate` as written. */
  function ValidateAsWritten(code: string, rows: seq<CertificateRow>, events: map<string, EventJoin>): (v: Validation)
    ensures v.Found? ==> v.result.certificate.cargaHoraria.None?
  {
    Lookup(Trim(code), rows, events, false)
  }

  /** `validate` with the workload carried to the page. */
  function Validate(code: string, rows: seq<CertificateRow>, events: map<string, EventJoin>): (v: Validation)
    ensures v.Found? ==> v.result.certificate.cargaHoraria.Some?
  {
    Lookup(Trim(code), rows, events, true)
  }

  /** A code resolves exactly when one row carries it (after trimming) and
      that row's event exists; the result is that row and its event. */
  lemma ValidateFound(code: string, rows: seq<CertificateRow>, events: map<string, EventJoin>)
    ensures Validate(code, rows, events).Found? <==>
      |RowsWithCode(rows, Trim(code))| == 1 && RowsWithCode(rows, Trim(code))[0].eventoId in events
    ensures Validate(code, rows, events).Found? ==>
      var row := RowsWithCode(rows, Trim(code))[0];
      && row in rows
      && Validate(code, rows, events).result.certificate == CertificateSummary(row)
      && Validate(code, rows, events).result.event == EventSummary(events[row.eventoId])
      && row.codigoCertificado == Trim(code)
  {
    var m := RowsWithCode(rows, Trim(code));
    if |m| == 1 {
      assert m[0] in m;
    }
  }

  /** `validate` as written resolves, misses and rejects exactly when the
      corrected lookup does, with the same event; its certificate is the
      matched record's five-property summary, without the workload. */
  lemma AsWrittenAgreesWithValidate(code: string, rows: seq<CertificateRow>, events: map<string, EventJoin>)
    ensures var v := Validate(code, rows, events);
      ValidateAsWritten(code, rows, events)
        == if v.Found? then Found(ValidationResult(v.result.certificate.(cargaHoraria := None), v.result.event)) else v
    ensures ValidateAsWritten(code, rows, events).Found? ==>
      var row := RowsWithCode(rows, Trim(code))[0];
      && |RowsWithCode(rows, Trim(code))| == 1 && row in rows && row.codigoCertificado == Trim(code)
      && ValidateAsWritten(code, rows, events).result.certificate == CertificateSummaryAsWritten(row)
      && ValidateAsWritten(code, rows, events).result.event == EventSummary(events[row.eventoId])
  {
    ValidateFound(code, rows, events);
    var m := RowsWithCode(rows, Trim(code));
    if |m| == 1 && m[0].eventoId in events {
      assert CertificateSummary(m[0]).(cargaHoraria := None) == CertificateSummaryAsWritten(m[0]);
    }
  }

  /** A table holding one record, whose event exists, resolves that
      record's code, with or without the workload. */
  lemma OneRowFound(code: string, row: CertificateRow, events: map<string, EventJoin>)
    requires Trim(code) == row.codigoCertificado && row.eventoId in events
    ensures ValidateAsWritten(code, [row], events).Found? && Validate(code, [row], events).Found?
  {
    OneRowMatches(row, Trim(code));
  }

  lemma OneRowMatches(row: CertificateRow, code: string)
    requires row.codigoCertificado == code
    ensures RowsWithCode([row], code) == [row]
  {
    assert [row][1..] == [];
  }

  /** A code nobody holds is not found; the page cannot tell it from any
      other failure. */
  lemma UnissuedCodeNotFound(code: string, rows: seq<CertificateRow>, events: map<string, EventJoin>)
    requires forall i :: 0 <= i < |rows| ==> rows[i].codigoCertificado != Trim(code)
    ensures Validate(code, rows, events) == NotFound
  {
    var m := RowsWithCode(rows, Trim(code));
    assert forall i :: 0 <= i < |m| ==> m[i] in m;
  }

  /** Surrounding whitespace is ignored: validating the trimmed code is
      validating the code. */
  lemma ValidateIgnoresSurroundingSpace(code: string, rows: seq<CertificateRow>, events: map<string, EventJoin>)
    ensures Validate(Trim(code), rows, events) == Validate(code, rows, events)
  {
    TrimIdempotent(code);
  }

  /** Two records holding the same code make it unresolvable: the lookup
      asks for at most one row, so it errors and the code reads as not
      found. */
  lemma SharedCodeNotFound(code: string, rows: seq<CertificateRow>, events: map<string, EventJoin>, i: int, j: int)
    requires 0 <= i < j < |rows|
    requires rows[i].codigoCertificado == Trim(code) && rows[j].codigoCertificado == Trim(code)
    ensures Validate(code, rows, events) == NotFound
  {
    RowsWithCodeKeepsTwo(rows, Trim(code), i, j);
  }

  /** Because every certificate of an event issued in one year carries the
      same code, a second participant's certificate makes the first one's
      code, and its own, unresolvable. */
  lemma SecondParticipantHidesCode(
    req1: IssueCertificate.IssueRequest, regs1: seq<IssueCertificate.Registration>, certs1: seq<CertificateRow>, env1: IssueCertificate.Environment,
    req2: IssueCertificate.IssueRequest, regs2: seq<IssueCertificate.Registration>, certs2: seq<CertificateRow>, env2: IssueCertificate.Environment,
    rows: seq<CertificateRow>, events: map<string, EventJoin>)
    requires IssueCertificate.IssueOutcome(req1, regs1, certs1, env1).Issued?
    requires IssueCertificate.IssueOutcome(req2, regs2, certs2, env2).Issued?
    requires req1.eventId == req2.eventId && env1.year == env2.year
    ensures var c1 := IssueCertificate.IssueOutcome(req1, regs1, certs1, env1).certificate;
      var c2 := IssueCertificate.IssueOutcome(req2, regs2, certs2, env2).certificate;
      Validate(c1.codigoCertificado, rows + [c1, c2], events) == NotFound
  {
    var c1 := IssueCertificate.IssueOutcome(req1, regs1, certs1, env1).certificate;
    var c2 := IssueCertificate.IssueOutcome(req2, regs2, certs2, env2).certificate;
    IssueCertificate.SameCodeWithinEventAndYear(req1, regs1, certs1, env1, req2, regs2, certs2, env2);
    IssueCertificate.IssuedRecordContents(req1, regs1, certs1, env1);
    IssueCertificate.CodeIsTrimmed(req1.eventId, env1.year);
    var all := rows + [c1, c2];
    SharedCodeNotFound(c1.codigoCertificado, all, events, |rows|, |rows| + 1);
  }
}
