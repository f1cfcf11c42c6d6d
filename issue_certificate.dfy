/** The `issue-certificate` edge function: it authenticates the caller, finds
    their registration for the event, enforces a ten-minute wait after
    registering, refuses a second certificate for the same (event, user) and
    otherwise inserts one `certificados` row carrying the event's
    human-readable code and a snapshot of its workload. */
module IssueCertificate {
  import opened Js
  import opened Text
  import opened Query
  import opened Certificados
  import Seqs

  /** Minutes that must pass between registering and asking for a certificate. */
  const CooldownMinutes: real := 10.0

  /** Milliseconds per minute, the divisor of the elapsed-time computation. */
  const MsPerMinute: real := 60000.0

  /** The incoming HTTP request: its method, its `Authorization` header if
      sent, and the `event_id` of its JSON body. */
  datatype IssueRequest = IssueRequest(httpMethod: string, authorization: Option<string>, eventId: string)

  /** A row of `event_registrations`, joined with its event's `workload`
      (absent when the event or its workload is missing). */
  datatype Registration = Registration(
    eventId: string,
    userId: string,
    registeredAtMs: int,
    status: string,
    eventWorkload: Option<int>)

  /** What the function obtains from outside: the user the authentication
      service resolves a token to, the clock, the random validation code and
      the values the database fills in on insert, and the error the insert
      reports, if any. */
  datatype Environment = Environment(
    resolveToken: string -> Option<string>,
    nowMs: int,
    year: nat,
    validationCode: string,
    newId: string,
    emitidoEm: string,
    insertError: Option<string>)

  datatype IssueError =
    | InvalidToken
    | NotRegistered
    | TooEarly(waitMinutes: int)
    | AlreadyIssued
    | InsertFailed(message: string)

  datatype IssueResponse =
    | Preflight
    | Unauthorized
    | Failed(error: IssueError)
    | Issued(certificate: CertificateRow)

  /** The HTTP status of each response. */
  function HttpStatus(r: IssueResponse): (status: int)
    ensures status == 401 <==> r.Unauthorized?
    ensures status == 400 <==> r.Failed?
    ensures status == 200 <==> r.Preflight? || r.Issued?
  {
    match r
    case Preflight => 200
    case Unauthorized => 401
    case Failed(_) => 400
    case Issued(_) => 200
  }

  /** A count written between two texts reads back from between them. */
  lemma DigitsBetween(prefix: string, suffix: string, w: nat)
    ensures var m := prefix + IntToString(w) + suffix;
      && |m| > |prefix| + |suffix| && m[..|prefix|] == prefix
      && IsDigits(m[|prefix|..|m| - |suffix|]) && ParseDigits(m[|prefix|..|m| - |suffix|]) == w
  {
    var m := prefix + IntToString(w) + suffix;
    assert m[..|prefix|] == prefix;
    assert m[|prefix|..|m| - |suffix|] == NatToString(w);
    ParseNatToString(w);
  }

  /** The error message each failure carries; the early one names the wait. */
  function ErrorMessage(e: IssueError): (m: string)
    ensures e.InsertFailed? ==> m == e.message
    ensures e.TooEarly? && e.waitMinutes >= 0 ==>
      var prefix := "Certificate not available yet. Please wait ";
      && |m| > |prefix| + |" more minutes."|
      && m[..|prefix|] == prefix
      && IsDigits(m[|prefix|..|m| - |" more minutes."|])
      && ParseDigits(m[|prefix|..|m| - |" more minutes."|]) == e.waitMinutes
  {
    match e
    case InvalidToken => "Invalid token"
    case NotRegistered => "User is not registered for this event."
    case TooEarly(w) =>
      var m := "Certificate not available yet. Please wait " + IntToString(w) + " more minutes.";
      if w >= 0 then
        DigitsBetween("Certificate not available yet. Please wait ", " more minutes.", w);
        m
      else m
    case AlreadyIssued => "Certificate already issued."
    case InsertFailed(msg) => msg
  }

  // ---------------------------------------------------------------------
  // Straight-line derivations
  // ---------------------------------------------------------------------

  /** `s.replace(pat, '')`: removes the first occurrence of `pat`. */
  function RemoveFirst(s: string, pat: string): (r: string)
    requires pat != []
    decreases |s|
  {
    if pat <= s then s[|pat|..]
    else if s == [] then s
    else [s[0]] + RemoveFirst(s[1..], pat)
  }

  /** The token sent to the authentication service. */
  function BearerToken(header: string): string {
    RemoveFirst(header, "Bearer ")
  }

  /** A header of the form `Bearer <t>` yields the token `t`. */
  lemma BearerTokenOfBearerHeader(t: string)
    ensures BearerToken("Bearer " + t) == t
  {
    assert "Bearer " <= "Bearer " + t;
  }

  /** `Math.ceil`: the least integer not below `x`. */
  function Ceil(x: real): (c: int)
    ensures c as real - 1.0 < x <= c as real
  {
    -((-x).Floor)
  }

  /** Minutes elapsed from registration to now, as a real number. */
  function ElapsedMinutes(registeredAtMs: int, nowMs: int): real {
    (nowMs - registeredAtMs) as real / MsPerMinute
  }

  /** The wait reported to a caller who comes `elapsed` minutes after registering. */
  function WaitMinutes(elapsed: real): int {
    Ceil(CooldownMinutes - elapsed)
  }

  /** For a caller who registered in the past and is still inside the cooldown,
      the reported wait is between one and ten minutes, and it is the whole
      number of minutes that covers the remaining time. */
  lemma WaitBounds(elapsed: real)
    requires 0.0 <= elapsed < CooldownMinutes
    ensures 1 <= WaitMinutes(elapsed) <= 10
    ensures WaitMinutes(elapsed) as real - 1.0 < CooldownMinutes - elapsed <= WaitMinutes(elapsed) as real
  {
  }

  /** The last two digits of the year as `getFullYear().toString().slice(-2)`. */
  function YearSuffix(year: nat): string {
    TakeLast(NatToString(year), 2)
  }

  /** For a year of two or more digits, the suffix is its tens and units digits. */
  lemma {:induction false} YearSuffixDigits(year: nat)
    requires year >= 10
    ensures YearSuffix(year) == [DigitChar((year / 10) % 10), DigitChar(year % 10)]
  {
    var head := NatToString(year / 10);
    var s := NatToString(year);
    assert s == head + [DigitChar(year % 10)];
    assert s[|s| - 2] == head[|head| - 1] == DigitChar((year / 10) % 10);
    assert s[|s| - 1] == DigitChar(year % 10);
    assert s[|s| - 2..] == [s[|s| - 2], s[|s| - 1]];
  }

  /** The certificate code `SIGEA-<first four characters of the event id>-<yy>`. */
  function CertificateCode(eventId: string, year: nat): string {
    "SIGEA-" + Take(eventId, 4) + "-" + YearSuffix(year)
  }

  /** The code has the fixed shape `SIGEA-XXXX-YY` whenever the event id has at
      least four characters and the year at least two digits; it depends only
      on the event and the year. */
  lemma CodeFormat(eventId: string, year: nat)
    requires |eventId| >= 4 && year >= 10
    ensures var code := CertificateCode(eventId, year);
      && |code| == 13
      && code[..6] == "SIGEA-"
      && code[6..10] == eventId[..4]
      && code[10] == '-'
      && code[11..] == [DigitChar((year / 10) % 10), DigitChar(year % 10)]
  {
    YearSuffixDigits(year);
  }

  /** The code has no white space at either end, so trimming it, as the
      validation lookup does, leaves it as it is. */
  lemma CodeIsTrimmed(eventId: string, year: nat)
    ensures Trim(CertificateCode(eventId, year)) == CertificateCode(eventId, year)
  {
    var code := CertificateCode(eventId, year);
    var digits := NatToString(year);
    var suffix := YearSuffix(year);
    assert suffix[|suffix| - 1] == digits[|digits| - 1];
    assert code[|code| - 1] == suffix[|suffix| - 1];
    TrimUnchanged(code);
  }

  /** The rows of `event_registrations` for one (event, user) pair. */
  function RegistrationsOf(regs: seq<Registration>, eventId: string, userId: string): (r: seq<Registration>)
    ensures forall x :: x in r <==> x in regs && x.eventId == eventId && x.userId == userId
  {
    Seqs.Filter(regs, (x: Registration) => x.eventId == eventId && x.userId == userId)
  }

  /** The record inserted on success. */
  function NewCertificate(eventId: string, userId: string, reg: Registration, env: Environment): CertificateRow {
    CertificateRow(
      env.newId, eventId, userId, env.validationCode,
      CertificateCode(eventId, env.year), IntOr(reg.eventWorkload, 0), env.emitidoEm, None)
  }

  // ---------------------------------------------------------------------
  // The request as a whole
  // ---------------------------------------------------------------------

  /** The response to `req`, given the registrations, the certificates already
      in the table and the environment. The checks run in source order:
      preflight, header, token, registration, cooldown, duplicate, insert. */
  function IssueOutcome(req: IssueRequest, regs: seq<Registration>, certs: seq<CertificateRow>, env: Environment): IssueResponse {
    if req.httpMethod == "OPTIONS" then Preflight
    else if req.authorization.None? || req.authorization.value == "" then Unauthorized
    else
      var user := env.resolveToken(BearerToken(req.authorization.value));
      if user.None? then Failed(InvalidToken)
      else
        var reg := Single(RegistrationsOf(regs, req.eventId, user.value));
        if !reg.Row? then Failed(NotRegistered)
        else
          var elapsed := ElapsedMinutes(reg.row.registeredAtMs, env.nowMs);
          if elapsed < CooldownMinutes then Failed(TooEarly(WaitMinutes(elapsed)))
          else if MaybeSingle(RowsFor(certs, req.eventId, user.value)).Row? then Failed(AlreadyIssued)
          else if env.insertError.Some? then Failed(InsertFailed(env.insertError.value))
          else Issued(NewCertificate(req.eventId, user.value, reg.row, env))
  }

  /** Handles one request against the `certificados` table. */
  method Issue(table: CertificateTable, req: IssueRequest, regs: seq<Registration>, env: Environment)
    returns (resp: IssueResponse)
    modifies table
    ensures resp == IssueOutcome(req, regs, old(table.rows), env)
    ensures resp.Issued? ==> table.rows == old(table.rows) + [resp.certificate]
    ensures !resp.Issued? ==> table.rows == old(table.rows)
  {
    if req.httpMethod == "OPTIONS" {
      return Preflight;
    }
    if req.authorization.None? || req.authorization.value == "" {
      return Unauthorized;
    }
    var user := env.resolveToken(BearerToken(req.authorization.value));
    if user.None? {
      return Failed(InvalidToken);
    }
    var registration := Single(RegistrationsOf(regs, req.eventId, user.value));
    if !registration.Row? {
      return Failed(NotRegistered);
    }
    var diffMins := ElapsedMinutes(registration.row.registeredAtMs, env.nowMs);
    if diffMins < CooldownMinutes {
      return Failed(TooEarly(WaitMinutes(diffMins)));
    }
    var existing := MaybeSingle(RowsFor(table.rows, req.eventId, user.value));
    if existing.Row? {
      return Failed(AlreadyIssued);
    }
    if env.insertError.Some? {
      return Failed(InsertFailed(env.insertError.value));
    }
    var cert := NewCertificate(req.eventId, user.value, registration.row, env);
    table.Insert(cert);
    resp := Issued(cert);
  }

  // ---------------------------------------------------------------------
  // Properties
  // ---------------------------------------------------------------------

  /** A request without an `Authorization` header (or with an empty one) is
      answered 401 before anything is looked up. */
  lemma MissingHeaderIsUnauthorized(req: IssueRequest, regs: seq<Registration>, certs: seq<CertificateRow>, env: Environment)
    requires req.httpMethod != "OPTIONS"
    requires req.authorization.None? || req.authorization.value == ""
    ensures IssueOutcome(req, regs, certs, env) == Unauthorized
    ensures HttpStatus(IssueOutcome(req, regs, certs, env)) == 401
  {
  }

  /** Without exactly one registration row for the caller and the event the
      request fails as "not registered", whatever the table holds. */
  lemma NoRegistrationFails(req: IssueRequest, regs: seq<Registration>, certs: seq<CertificateRow>, env: Environment, user: string)
    requires req.httpMethod != "OPTIONS"
    requires req.authorization.Some? && req.authorization.value != ""
    requires env.resolveToken(BearerToken(req.authorization.value)) == Some(user)
    requires forall r :: r in regs ==> !(r.eventId == req.eventId && r.userId == user)
    ensures IssueOutcome(req, regs, certs, env) == Failed(NotRegistered)
  {
    var m := RegistrationsOf(regs, req.eventId, user);
    assert forall i :: 0 <= i < |m| ==> m[i] in m;
  }

  /** The registration's status is never consulted: a cancelled registration
      old enough, with no certificate yet, still gets one. */
  lemma CancelledRegistrationStillIssues(req: IssueRequest, reg: Registration, certs: seq<CertificateRow>, env: Environment, user: string)
    requires req.httpMethod != "OPTIONS"
    requires req.authorization.Some? && req.authorization.value != ""
    requires env.resolveToken(BearerToken(req.authorization.value)) == Some(user)
    requires reg == Registration(req.eventId, user, reg.registeredAtMs, "cancelada", reg.eventWorkload)
    requires ElapsedMinutes(reg.registeredAtMs, env.nowMs) >= CooldownMinutes
    requires RowsFor(certs, req.eventId, user) == [] && env.insertError.None?
    ensures IssueOutcome(req, [reg], certs, env) == Issued(NewCertificate(req.eventId, user, reg, env))
  {
    assert RegistrationsOf([reg], req.eventId, user) == [reg];
  }

  /** Inside the cooldown the request fails as "too early" with a wait of at
      least one minute, whatever certificates exist: the cooldown is checked
      before the duplicate. */
  lemma CooldownBeforeDuplicate(req: IssueRequest, regs: seq<Registration>, certs: seq<CertificateRow>, env: Environment, user: string, reg: Registration)
    requires req.httpMethod != "OPTIONS"
    requires req.authorization.Some? && req.authorization.value != ""
    requires env.resolveToken(BearerToken(req.authorization.value)) == Some(user)
    requires RegistrationsOf(regs, req.eventId, user) == [reg]
    requires ElapsedMinutes(reg.registeredAtMs, env.nowMs) < CooldownMinutes
    ensures IssueOutcome(req, regs, certs, env).Failed?
    ensures IssueOutcome(req, regs, certs, env).error.TooEarly?
    ensures IssueOutcome(req, regs, certs, env).error.waitMinutes >= 1
    ensures IssueOutcome(req, regs, certs, env) == IssueOutcome(req, regs, [], env)
  {
  }

  /** Once the cooldown has passed, an existing certificate for the pair makes
      the request fail as "already issued", and nothing is inserted. */
  lemma ExistingCertificateRejected(req: IssueRequest, regs: seq<Registration>, certs: seq<CertificateRow>, env: Environment, user: string, reg: Registration, existing: CertificateRow)
    requires req.httpMethod != "OPTIONS"
    requires req.authorization.Some? && req.authorization.value != ""
    requires env.resolveToken(BearerToken(req.authorization.value)) == Some(user)
    requires RegistrationsOf(regs, req.eventId, user) == [reg]
    requires ElapsedMinutes(reg.registeredAtMs, env.nowMs) >= CooldownMinutes
    requires RowsFor(certs, req.eventId, user) == [existing]
    ensures IssueOutcome(req, regs, certs, env) == Failed(AlreadyIssued)
  {
  }

  /** A successful issuance inserts exactly one record, for the caller and
      the event, carrying both codes, the workload snapshot (0 when absent)
      and no document path yet. */
  lemma IssuedRecordContents(req: IssueRequest, regs: seq<Registration>, certs: seq<CertificateRow>, env: Environment)
    requires IssueOutcome(req, regs, certs, env).Issued?
    ensures var c := IssueOutcome(req, regs, certs, env).certificate;
      && req.authorization.Some?
      && env.resolveToken(BearerToken(req.authorization.value)) == Some(c.userId)
      && c.eventoId == req.eventId
      && c.codigoCertificado == CertificateCode(req.eventId, env.year)
      && c.codigoValidacao == env.validationCode
      && c.urlPdf.None?
      && exists reg :: reg in regs && reg.eventId == req.eventId && reg.userId == c.userId
           && c.cargaHoraria == IntOr(reg.eventWorkload, 0)
           && ElapsedMinutes(reg.registeredAtMs, env.nowMs) >= CooldownMinutes
  {
    var user := env.resolveToken(BearerToken(req.authorization.value)).value;
    var reg := Single(RegistrationsOf(regs, req.eventId, user)).row;
    assert reg in RegistrationsOf(regs, req.eventId, user);
  }

  /** Every participant of one event issued in one year gets the same code. */
  lemma SameCodeWithinEventAndYear(
    req1: IssueRequest, regs1: seq<Registration>, certs1: seq<CertificateRow>, env1: Environment,
    req2: IssueRequest, regs2: seq<Registration>, certs2: seq<CertificateRow>, env2: Environment)
    requires IssueOutcome(req1, regs1, certs1, env1).Issued?
    requires IssueOutcome(req2, regs2, certs2, env2).Issued?
    requires req1.eventId == req2.eventId && env1.year == env2.year
    ensures IssueOutcome(req1, regs1, certs1, env1).certificate.codigoCertificado
         == IssueOutcome(req2, regs2, certs2, env2).certificate.codigoCertificado
  {
    IssuedRecordContents(req1, regs1, certs1, env1);
    IssuedRecordContents(req2, regs2, certs2, env2);
  }

  /** Issuance keeps the table at one certificate per (event, user). */
  lemma IssuePreservesOnePerPair(req: IssueRequest, regs: seq<Registration>, certs: seq<CertificateRow>, env: Environment)
    requires OnePerPair(certs)
    requires IssueOutcome(req, regs, certs, env).Issued?
    ensures OnePerPair(certs + [IssueOutcome(req, regs, certs, env).certificate])
  {
    var c := IssueOutcome(req, regs, certs, env).certificate;
    OnePerPairAtMostOneMatch(certs, c.eventoId, c.userId);
    AppendKeepsOnePerPair(certs, c);
  }

  /** Asking twice: once a certificate has been issued, a later request by the
      same caller for the same event fails as "already issued". */
  lemma {:induction false} SecondIssueRejected(req: IssueRequest, regs: seq<Registration>, certs: seq<CertificateRow>, env: Environment, env': Environment)
    requires OnePerPair(certs)
    requires IssueOutcome(req, regs, certs, env).Issued?
    requires env'.resolveToken == env.resolveToken && env'.nowMs >= env.nowMs
    ensures IssueOutcome(req, regs, certs + [IssueOutcome(req, regs, certs, env).certificate], env') == Failed(AlreadyIssued)
  {
    var c := IssueOutcome(req, regs, certs, env).certificate;
    var user := env.resolveToken(BearerToken(req.authorization.value)).value;
    OnePerPairAtMostOneMatch(certs, req.eventId, user);
    assert RowsFor(certs, req.eventId, user) == [];
    Seqs.FilterAppend(certs, [c], (x: CertificateRow) => IsFor(x, req.eventId, user));
    assert RowsFor(certs + [c], req.eventId, user) == [c];
    var reg := Single(RegistrationsOf(regs, req.eventId, user)).row;
    assert ElapsedMinutes(reg.registeredAtMs, env'.nowMs) >= ElapsedMinutes(reg.registeredAtMs, env.nowMs);
  }

  /** The duplicate check reads `maybeSingle`'s data only: were a pair to
      hold two rows already (which `OnePerPair` rules out), the query would
      error, its data would be null, and a third row would be inserted. */
  lemma AmbiguousDuplicateNotDetected(req: IssueRequest, regs: seq<Registration>, certs: seq<CertificateRow>, env: Environment, user: string, reg: Registration)
    requires req.httpMethod != "OPTIONS"
    requires req.authorization.Some? && req.authorization.value != ""
    requires env.resolveToken(BearerToken(req.authorization.value)) == Some(user)
    requires RegistrationsOf(regs, req.eventId, user) == [reg]
    requires ElapsedMinutes(reg.registeredAtMs, env.nowMs) >= CooldownMinutes
    requires |RowsFor(certs, req.eventId, user)| >= 2 && env.insertError.None?
    ensures IssueOutcome(req, regs, certs, env).Issued?
  {
  }
}
