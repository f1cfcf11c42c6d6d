/** The activity form: the duration computed from the start and end times,
    its hours-and-minutes display, and the submit handler's guard and
    payload. */
module ActivityForm {
  import opened Js
  import opened Text

  /** A number that may be `NaN`. */
  datatype Duration = Minutes(n: int) | NotANumber

  /** The minute of the day of an `HH:MM` time (hours 00-23), as the date
      built from `1970-01-01T<time>:00` gives it; `None` when that date is
      invalid. */
  function MinuteOfDay(t: string): (m: Option<nat>)
    ensures m.Some? ==> m.value < 24 * 60
  {
    if |t| == 5 && '0' <= t[0] <= '9' && '0' <= t[1] <= '9' && t[2] == ':' && '0' <= t[3] <= '9' && '0' <= t[4] <= '9' then
      var h := DigitValue(t[0]) * 10 + DigitValue(t[1]);
      var mm := DigitValue(t[3]) * 10 + DigitValue(t[4]);
      if h <= 23 && mm <= 59 then Some(h * 60 + mm) else None
    else None
  }

  /** The `HH:MM` text of a minute of the day. */
  function TimeText(m: nat): (t: string)
    requires m < 24 * 60
  {
    [DigitChar(m / 60 / 10), DigitChar(m / 60 % 10), ':', DigitChar(m % 60 / 10), DigitChar(m % 60 % 10)]
  }

  /** Reading a time back gives the minute it was written from. */
  lemma MinuteOfDayTimeText(m: nat)
    requires m < 24 * 60
    ensures MinuteOfDay(TimeText(m)) == Some(m)
  {
    var h, mm := m / 60, m % 60;
    assert h * 60 + mm == m && h < 24 && mm < 60;
    var t := TimeText(m);
    assert DigitValue(t[0]) * 10 + DigitValue(t[1]) == h;
    assert DigitValue(t[3]) * 10 + DigitValue(t[4]) == mm;
  }

  /** `calculateDuration`: minutes from start to end; 0 when either is
      missing or the end is not after the start; `NaN` when a time does not
      parse. */
  function CalculateDuration(start: string, end: string): (d: Duration)
    ensures start == "" || end == "" ==> d == Minutes(0)
    ensures d.NotANumber? <==> start != "" && end != "" && (MinuteOfDay(start).None? || MinuteOfDay(end).None?)
  {
    if start == "" || end == "" then Minutes(0)
    else
      match (MinuteOfDay(start), MinuteOfDay(end))
      case (Some(s), Some(e)) => if e <= s then Minutes(0) else Minutes(e - s)
      case _ => NotANumber
  }

  /** For two valid times the duration is the difference when the end is
      later and 0 otherwise, and always less than a day. */
  lemma DurationOfValidTimes(start: string, end: string)
    requires start != "" && end != ""
    requires MinuteOfDay(start).Some? && MinuteOfDay(end).Some?
    ensures var s := MinuteOfDay(start).value;
      var e := MinuteOfDay(end).value;
      && CalculateDuration(start, end).Minutes?
      && (e > s ==> CalculateDuration(start, end).n == e - s && 1 <= e - s <= 1439)
      && (e <= s ==> CalculateDuration(start, end).n == 0)
  {
  }

  /** `Math.floor(d / 60)` and `d % 60` for a duration of `d >= 0` minutes:
      whole hours and the minutes left over. */
  function HoursAndMinutes(d: nat): (hm: (nat, nat))
    ensures hm.0 * 60 + hm.1 == d && hm.1 < 60
  {
    (d / 60, d % 60)
  }

  function HourMinuteText(h: int, m: int): string {
    IntToString(h) + "h " + IntToString(m) + "min"
  }

  /** `h` is the floor of `n / 60` and `r` the remainder of `n` truncated
      toward zero, as JavaScript's `%` leaves it: same sign as `n`. */
  predicate FloorHoursTruncatedRest(n: int, h: int, r: int) {
    && h * 60 <= n < h * 60 + 60
    && (n - r) % 60 == 0 && -60 < r < 60
    && (r < 0 ==> n < 0) && (r > 0 ==> n > 0)
  }

  /** The "Carga Horária" display, `<h>h <m>min`: the whole hours and the
      minutes left over; the remainder of a negative count keeps its sign. */
  function DurationText(d: Duration): (t: string)
    ensures d.NotANumber? ==> t == "NaNh NaNmin"
    ensures d.Minutes? && d.n >= 0 ==> t == HourMinuteText(HoursAndMinutes(d.n).0, HoursAndMinutes(d.n).1)
    ensures d.Minutes? ==> exists h, r :: t == HourMinuteText(h, r) && FloorHoursTruncatedRest(d.n, h, r)
  {
    match d
    case NotANumber => "NaNh NaNmin"
    case Minutes(n) =>
      var r := if n >= 0 then n % 60 else -((-n) % 60);
      MinutesSplit(n);
      HourMinuteText(n / 60, r)
  }

  /** `Math.floor(n / 60)` with JavaScript's `n % 60` for any count. */
  lemma MinutesSplit(n: int)
    ensures FloorHoursTruncatedRest(n, n / 60, if n >= 0 then n % 60 else -((-n) % 60))
  {
    if n >= 0 {
      MultipleOfSixty(n / 60);
    } else {
      var p := -n;
      assert p == (p / 60) * 60 + p % 60 && 0 <= p % 60 < 60;
      assert n - -(p % 60) == -(p / 60) * 60;
      MultipleOfSixty(-(p / 60));
    }
  }

  lemma MultipleOfSixty(k: int)
    ensures (k * 60) % 60 == 0
  {
  }

  /** The state of the form's fields. */
  datatype FormFields = FormFields(
    titulo: string,
    tipo: string,
    data: string,
    horaInicio: string,
    horaFim: string,
    local: string,
    descricao: string)

  /** The object handed to the repository. */
  datatype ActivityData = ActivityData(
    titulo: string,
    tipo: string,
    data: string,
    horaInicio: string,
    horaFim: string,
    local: string,
    descricao: string,
    cargaHorariaMinutos: Duration,
    eventId: string)

  datatype SubmitOutcome =
    | NoEvent
    | MissingFields
    | EditPending
    | Created(data: ActivityData)
    | CreateFailed(data: ActivityData)

  /** The payload built from the form for an event. */
  function Payload(f: FormFields, eventId: string): (a: ActivityData)
    ensures a.cargaHorariaMinutos == CalculateDuration(f.horaInicio, f.horaFim)
    ensures a.eventId == eventId && a.titulo == f.titulo && a.data == f.data
    ensures a.horaInicio == f.horaInicio && a.horaFim == f.horaFim
    ensures a.tipo == f.tipo && a.local == f.local && a.descricao == f.descricao
  {
    ActivityData(f.titulo, f.tipo, f.data, f.horaInicio, f.horaFim, f.local, f.descricao,
                 CalculateDuration(f.horaInicio, f.horaFim), eventId)
  }

  /** `handleSubmit`: no event id does nothing; a missing title, date, start
      or end stops with an alert; editing only announces that editing is not
      available; creating hands the payload to the repository, whose
      failure is `createFails`. */
  function HandleSubmit(f: FormFields, eventId: Option<string>, isEditing: bool, createFails: bool): (o: SubmitOutcome)
    ensures o.NoEvent? <==> eventId.None? || eventId.value == ""
    ensures o.MissingFields? <==> !o.NoEvent? && (f.titulo == "" || f.data == "" || f.horaInicio == "" || f.horaFim == "")
    ensures o.EditPending? ==> isEditing
    ensures (o.Created? || o.CreateFailed?) <==> !o.NoEvent? && !o.MissingFields? && !isEditing
    ensures o.Created? || o.CreateFailed? ==> o.data == Payload(f, eventId.value) && o.data.titulo != ""
    ensures o.Created? ==> !createFails
  {
    if eventId.None? || eventId.value == "" then NoEvent
    else if f.titulo == "" || f.data == "" || f.horaInicio == "" || f.horaFim == "" then MissingFields
    else if isEditing then EditPending
    else if createFails then CreateFailed(Payload(f, eventId.value))
    else Created(Payload(f, eventId.value))
  }

  /** The alert the submit shows, if any. */
  function SubmitAlert(o: SubmitOutcome): (a: Option<string>)
    ensures a.None? <==> o.NoEvent?
  {
    match o
    case NoEvent => None
    case MissingFields => Some("Por favor, preencha todos os campos obrigatórios.")
    case EditPending => Some("Funcionalidade de edição em desenvolvimento.")
    case Created(_) => Some("Atividade criada com sucesso!")
    case CreateFailed(_) => Some("Erro ao salvar atividade.")
  }

  /** A saved activity's duration is never `NaN` when its times came from
      the time inputs, and is the minutes between them. */
  lemma CreatedDuration(f: FormFields, eventId: Option<string>, createFails: bool)
    requires HandleSubmit(f, eventId, false, createFails).Created?
    requires MinuteOfDay(f.horaInicio).Some? && MinuteOfDay(f.horaFim).Some?
    ensures var d := HandleSubmit(f, eventId, false, createFails).data.cargaHorariaMinutos;
      d.Minutes? && 0 <= d.n < 24 * 60 &&
      (d.n > 0 ==> MinuteOfDay(f.horaInicio).value + d.n == MinuteOfDay(f.horaFim).value)
  {
    DurationOfValidTimes(f.horaInicio, f.horaFim);
  }
}
