/** Sharing an event or an activity: the title, text and link built for the
    share sheet, and the decision to copy the link instead. */
module Share {
  import opened Js
  import opened Text

  const TitlePrefix: string := "SIGEA | "
  const EventPath: string := "/evento/"
  const ActivityQuery: string := "?atividade="

  datatype ShareData = ShareData(title: string, text: string, url: string)

  /** The fields of an event a share reads; `id` is its text in the URL. */
  datatype EventInfo = EventInfo(id: string, titulo: string, instituicao: string, campus: string, dataInicio: string)

  datatype ActivityInfo = ActivityInfo(id: string, title: string, date: string, startTime: string, endTime: string)

  /** `formatEventShare`, with `window.location.origin` and the pt-BR date
      formatting as parameters. */
  function EventShare(origin: string, e: EventInfo, formatDate: string -> string): (d: ShareData)
    ensures d.url == origin + EventPath + e.id
    ensures d.title == TitlePrefix + e.titulo
    ensures StartsWith(d.text, "📌 " + e.titulo)
  {
    var text := "📌 " + e.titulo + "\n🏫 " + e.instituicao + " - " + e.campus + "\n📅 " + formatDate(e.dataInicio)
      + "\n🔗 Inscreva-se pelo SIGEA:";
    assert text == ("📌 " + e.titulo) + ("\n🏫 " + e.instituicao + " - " + e.campus + "\n📅 " + formatDate(e.dataInicio)
      + "\n🔗 Inscreva-se pelo SIGEA:");
    ShareData(TitlePrefix + e.titulo, text, origin + EventPath + e.id)
  }

  /** `formatActivityShare`, with the pt-BR date and time formatting as
      parameters. */
  function ActivityShare(origin: string, e: EventInfo, a: ActivityInfo, formatDate: string -> string,
                         formatTime: string -> string): (d: ShareData)
    ensures d.url == origin + EventPath + e.id + ActivityQuery + a.id
    ensures d.title == TitlePrefix + a.title
  {
    ShareData(TitlePrefix + a.title,
              "🗓️ Atividade: " + a.title + "\n📌 Evento: " + e.titulo + "\n⏰ " + formatDate(a.date) + " • "
                + formatTime(a.startTime) + "-" + formatTime(a.endTime) + "\n🔗 Veja no SIGEA:",
              origin + EventPath + e.id + ActivityQuery + a.id)
  }

  /** The event and the title can be read back from what is shared: the
      event id follows the origin and `/evento/`, and the title follows the
      `SIGEA | ` prefix. */
  lemma EventShareReadsBack(origin: string, e: EventInfo, formatDate: string -> string)
    ensures var d := EventShare(origin, e, formatDate);
      && d.url[|origin| + |EventPath|..] == e.id && d.url[..|origin|] == origin
      && d.title[|TitlePrefix|..] == e.titulo
  {
    var d := EventShare(origin, e, formatDate);
    assert d.url == origin + (EventPath + e.id);
  }

  /** An activity's link is its event's link followed by the activity
      query, whose value is the activity id. */
  lemma ActivityLinkExtendsEventLink(origin: string, e: EventInfo, a: ActivityInfo,
                                     formatDate: string -> string, formatTime: string -> string)
    ensures var ev := EventShare(origin, e, formatDate).url;
      var act := ActivityShare(origin, e, a, formatDate, formatTime).url;
      && ev <= act && act[|ev|..] == ActivityQuery + a.id
  {
    var ev := EventShare(origin, e, formatDate).url;
    assert ActivityShare(origin, e, a, formatDate, formatTime).url == ev + (ActivityQuery + a.id);
  }

  /** `shareContent`: `nativeShare` is whether `navigator.share` exists and
      `shareError` the name of the error it rejects with, if any. The result
      is the text copied to the clipboard, if any: the link, when there is
      no share sheet or it fails for any reason but the user closing it. */
  function CopiedByShare(data: ShareData, nativeShare: bool, shareError: Option<string>): (copied: Option<string>)
    ensures copied.Some? <==> !nativeShare || (shareError.Some? && shareError.value != "AbortError")
    ensures copied.Some? ==> copied.value == data.url
  {
    if !nativeShare then Some(data.url)
    else if shareError.Some? && shareError.value != "AbortError" then Some(data.url)
    else None
  }
}
