/** The `generate-certificate` edge function: renders an issued certificate
    onto its event's template at the positions of the field mapping, stores
    the document in the `certificates-pdf` bucket and records its path on the
    certificate row.

    Coordinates follow the document library: the origin is the bottom-left
    corner of the page, `y` grows upwards. Placements are percentages from
    the top-left corner. */
module GenerateCertificate {
  import opened Js
  import opened Text
  import opened Query
  import opened Certificados
  import opened FieldMapping

  const DefaultFontSize: real := 14.0
  const DefaultQrSize: real := 80.0
  const ValidationUrlPrefix: string := "https://sigea.ifal.edu.br/validar-certificado?codigo="

  /** The request body `{ event_id, user_id, certificate_id }`. */
  datatype GenerateRequest = GenerateRequest(httpMethod: string, eventId: string, userId: string, certificateId: string)

  /** The joined `profiles` row of a certificate. */
  datatype Profile = Profile(fullName: Option<string>, registrationNumber: Option<string>)

  /** The joined `events` row of a certificate. */
  datatype EventRow = EventRow(title: Option<string>, workload: Option<int>)

  datatype ImageFormat = Png | Jpg

  /** What the document library makes of the downloaded template bytes: the
      page sizes of a PDF, or the format and size of a raster image. */
  datatype TemplateAsset = PdfPages(sizes: seq<(real, real)>) | Raster(format: ImageFormat, width: real, height: real) | Unreadable

  datatype ImageSource = TemplateImage(format: ImageFormat) | QrCode(payload: string)

  /** One drawing operation on a page, in page coordinates. */
  datatype Draw =
    | DrawImage(source: ImageSource, x: real, y: real, width: real, height: real)
    | DrawText(text: string, x: real, y: real, size: real)

  /** A page comes from the template PDF or was created blank. */
  datatype Background = TemplatePage | Blank

  datatype PageContent = PageContent(width: real, height: real, background: Background, draws: seq<Draw>)

  /** Everything the function reaches outside the certificate table: the
      template bucket, the joins, the date formatter, the font metrics and
      the outcome of the two writes. `updateApplied` is false when the row
      update fails, which the function does not check. */
  datatype RenderEnvironment = RenderEnvironment(
    download: string -> Option<TemplateAsset>,
    profileOf: string -> Option<Profile>,
    eventOf: string -> Option<EventRow>,
    formatDate: string -> string,
    widthOf: (string, real) -> real,
    uploadError: Option<string>,
    updateApplied: bool)

  datatype GenerateError =
    | TemplateNotFound
    | CertificateNotFound
    | DownloadFailed
    | TemplateUnreadable
    | NoPages
    | NoMapping
    | MissingJoin
    | UploadFailed(message: string)

  /** `document` is what was stored at `path`; the response body carries the path. */
  datatype GenerateResponse = Preflight | Failed(error: GenerateError) | Generated(path: string, document: seq<PageContent>)

  /** The status code of the response. */
  function HttpStatus(resp: GenerateResponse): (code: int)
    ensures code == 400 <==> resp.Failed?
    ensures code == 200 <==> !resp.Failed?
  {
    if resp.Failed? then 400 else 200
  }

  /** The `error` text of a failure the function raises itself; failures
      raised inside the libraries carry the library's own text. */
  function ErrorMessage(e: GenerateError): (m: Option<string>)
    ensures m.None? <==> e.TemplateUnreadable? || e.NoPages? || e.NoMapping? || e.MissingJoin?
    ensures e.UploadFailed? ==> m == Some(e.message)
  {
    match e
    case TemplateNotFound => Some("Template não encontrado para este evento.")
    case CertificateNotFound => Some("Dados do certificado não encontrados.")
    case DownloadFailed => Some("Erro ao baixar arquivo do template.")
    case UploadFailed(message) => Some(message)
    case _ => None
  }

  /** Opens the template: a PDF's own pages, or one blank page the size of
      the image with the image drawn over all of it (PNG when the template
      type is `image`, JPEG otherwise). `None` when the library rejects the
      bytes. */
  function LoadTemplate(templateType: string, asset: TemplateAsset): (pages: Option<seq<PageContent>>)
    ensures templateType == "pdf" ==> (pages.Some? <==> asset.PdfPages?)
    ensures pages.Some? && templateType == "pdf" ==>
      |pages.value| == |asset.sizes| &&
      forall i :: 0 <= i < |pages.value| ==>
        pages.value[i] == PageContent(asset.sizes[i].0, asset.sizes[i].1, TemplatePage, [])
    ensures templateType != "pdf" ==>
      (pages.Some? <==> asset.Raster? && (asset.format.Png? <==> templateType == "image"))
    ensures pages.Some? && templateType != "pdf" ==>
      pages.value == [PageContent(asset.width, asset.height, Blank,
                                  [DrawImage(TemplateImage(asset.format), 0.0, 0.0, asset.width, asset.height)])]
  {
    if templateType == "pdf" then
      match asset
      case PdfPages(sizes) =>
        Some(seq(|sizes|, i requires 0 <= i < |sizes| => PageContent(sizes[i].0, sizes[i].1, TemplatePage, [])))
      case _ => None
    else
      match asset
      case Raster(format, w, h) =>
        if format.Png? == (templateType == "image") then
          Some([PageContent(w, h, Blank, [DrawImage(TemplateImage(format), 0.0, 0.0, w, h)])])
        else None
      case _ => None
  }

  /** The values the mapping's text fields draw, by field id. */
  function DataMap(cert: CertificateRow, profile: Profile, event: EventRow, formatDate: string -> string): (dm: map<string, Option<string>>)
    ensures dm.Keys == {"participant_name", "cpf", "event_title", "workload_hours", "issue_date", "certificate_code"}
    ensures dm["cpf"] == Some(if profile.registrationNumber.Some? && profile.registrationNumber.value != ""
                              then profile.registrationNumber.value else "---")
    ensures dm["workload_hours"] == Some(IntToString(IntOr(event.workload, 0)) + " horas")
    ensures dm["certificate_code"] == Some(cert.codigoCertificado)
    ensures dm["participant_name"] == profile.fullName && dm["event_title"] == event.title
  {
    map[
      "participant_name" := profile.fullName,
      "cpf" := Some(StrOr(profile.registrationNumber, "---")),
      "event_title" := event.title,
      "workload_hours" := Some(IntToString(IntOr(event.workload, 0)) + " horas"),
      "issue_date" := Some(formatDate(cert.emitidoEm)),
      "certificate_code" := Some(cert.codigoCertificado)
    ]
  }

  /** `dataMap[fieldId]` when it is a non-empty text. */
  function TextFor(dm: map<string, Option<string>>, fieldId: string): (t: Option<string>)
    ensures t.Some? <==> fieldId in dm && dm[fieldId].Some? && dm[fieldId].value != ""
    ensures t.Some? ==> t == dm[fieldId]
  {
    if fieldId in dm && dm[fieldId].Some? && dm[fieldId].value != "" then dm[fieldId] else None
  }

  /** The horizontal page coordinate of `x` percent of the width. */
  function AbsX(x: real, width: real): real {
    x / 100.0 * width
  }

  /** The vertical page coordinate of `y` percent of the height, measured
      down from the top edge. */
  function AbsY(y: real, height: real): real {
    height - y / 100.0 * height
  }

  /** The address the QR code encodes. */
  function ValidationUrl(code: string): (url: string)
    ensures StartsWith(url, ValidationUrlPrefix)
    ensures url[|ValidationUrlPrefix|..] == code
  {
    ValidationUrlPrefix + code
  }

  /** What one mapping entry draws, if anything: the QR code centred on its
      point, or the field's text centred horizontally on its point. */
  function DrawFor(e: Entry, width: real, height: real, dm: map<string, Option<string>>,
                   code: string, widthOf: (string, real) -> real): (d: Option<Draw>)
    ensures d.None? <==> e.id != "qr_code" && TextFor(dm, e.id).None?
    ensures d.Some? && e.id == "qr_code" ==> d.value.DrawImage? && d.value.source == QrCode(ValidationUrl(code))
    ensures d.Some? && e.id != "qr_code" ==> d.value.DrawText? && Some(d.value.text) == TextFor(dm, e.id)
  {
    var ax := AbsX(e.placement.x, width);
    var ay := AbsY(e.placement.y, height);
    if e.id == "qr_code" then
      var size := RealOr(e.placement.size, DefaultQrSize);
      Some(DrawImage(QrCode(ValidationUrl(code)), ax - size / 2.0, ay - size / 2.0, size, size))
    else
      match TextFor(dm, e.id)
      case None => None
      case Some(text) =>
        var fs := RealOr(e.placement.fontSize, DefaultFontSize);
        Some(DrawText(text, ax - widthOf(text, fs) / 2.0, ay - fs / 2.0, fs))
  }

  /** The drawings of a mapping, in entry order. */
  function Plan(m: Mapping, width: real, height: real, dm: map<string, Option<string>>,
                code: string, widthOf: (string, real) -> real): (ds: seq<Draw>)
    ensures |ds| <= |m|
  {
    if m == [] then []
    else
      var init := Plan(m[..|m| - 1], width, height, dm, code, widthOf);
      match DrawFor(m[|m| - 1], width, height, dm, code, widthOf)
      case None => init
      case Some(d) => init + [d]
  }

  /** The number of entries that draw something. */
  function DrawingEntries(m: Mapping, dm: map<string, Option<string>>): nat {
    if m == [] then 0
    else DrawingEntries(m[..|m| - 1], dm) + (if m[|m| - 1].id == "qr_code" || TextFor(dm, m[|m| - 1].id).Some? then 1 else 0)
  }

  /** Each entry that draws contributes exactly one drawing. */
  lemma {:induction false} PlanLength(m: Mapping, width: real, height: real, dm: map<string, Option<string>>,
                                      code: string, widthOf: (string, real) -> real)
    ensures |Plan(m, width, height, dm, code, widthOf)| == DrawingEntries(m, dm)
  {
    if m != [] {
      PlanLength(m[..|m| - 1], width, height, dm, code, widthOf);
    }
  }

  /** Drawings follow the mapping's order: the plan of a concatenation is
      the concatenation of the plans. */
  lemma {:induction false} PlanAppend(a: Mapping, b: Mapping, width: real, height: real,
                                      dm: map<string, Option<string>>, code: string, widthOf: (string, real) -> real)
    ensures Plan(a + b, width, height, dm, code, widthOf)
         == Plan(a, width, height, dm, code, widthOf) + Plan(b, width, height, dm, code, widthOf)
  {
    if b == [] {
      assert a + b == a;
    } else {
      var b' := b[..|b| - 1];
      assert (a + b)[..|a + b| - 1] == a + b';
      assert (a + b)[|a + b| - 1] == b[|b| - 1];
      PlanAppend(a, b', width, height, dm, code, widthOf);
    }
  }

  /** The four corners and the centre of the page in placement percentages. */
  lemma PercentToPage(width: real, height: real)
    ensures AbsX(0.0, width) == 0.0 && AbsY(0.0, height) == height
    ensures AbsX(100.0, width) == width && AbsY(100.0, height) == 0.0
    ensures AbsX(50.0, width) == width / 2.0 && AbsY(50.0, height) == height / 2.0
  {
  }

  /** A placement further down the template lands lower on the page. */
  lemma AbsYDecreasing(y1: real, y2: real, height: real)
    requires y1 < y2 && height > 0.0
    ensures AbsY(y2, height) < AbsY(y1, height)
  {
  }

  /** The QR code is a square of the placement's size (80 when unset) whose
      centre is the placement's point. */
  lemma QrCentred(e: Entry, width: real, height: real, dm: map<string, Option<string>>,
                  code: string, widthOf: (string, real) -> real)
    requires e.id == "qr_code"
    ensures var d := DrawFor(e, width, height, dm, code, widthOf).value;
      d.width == d.height == RealOr(e.placement.size, DefaultQrSize) &&
      d.x + d.width / 2.0 == AbsX(e.placement.x, width) &&
      d.y + d.height / 2.0 == AbsY(e.placement.y, height)
  {
  }

  /** A text is drawn at the placement's font size (14 when unset), its
      middle on the placement's point. */
  lemma TextCentred(e: Entry, width: real, height: real, dm: map<string, Option<string>>,
                    code: string, widthOf: (string, real) -> real)
    requires e.id != "qr_code" && TextFor(dm, e.id).Some?
    ensures var d := DrawFor(e, width, height, dm, code, widthOf).value;
      d.size == RealOr(e.placement.fontSize, DefaultFontSize) &&
      d.x + widthOf(d.text, d.size) / 2.0 == AbsX(e.placement.x, width) &&
      d.y + d.size / 2.0 == AbsY(e.placement.y, height)
  {
  }

  /** The stored object name. It uses the request's ids, not the
      certificate row's. */
  function OutputPath(req: GenerateRequest, code: string): (path: string)
    ensures StartsWith(path, "issued/")
    ensures path == "issued/" + req.eventId + "/" + req.userId + "/" + code + ".pdf"
  {
    "issued/" + req.eventId + "/" + req.userId + "/" + code + ".pdf"
  }

  /** The function's outcome, checks in source order. */
  function GenerateOutcome(req: GenerateRequest, templates: seq<TemplateRow>, certs: seq<CertificateRow>,
                           env: RenderEnvironment): (resp: GenerateResponse)
  {
    if req.httpMethod == "OPTIONS" then Preflight
    else
      match Single(TemplatesOf(templates, req.eventId))
      case NoRow => Failed(TemplateNotFound)
      case QueryError => Failed(TemplateNotFound)
      case Row(template) =>
        match Single(RowsWithId(certs, req.certificateId))
        case NoRow => Failed(CertificateNotFound)
        case QueryError => Failed(CertificateNotFound)
        case Row(cert) => Render(req, template, cert, env)
  }

  /** The outcome once the template and the certificate are found: download,
      load, draw and upload. */
  function Render(req: GenerateRequest, template: TemplateRow, cert: CertificateRow, env: RenderEnvironment): (resp: GenerateResponse)
  {
    match env.download(template.filePath)
    case None => Failed(DownloadFailed)
    case Some(asset) =>
      match LoadTemplate(template.templateType, asset)
      case None => Failed(TemplateUnreadable)
      case Some(pages) =>
        if pages == [] then Failed(NoPages)
        else if template.mapping.None? then Failed(NoMapping)
        else if env.profileOf(cert.userId).None? || env.eventOf(cert.eventoId).None? then Failed(MissingJoin)
        else
          var dm := DataMap(cert, env.profileOf(cert.userId).value, env.eventOf(cert.eventoId).value, env.formatDate);
          var first := pages[0];
          var drawn := Plan(template.mapping.value, first.width, first.height, dm, cert.codigoCertificado, env.widthOf);
          if env.uploadError.Some? then Failed(UploadFailed(env.uploadError.value))
          else
            Generated(OutputPath(req, cert.codigoCertificado),
                      [first.(draws := first.draws + drawn)] + pages[1..])
  }

  /** The document path of a certificate plays no part in rendering it. */
  lemma RenderIgnoresUrlPdf(req: GenerateRequest, template: TemplateRow, cert: CertificateRow,
                            env: RenderEnvironment, path: string)
    ensures Render(req, template, cert.(urlPdf := Some(path)), env) == Render(req, template, cert, env)
  {
    var c := cert.(urlPdf := Some(path));
    assert c.userId == cert.userId && c.eventoId == cert.eventoId && c.codigoCertificado == cert.codigoCertificado;
    assert c.emitidoEm == cert.emitidoEm;
  }

  /** The page being drawn on. */
  class Page {
    const width: real
    const height: real
    const background: Background
    var draws: seq<Draw>

    constructor (content: PageContent)
      ensures width == content.width && height == content.height
      ensures background == content.background && draws == content.draws
    {
      width := content.width;
      height := content.height;
      background := content.background;
      draws := content.draws;
    }

    function Content(): (c: PageContent)
      reads this
      ensures c.width == width && c.height == height && c.draws == draws
    {
      PageContent(width, height, background, draws)
    }

    /** `page.drawImage(...)`. */
    method DrawImageAt(source: ImageSource, x: real, y: real, w: real, h: real)
      modifies this
      ensures draws == old(draws) + [DrawImage(source, x, y, w, h)]
    {
      draws := draws + [DrawImage(source, x, y, w, h)];
    }

    /** `page.drawText(...)`. */
    method DrawTextAt(text: string, x: real, y: real, size: real)
      modifies this
      ensures draws == old(draws) + [DrawText(text, x, y, size)]
    {
      draws := draws + [DrawText(text, x, y, size)];
    }
  }

  /** The loop over `Object.entries(mapping)`: draws each entry on the page,
      in order. */
  method ApplyMapping(page: Page, m: Mapping, dm: map<string, Option<string>>,
                      code: string, widthOf: (string, real) -> real)
    modifies page
    ensures page.draws == old(page.draws) + Plan(m, page.width, page.height, dm, code, widthOf)
  {
    for i := 0 to |m|
      invariant page.draws == old(page.draws) + Plan(m[..i], page.width, page.height, dm, code, widthOf)
    {
      var e := m[i];
      assert m[..i + 1][..i] == m[..i];
      var ax := AbsX(e.placement.x, page.width);
      var ay := AbsY(e.placement.y, page.height);
      if e.id == "qr_code" {
        var size := RealOr(e.placement.size, DefaultQrSize);
        page.DrawImageAt(QrCode(ValidationUrl(code)), ax - size / 2.0, ay - size / 2.0, size, size);
      } else if e.id in dm && dm[e.id].Some? && dm[e.id].value != "" {
        var text := dm[e.id].value;
        var fs := RealOr(e.placement.fontSize, DefaultFontSize);
        page.DrawTextAt(text, ax - widthOf(text, fs) / 2.0, ay - fs / 2.0, fs);
      }
    }
    assert m[..|m|] == m;
  }

  /** The `certificates-pdf` bucket. */
  class Bucket {
    var objects: map<string, seq<PageContent>>

    constructor (initial: map<string, seq<PageContent>>)
      ensures objects == initial
    {
      objects := initial;
    }

    /** `upload(path, bytes, { upsert: true })`: creates or replaces. */
    method Upload(path: string, document: seq<PageContent>)
      modifies this
      ensures objects == old(objects)[path := document]
    {
      objects := objects[path := document];
    }
  }

  /** The request handler. */
  method Generate(table: CertificateTable, bucket: Bucket, req: GenerateRequest, templates: seq<TemplateRow>,
                  env: RenderEnvironment) returns (resp: GenerateResponse)
    modifies table, bucket
    ensures resp == GenerateOutcome(req, templates, old(table.rows), env)
    ensures bucket.objects == if resp.Generated? then old(bucket.objects)[resp.path := resp.document] else old(bucket.objects)
    ensures table.rows == if resp.Generated? && env.updateApplied
                          then WithUrlPdf(old(table.rows), req.certificateId, resp.path)
                          else old(table.rows)
  {
    if req.httpMethod == "OPTIONS" {
      return Preflight;
    }
    var template;
    match Single(TemplatesOf(templates, req.eventId)) {
      case Row(t) => template := t;
      case _ => return Failed(TemplateNotFound);
    }
    var cert;
    match Single(RowsWithId(table.rows, req.certificateId)) {
      case Row(c) => cert := c;
      case _ => return Failed(CertificateNotFound);
    }
    resp := RenderAndStore(bucket, req, template, cert, env);
    if resp.Generated? && env.updateApplied {
      table.UpdateUrlPdf(req.certificateId, resp.path);
    }
  }

  /** The handler from the download of the template on: draws the mapped
      fields on a copy of the first page and uploads the document. */
  method RenderAndStore(bucket: Bucket, req: GenerateRequest, template: TemplateRow, cert: CertificateRow,
                        env: RenderEnvironment) returns (resp: GenerateResponse)
    modifies bucket
    ensures resp == Render(req, template, cert, env)
    ensures bucket.objects == if resp.Generated? then old(bucket.objects)[resp.path := resp.document] else old(bucket.objects)
  {
    var asset;
    match env.download(template.filePath) {
      case Some(a) => asset := a;
      case None => return Failed(DownloadFailed);
    }
    var pages;
    match LoadTemplate(template.templateType, asset) {
      case Some(p) => pages := p;
      case None => return Failed(TemplateUnreadable);
    }
    if pages == [] {
      return Failed(NoPages);
    }
    var page := new Page(pages[0]);
    if template.mapping.None? {
      return Failed(NoMapping);
    }
    var profile := env.profileOf(cert.userId);
    var event := env.eventOf(cert.eventoId);
    if profile.None? || event.None? {
      return Failed(MissingJoin);
    }
    var dm := DataMap(cert, profile.value, event.value, env.formatDate);
    ApplyMapping(page, template.mapping.value, dm, cert.codigoCertificado, env.widthOf);
    var document := [page.Content()] + pages[1..];
    var path := OutputPath(req, cert.codigoCertificado);
    if env.uploadError.Some? {
      return Failed(UploadFailed(env.uploadError.value));
    }
    bucket.Upload(path, document);
    return Generated(path, document);
  }

  /** Rendering again after a success finds the same certificate and
      produces the same document at the same path: attaching the path to
      the row does not change what is rendered. */
  lemma RenderIsRetrySafe(req: GenerateRequest, templates: seq<TemplateRow>, certs: seq<CertificateRow>,
                          env: RenderEnvironment, path: string)
    ensures GenerateOutcome(req, templates, WithUrlPdf(certs, req.certificateId, path), env)
         == GenerateOutcome(req, templates, certs, env)
  {
    RowsWithIdAfterUrlPdf(certs, req.certificateId, path);
    var found := RowsWithId(certs, req.certificateId);
    match Single(TemplatesOf(templates, req.eventId))
    case Row(template) =>
      if |found| == 1 {
        RenderIgnoresUrlPdf(req, template, found[0], env, path);
      }
    case _ =>
  }

  /** Without exactly one template for the event nothing is drawn or stored. */
  lemma TemplateRequired(req: GenerateRequest, templates: seq<TemplateRow>, certs: seq<CertificateRow>,
                         env: RenderEnvironment)
    requires req.httpMethod != "OPTIONS"
    requires forall t :: t in templates ==> t.eventId != req.eventId
    ensures GenerateOutcome(req, templates, certs, env) == Failed(TemplateNotFound)
  {
    var m := TemplatesOf(templates, req.eventId);
    assert forall i :: 0 <= i < |m| ==> m[i] in m;
  }

  /** A successful render keeps the template's pages, adds the mapping's
      drawings to the first page only, and stores under the request's
      event and user. */
  lemma GeneratedShape(req: GenerateRequest, templates: seq<TemplateRow>, certs: seq<CertificateRow>,
                       env: RenderEnvironment)
    requires GenerateOutcome(req, templates, certs, env).Generated?
    ensures var resp := GenerateOutcome(req, templates, certs, env);
      var template := Single(TemplatesOf(templates, req.eventId)).row;
      var cert := Single(RowsWithId(certs, req.certificateId)).row;
      var pages := LoadTemplate(template.templateType, env.download(template.filePath).value).value;
      |resp.document| == |pages| &&
      resp.document[1..] == pages[1..] &&
      resp.document[0].width == pages[0].width && resp.document[0].height == pages[0].height &&
      resp.document[0].draws[..|pages[0].draws|] == pages[0].draws &&
      |resp.document[0].draws| <= |pages[0].draws| + |template.mapping.value| &&
      resp.path == OutputPath(req, cert.codigoCertificado)
  {
  }
}
