/** The certificate editor page: the organiser picks a field from the list,
    clicks on the template preview to place it, removes placed fields and
    saves the mapping to the event's template row. */
module CertificateEditor {
  import opened Js
  import opened Query
  import opened FieldMapping
  import GenerateCertificate

  const DefaultFontSize: real := 14.0
  const QrSize: real := 80.0

  /** The ids of the fields the page offers, in list order. */
  const AvailableFields: seq<string> :=
    ["participant_name", "cpf", "event_title", "workload_hours", "issue_date", "certificate_code", "qr_code"]

  /** `x` as a percentage of the box from `origin` spanning `extent`. */
  function Percent(client: real, origin: real, extent: real): (p: real)
    requires extent > 0.0
    ensures origin + p / 100.0 * extent == client
    ensures origin <= client <= origin + extent ==> 0.0 <= p <= 100.0
  {
    (client - origin) / extent * 100.0
  }

  /** The placement stored for the selected field when the preview is
      clicked: the click point in percent, the field's previous font size
      (14 when it had none), and a side of 80 for the QR code. */
  function ClickPlacement(field: string, previous: Option<Placement>, x: real, y: real): (p: Placement)
    ensures p.x == x && p.y == y
    ensures p.fontSize == Some(if previous.Some? then RealOr(previous.value.fontSize, DefaultFontSize) else DefaultFontSize)
    ensures p.size.Some? <==> field == "qr_code"
    ensures p.size.Some? ==> p.size.value == QrSize
  {
    var fs := if previous.Some? then RealOr(previous.value.fontSize, DefaultFontSize) else DefaultFontSize;
    Placement(x, y, Some(fs), if field == "qr_code" then Some(QrSize) else None)
  }

  /** The page's state. `loading` stays set when loading the template fails. */
  class EditorPage {
    var loading: bool
    var template: Option<TemplateRow>
    var mapping: Mapping
    var selectedField: Option<string>

    /** The mapping is an object: each field at most once. */
    predicate Valid()
      reads this
    {
      UniqueKeys(mapping)
    }

    /** Mounting the page and loading the event's template with
        `getByEvent`; a missing mapping starts empty. */
    constructor (loaded: Fetched<TemplateRow>)
      requires loaded.Row? && loaded.row.mapping.Some? ==> UniqueKeys(loaded.row.mapping.value)
      ensures Valid()
      ensures loading <==> loaded.QueryError?
      ensures template == if loaded.Row? then Some(loaded.row) else None
      ensures mapping == if loaded.Row? && loaded.row.mapping.Some? then loaded.row.mapping.value else []
      ensures selectedField.None?
    {
      loading := loaded.QueryError?;
      template := if loaded.Row? then Some(loaded.row) else None;
      mapping := if loaded.Row? && loaded.row.mapping.Some? then loaded.row.mapping.value else [];
      selectedField := None;
    }

    /** Whether the field's button shows it as placed (and is disabled). */
    function IsPlaced(field: string): (b: bool)
      reads this
      ensures b <==> exists i :: 0 <= i < |mapping| && mapping[i].id == field
    {
      HasKey(mapping, field)
    }

    /** A click on a field's button: a placed field's button is disabled. */
    method SelectField(field: string)
      modifies this
      ensures mapping == old(mapping) && loading == old(loading) && template == old(template)
      ensures selectedField == if old(IsPlaced(field)) then old(selectedField) else Some(field)
    {
      if !IsPlaced(field) {
        selectedField := Some(field);
      }
    }

    /** `handleCanvasClick`: places the selected field at the click point,
        given in client coordinates with the preview's bounding box, and
        clears the selection. Without a selection nothing happens. */
    method CanvasClick(clientX: real, clientY: real, left: real, top: real, width: real, height: real)
      requires Valid()
      requires width > 0.0 && height > 0.0
      modifies this
      ensures Valid()
      ensures loading == old(loading) && template == old(template)
      ensures old(selectedField).None? ==> mapping == old(mapping) && selectedField.None?
      ensures old(selectedField).Some? ==>
        var field := old(selectedField).value;
        selectedField.None? &&
        mapping == Put(old(mapping), field,
                       ClickPlacement(field, Get(old(mapping), field),
                                      Percent(clientX, left, width), Percent(clientY, top, height)))
    {
      if selectedField.None? {
        return;
      }
      var field := selectedField.value;
      var p := ClickPlacement(field, Get(mapping, field), Percent(clientX, left, width), Percent(clientY, top, height));
      PutKeepsUniqueKeys(mapping, field, p);
      mapping := Put(mapping, field, p);
      selectedField := None;
    }

    /** `removeField`: drops the field's placement. */
    method RemoveField(field: string)
      requires Valid()
      modifies this
      ensures Valid()
      ensures mapping == Remove(old(mapping), field)
      ensures loading == old(loading) && template == old(template) && selectedField == old(selectedField)
    {
      RemoveKeepsUniqueKeys(mapping, field);
      mapping := Remove(mapping, field);
    }

    /** `handleSave`: without the route's event id does nothing; otherwise
        writes the mapping to every template row of the event, alerts, and on
        success returns to the event's template page. `saveError` is the
        database's answer. */
    method Save(store: TemplateTable, eventId: Option<string>, saveError: Option<string>)
      returns (alert: Option<string>, navigateTo: Option<string>)
      modifies store
      ensures eventId.None? || eventId.value == "" ==>
        store.rows == old(store.rows) && alert.None? && navigateTo.None?
      ensures eventId.Some? && eventId.value != "" && saveError.None? ==>
        && store.rows == WithMapping(old(store.rows), eventId.value, mapping)
        && alert == Some("Mapeamento salvo com sucesso!")
        && navigateTo == Some("/gestor/eventos/" + eventId.value + "/certificado-template")
      ensures eventId.Some? && eventId.value != "" && saveError.Some? ==>
        store.rows == old(store.rows) && alert == Some("Erro ao salvar: " + saveError.value) && navigateTo.None?
    {
      if eventId.None? || eventId.value == "" {
        return None, None;
      }
      if saveError.Some? {
        return Some("Erro ao salvar: " + saveError.value), None;
      }
      store.UpdateMapping(eventId.value, mapping);
      return Some("Mapeamento salvo com sucesso!"), Some("/gestor/eventos/" + eventId.value + "/certificado-template");
    }
  }

  /** Placing a field puts it exactly at the click: the renderer maps the
      stored percentages onto a page of any size at the same fraction of its
      width from the left edge, and of its height from the top edge, as the
      click had in the preview's box. */
  lemma ClickRoundTrip(field: string, previous: Option<Placement>, clientX: real, clientY: real,
                       left: real, top: real, width: real, height: real, pageWidth: real, pageHeight: real)
    requires width > 0.0 && height > 0.0
    ensures var p := ClickPlacement(field, previous, Percent(clientX, left, width), Percent(clientY, top, height));
      && GenerateCertificate.AbsX(p.x, pageWidth) == (clientX - left) / width * pageWidth
      && pageHeight - GenerateCertificate.AbsY(p.y, pageHeight) == (clientY - top) / height * pageHeight
  {
    var x := Percent(clientX, left, width);
    var y := Percent(clientY, top, height);
    assert x / 100.0 == (clientX - left) / width;
    assert y / 100.0 == (clientY - top) / height;
  }

  /** Placing then removing a field that was not placed restores the
      mapping. */
  lemma {:induction false} PlaceThenRemove(m: Mapping, field: string, p: Placement)
    requires !HasKey(m, field)
    ensures Remove(Put(m, field, p), field) == m
  {
    if m != [] {
      PlaceThenRemove(m[1..], field, p);
    }
  }

  /** Once saved, the renderer finds the saved mapping on the event's
      template. */
  lemma SavedMappingIsRendered(rows: seq<TemplateRow>, eventId: string, m: Mapping)
    requires Single(TemplatesOf(rows, eventId)).Row?
    ensures Single(TemplatesOf(WithMapping(rows, eventId, m), eventId)).Row?
    ensures Single(TemplatesOf(WithMapping(rows, eventId, m), eventId)).row.mapping == Some(m)
  {
    TemplatesOfAfterSave(rows, eventId, m);
  }
}
