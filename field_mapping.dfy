/** The `certificate_templates` table and the field mapping each template
    row carries, `{ fields: { [fieldId]: placement } }`. The mapping's entries
    are kept in the order a JavaScript object enumerates string keys:
    insertion order, an overwritten key keeping its place. The editor writes
    the mapping and the renderer walks it in this order. */
module FieldMapping {
  import opened Js
  import Seqs

  /** Where a field goes, in percent of the template's width and height from
      its top-left corner, with an optional font size and, for the QR code, an
      optional side length. */
  datatype Placement = Placement(x: real, y: real, fontSize: Option<real>, size: Option<real>)

  datatype Entry = Entry(id: string, placement: Placement)

  /** The entries of `fields`, in enumeration order. */
  type Mapping = seq<Entry>

  /** An object has each key once. */
  predicate UniqueKeys(m: Mapping) {
    forall i, j :: 0 <= i < j < |m| ==> m[i].id != m[j].id
  }

  /** `fields[key]`: the placement stored under `key`, if any. */
  function Get(m: Mapping, key: string): (r: Option<Placement>)
    ensures r.Some? <==> exists i :: 0 <= i < |m| && m[i].id == key
    ensures r.Some? ==> exists i :: 0 <= i < |m| && m[i].id == key && r.value == m[i].placement
                                    && forall j :: 0 <= j < i ==> m[j].id != key
  {
    if m == [] then None
    else if m[0].id == key then Some(m[0].placement)
    else
      var r := Get(m[1..], key);
      assert forall i :: 0 < i < |m| ==> m[i] == m[1..][i - 1];
      if r.Some? then
        var i :| 0 <= i < |m[1..]| && m[1..][i].id == key && r.value == m[1..][i].placement
                 && forall j :: 0 <= j < i ==> m[1..][j].id != key;
        assert m[i + 1].id == key && r.value == m[i + 1].placement
               && forall j :: 0 <= j < i + 1 ==> m[j].id != key;
        r
      else r
  }

  predicate HasKey(m: Mapping, key: string) {
    Get(m, key).Some?
  }

  /** `{ ...fields, [key]: p }`: an existing key keeps its place and takes the
      new placement; a new key goes last. */
  function Put(m: Mapping, key: string, p: Placement): (r: Mapping)
    ensures |r| == if HasKey(m, key) then |m| else |m| + 1
    ensures forall i :: 0 <= i < |r| ==> r[i].id == key || exists j :: 0 <= j < |m| && m[j] == r[i]
  {
    if m == [] then [Entry(key, p)]
    else if m[0].id == key then [Entry(key, p)] + m[1..]
    else
      var rest := Put(m[1..], key, p);
      var r := [m[0]] + rest;
      assert forall i :: 1 <= i < |r| ==> r[i] == rest[i - 1];
      assert forall j :: 0 <= j < |m| - 1 ==> m[1..][j] == m[j + 1];
      r
  }

  /** The copy of `fields` with `key` deleted. */
  function Remove(m: Mapping, key: string): (r: Mapping)
    ensures |r| <= |m|
    ensures forall i :: 0 <= i < |r| ==> r[i].id != key
  {
    if m == [] then []
    else if m[0].id == key then Remove(m[1..], key)
    else [m[0]] + Remove(m[1..], key)
  }

  /** Putting a placement stores it under its key and leaves every other key
      as it was. */
  lemma {:induction false} PutGet(m: Mapping, key: string, p: Placement, other: string)
    ensures Get(Put(m, key, p), key) == Some(p)
    ensures other != key ==> Get(Put(m, key, p), other) == Get(m, other)
  {
    if m != [] && m[0].id != key {
      PutGet(m[1..], key, p, other);
    }
  }

  /** Putting keeps each key once. */
  lemma {:induction false} PutKeepsUniqueKeys(m: Mapping, key: string, p: Placement)
    requires UniqueKeys(m)
    ensures UniqueKeys(Put(m, key, p))
  {
    if m != [] && m[0].id != key {
      PutKeepsUniqueKeys(m[1..], key, p);
      var rest := Put(m[1..], key, p);
      forall j | 0 <= j < |rest| ensures rest[j].id != m[0].id {
        if rest[j].id != key {
          var k :| 0 <= k < |m[1..]| && m[1..][k] == rest[j];
          assert m[k + 1] == rest[j];
        }
      }
    }
  }

  /** Removing deletes `key` and leaves every other key as it was. */
  lemma {:induction false} RemoveGet(m: Mapping, key: string, other: string)
    ensures Get(Remove(m, key), key).None?
    ensures other != key ==> Get(Remove(m, key), other) == Get(m, other)
  {
    if m != [] {
      RemoveGet(m[1..], key, other);
    }
  }

  /** Removing an absent key changes nothing. */
  lemma {:induction false} RemoveAbsent(m: Mapping, key: string)
    requires !HasKey(m, key)
    ensures Remove(m, key) == m
  {
    if m != [] {
      RemoveAbsent(m[1..], key);
    }
  }

  /** Removing keeps the surviving entries in their order, so an object stays
      an object. */
  lemma {:induction false} RemoveKeepsUniqueKeys(m: Mapping, key: string)
    requires UniqueKeys(m)
    ensures UniqueKeys(Remove(m, key))
    ensures forall e :: e in Remove(m, key) ==> e in m
  {
    if m != [] {
      RemoveKeepsUniqueKeys(m[1..], key);
      var rest := Remove(m[1..], key);
      forall e | e in rest ensures e.id != m[0].id {
        var k :| 0 <= k < |m[1..]| && m[1..][k] == e;
        assert m[k + 1] == e;
      }
    }
  }

  /** A row of `certificate_templates`; `mapping` is `null` until the editor
      first saves one. */
  datatype TemplateRow = TemplateRow(eventId: string, filePath: string, templateType: string, mapping: Option<Mapping>)

  /** The template rows of one event, in table order. */
  function TemplatesOf(rows: seq<TemplateRow>, eventId: string): (r: seq<TemplateRow>)
    ensures |r| <= |rows|
    ensures forall t :: t in r <==> t in rows && t.eventId == eventId
  {
    Seqs.Filter(rows, (t: TemplateRow) => t.eventId == eventId)
  }

  /** Every template row of `eventId` gets `mapping := m`; nothing else changes. */
  function WithMapping(rows: seq<TemplateRow>, eventId: string, m: Mapping): (r: seq<TemplateRow>)
    ensures |r| == |rows|
    ensures forall i :: 0 <= i < |rows| && rows[i].eventId != eventId ==> r[i] == rows[i]
    ensures forall i :: 0 <= i < |rows| && rows[i].eventId == eventId ==> r[i] == rows[i].(mapping := Some(m))
  {
    seq(|rows|, i requires 0 <= i < |rows| => if rows[i].eventId == eventId then rows[i].(mapping := Some(m)) else rows[i])
  }

  /** After saving a mapping for an event, looking the event up finds the
      same template rows, each carrying the saved mapping. */
  lemma {:induction false} TemplatesOfAfterSave(rows: seq<TemplateRow>, eventId: string, m: Mapping)
    ensures |TemplatesOf(WithMapping(rows, eventId, m), eventId)| == |TemplatesOf(rows, eventId)|
    ensures forall i :: 0 <= i < |TemplatesOf(rows, eventId)| ==>
      TemplatesOf(WithMapping(rows, eventId, m), eventId)[i] == TemplatesOf(rows, eventId)[i].(mapping := Some(m))
  {
    if rows != [] {
      var w := WithMapping(rows, eventId, m);
      assert w[1..] == WithMapping(rows[1..], eventId, m);
      TemplatesOfAfterSave(rows[1..], eventId, m);
      assert TemplatesOf(rows, eventId)
          == (if rows[0].eventId == eventId then [rows[0]] else []) + TemplatesOf(rows[1..], eventId);
      assert TemplatesOf(w, eventId)
          == (if w[0].eventId == eventId then [w[0]] else []) + TemplatesOf(w[1..], eventId);
    }
  }

  /** The table as held by the database. */
  class TemplateTable {
    var rows: seq<TemplateRow>

    constructor (initial: seq<TemplateRow>)
      ensures rows == initial
    {
      rows := initial;
    }

    /** `updateMapping(eventId, mapping)`: `update({ mapping }).eq('event_id', eventId)`. */
    method UpdateMapping(eventId: string, m: Mapping)
      modifies this
      ensures rows == WithMapping(old(rows), eventId, m)
    {
      rows := WithMapping(rows, eventId, m);
    }
  }
}
