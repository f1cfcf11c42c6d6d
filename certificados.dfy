/** The `certificados` table: one issuance record per certificate. Issuance
    appends rows; rendering attaches the stored document's path to a row. */
module Certificados {
  import opened Js
  import Seqs

  /** A row of `certificados`. `emitidoEm` is the issue timestamp as the
      database renders it. */
  datatype CertificateRow = CertificateRow(
    id: string,
    eventoId: string,
    userId: string,
    codigoValidacao: string,
    codigoCertificado: string,
    cargaHoraria: int,
    emitidoEm: string,
    urlPdf: Option<string>)

  predicate IsFor(row: CertificateRow, eventId: string, userId: string) {
    row.eventoId == eventId && row.userId == userId
  }

  /** The rows of one (event, user) pair, in table order. */
  function RowsFor(rows: seq<CertificateRow>, eventId: string, userId: string): (r: seq<CertificateRow>)
    ensures |r| <= |rows|
    ensures forall x :: x in r <==> x in rows && IsFor(x, eventId, userId)
  {
    Seqs.Filter(rows, (x: CertificateRow) => IsFor(x, eventId, userId))
  }

  /** The rows with one id, in table order. */
  function RowsWithId(rows: seq<CertificateRow>, id: string): (r: seq<CertificateRow>)
    ensures forall x :: x in r <==> x in rows && x.id == id
  {
    Seqs.Filter(rows, (x: CertificateRow) => x.id == id)
  }

  /** A pair none of whose rows is in the table matches nothing. */
  lemma {:induction false} RowsForNone(rows: seq<CertificateRow>, eventId: string, userId: string)
    requires forall i :: 0 <= i < |rows| ==> !IsFor(rows[i], eventId, userId)
    ensures RowsFor(rows, eventId, userId) == []
  {
    if rows != [] {
      RowsForNone(rows[1..], eventId, userId);
    }
  }

  /** No two rows belong to the same (event, user) pair. */
  predicate OnePerPair(rows: seq<CertificateRow>) {
    forall i, j :: 0 <= i < j < |rows| ==> !IsFor(rows[j], rows[i].eventoId, rows[i].userId)
  }

  /** Under `OnePerPair`, a pair matches at most one row. */
  lemma {:induction false} OnePerPairAtMostOneMatch(rows: seq<CertificateRow>, eventId: string, userId: string)
    requires OnePerPair(rows)
    ensures |RowsFor(rows, eventId, userId)| <= 1
  {
    if rows != [] {
      var rest := rows[1..];
      assert OnePerPair(rest);
      OnePerPairAtMostOneMatch(rest, eventId, userId);
      if IsFor(rows[0], eventId, userId) {
        forall j | 0 <= j < |rest| ensures !IsFor(rest[j], eventId, userId) {
          assert rows[j + 1] == rest[j];
        }
        RowsForNone(rest, eventId, userId);
      }
      assert RowsFor(rows, eventId, userId)
          == (if IsFor(rows[0], eventId, userId) then [rows[0]] else []) + RowsFor(rest, eventId, userId);
    }
  }

  /** Appending a row for a pair that has none keeps `OnePerPair`. */
  lemma AppendKeepsOnePerPair(rows: seq<CertificateRow>, row: CertificateRow)
    requires OnePerPair(rows)
    requires RowsFor(rows, row.eventoId, row.userId) == []
    ensures OnePerPair(rows + [row])
  {
    var rows' := rows + [row];
    forall i, j | 0 <= i < j < |rows'|
      ensures !IsFor(rows'[j], rows'[i].eventoId, rows'[i].userId)
    {
      if j == |rows| {
        assert rows'[i] in rows;
      }
    }
  }

  /** Every row with id `id` gets `urlPdf := path`; nothing else changes. */
  function WithUrlPdf(rows: seq<CertificateRow>, id: string, path: string): (r: seq<CertificateRow>)
    ensures |r| == |rows|
    ensures forall i :: 0 <= i < |rows| && rows[i].id != id ==> r[i] == rows[i]
    ensures forall i :: 0 <= i < |rows| && rows[i].id == id ==> r[i] == rows[i].(urlPdf := Some(path))
  {
    seq(|rows|, i requires 0 <= i < |rows| => if rows[i].id == id then rows[i].(urlPdf := Some(path)) else rows[i])
  }

  /** Attaching the document path never changes which pair a row belongs to,
      so it keeps `OnePerPair`. */
  lemma WithUrlPdfKeepsOnePerPair(rows: seq<CertificateRow>, id: string, path: string)
    requires OnePerPair(rows)
    ensures OnePerPair(WithUrlPdf(rows, id, path))
  {
    var r := WithUrlPdf(rows, id, path);
    forall i, j | 0 <= i < j < |r| ensures !IsFor(r[j], r[i].eventoId, r[i].userId) {
      assert r[i].eventoId == rows[i].eventoId && r[i].userId == rows[i].userId;
      assert r[j].eventoId == rows[j].eventoId && r[j].userId == rows[j].userId;
    }
  }

  /** After attaching a path to the rows with id `id`, looking that id up
      finds the same rows, each now carrying the path. */
  lemma {:induction false} RowsWithIdAfterUrlPdf(rows: seq<CertificateRow>, id: string, path: string)
    ensures |RowsWithId(WithUrlPdf(rows, id, path), id)| == |RowsWithId(rows, id)|
    ensures forall i :: 0 <= i < |RowsWithId(rows, id)| ==>
      RowsWithId(WithUrlPdf(rows, id, path), id)[i] == RowsWithId(rows, id)[i].(urlPdf := Some(path))
  {
    if rows != [] {
      var w := WithUrlPdf(rows, id, path);
      assert w[1..] == WithUrlPdf(rows[1..], id, path);
      RowsWithIdAfterUrlPdf(rows[1..], id, path);
      assert RowsWithId(rows, id)
          == (if rows[0].id == id then [rows[0]] else []) + RowsWithId(rows[1..], id);
      assert RowsWithId(w, id)
          == (if w[0].id == id then [w[0]] else []) + RowsWithId(w[1..], id);
    }
  }

  /** Attaching the same path twice is attaching it once. */
  lemma WithUrlPdfIdempotent(rows: seq<CertificateRow>, id: string, path: string)
    ensures WithUrlPdf(WithUrlPdf(rows, id, path), id, path) == WithUrlPdf(rows, id, path)
  {
  }

  /** The table as held by the database. */
  class CertificateTable {
    var rows: seq<CertificateRow>

    constructor (initial: seq<CertificateRow>)
      ensures rows == initial
    {
      rows := initial;
    }

    /** `insert(row)`. */
    method Insert(row: CertificateRow)
      modifies this
      ensures rows == old(rows) + [row]
    {
      rows := rows + [row];
    }

    /** `update({ url_pdf: path }).eq('id', id)`. */
    method UpdateUrlPdf(id: string, path: string)
      modifies this
      ensures rows == WithUrlPdf(old(rows), id, path)
    {
      rows := WithUrlPdf(rows, id, path);
    }
  }
}
