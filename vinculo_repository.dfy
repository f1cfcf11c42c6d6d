/** The in-memory store of institutional link requests, `mockVinculosDB`:
    listed by status, and reviewed by writing a record's status in place. */
module VinculoRepository {
  import opened Js
  import Seqs

  datatype Vinculo = Vinculo(
    id: int,
    userId: string,
    userNome: string,
    userEmail: string,
    instituicao: string,
    campus: string,
    perfilSolicitado: string,
    matriculaOuSiape: string,
    status: string,
    createdAt: int)

  predicate HasStatus(status: string, v: Vinculo) {
    v.status == status
  }

  /** `listByStatus`: the records with that status, in stored order. */
  function ListByStatus(db: seq<Vinculo>, status: string): (r: seq<Vinculo>)
    ensures |r| <= |db|
    ensures forall v :: v in r <==> v in db && v.status == status
  {
    Seqs.Filter(db, (v: Vinculo) => HasStatus(status, v))
  }

  /** The position of the first record with that id, or -1. */
  function IndexOfId(db: seq<Vinculo>, vinculoId: int): (k: int)
    ensures -1 <= k < |db|
    ensures k >= 0 ==> db[k].id == vinculoId && forall i :: 0 <= i < k ==> db[i].id != vinculoId
    ensures k == -1 ==> forall i :: 0 <= i < |db| ==> db[i].id != vinculoId
  {
    Seqs.FindIndex(db, (v: Vinculo) => v.id == vinculoId)
  }

  class VinculoStore {
    var db: seq<Vinculo>

    constructor (initial: seq<Vinculo>)
      ensures db == initial
    {
      db := initial;
    }

    /** `updateStatus`: sets the status of the first record with that id and
        returns it, or returns `null` for an unknown id. */
    method UpdateStatus(vinculoId: int, status: string) returns (r: Option<Vinculo>)
      modifies this
      ensures var k := IndexOfId(old(db), vinculoId);
        && (k == -1 ==> r.None? && db == old(db))
        && (k >= 0 ==> r == Some(old(db)[k].(status := status)) && db == old(db)[k := r.value])
    {
      var index := IndexOfId(db, vinculoId);
      if index > -1 {
        db := db[index := db[index].(status := status)];
        return Some(db[index]);
      }
      return None;
    }
  }

  /** A review changes one record's status and nothing else, and the record
      then appears among those of its new status and no longer among those
      of its old one. */
  lemma UpdateMovesRecord(db: seq<Vinculo>, k: int, status: string, previous: string)
    requires 0 <= k < |db| && previous != status
    requires forall i :: 0 <= i < |db| && i != k ==> db[i] != db[k].(status := previous)
    ensures var v := db[k].(status := status);
      var r := db[k := v];
      && |r| == |db|
      && (forall i :: 0 <= i < |db| && i != k ==> r[i] == db[i])
      && r[k].id == db[k].id && r[k].userId == db[k].userId && r[k].instituicao == db[k].instituicao
      && v in ListByStatus(r, status)
      && db[k].(status := previous) !in ListByStatus(r, previous)
  {
    var v := db[k].(status := status);
    var r := db[k := v];
    assert r[k] == v;
  }
}
