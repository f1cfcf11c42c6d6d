/** The in-memory registration store, `mockInscricoesDB`: an array of
    registrations that creation appends to and cancellation changes in
    place. */
module InscricaoRepository {
  import opened Js
  import Seqs

  const Confirmada: string := "confirmada"
  const Cancelada: string := "cancelada"

  datatype Inscricao = Inscricao(id: int, eventId: int, userId: string, status: string, createdAt: int)

  /** `i.event_id === eventId && i.user_id === userId`. */
  predicate IsPair(eventId: int, userId: string, i: Inscricao) {
    i.eventId == eventId && i.userId == userId
  }

  /** The position of the first registration of the pair, or -1. */
  function FirstOfPair(db: seq<Inscricao>, eventId: int, userId: string): (k: int)
    ensures -1 <= k < |db|
    ensures k >= 0 ==> IsPair(eventId, userId, db[k]) && forall i :: 0 <= i < k ==> !IsPair(eventId, userId, db[i])
    ensures k == -1 ==> forall i :: 0 <= i < |db| ==> !IsPair(eventId, userId, db[i])
  {
    Seqs.FindIndex(db, (i: Inscricao) => IsPair(eventId, userId, i))
  }

  /** The first position of the pair is the one before which no record
      of the pair occurs. */
  lemma FirstOfPairIs(db: seq<Inscricao>, eventId: int, userId: string, k: int)
    requires 0 <= k < |db| && IsPair(eventId, userId, db[k])
    requires forall i :: 0 <= i < k ==> !IsPair(eventId, userId, db[i])
    ensures FirstOfPair(db, eventId, userId) == k
  {
  }

  /** `getStatus`: the status of the first registration of the pair, a
      cancelled one included, or `null`. */
  function GetStatus(db: seq<Inscricao>, eventId: int, userId: string): (s: Option<string>)
    ensures s.None? <==> forall i :: 0 <= i < |db| ==> !IsPair(eventId, userId, db[i])
    ensures s.Some? ==> exists i :: 0 <= i < |db| && IsPair(eventId, userId, db[i]) && db[i].status == s.value
                          && forall j :: 0 <= j < i ==> !IsPair(eventId, userId, db[j])
  {
    var k := FirstOfPair(db, eventId, userId);
    if k == -1 then None else Some(db[k].status)
  }

  predicate ConfirmedForEvent(eventId: int, i: Inscricao) {
    i.eventId == eventId && i.status == Confirmada
  }

  predicate ConfirmedForUser(userId: string, i: Inscricao) {
    i.userId == userId && i.status == Confirmada
  }

  /** `listByEvento`: the event's confirmed registrations, in stored order. */
  function ListByEvento(db: seq<Inscricao>, eventId: int): (r: seq<Inscricao>)
    ensures forall i :: i in r <==> i in db && i.eventId == eventId && i.status == Confirmada
  {
    Seqs.Filter(db, (i: Inscricao) => ConfirmedForEvent(eventId, i))
  }

  /** `listByUser`: the user's confirmed registrations, in stored order. */
  function ListByUser(db: seq<Inscricao>, userId: string): (r: seq<Inscricao>)
    ensures forall i :: i in r <==> i in db && i.userId == userId && i.status == Confirmada
  {
    Seqs.Filter(db, (i: Inscricao) => ConfirmedForUser(userId, i))
  }

  /** `countByEvento`: the number of the event's confirmed registrations. */
  function CountByEvento(db: seq<Inscricao>, eventId: int): (n: nat)
    ensures n <= |db|
  {
    Seqs.Count(db, (i: Inscricao) => ConfirmedForEvent(eventId, i))
  }

  /** The count is the length of the list. */
  lemma CountIsListLength(db: seq<Inscricao>, eventId: int)
    ensures CountByEvento(db, eventId) == |ListByEvento(db, eventId)|
  {
    Seqs.CountIsFilterLength(db, (i: Inscricao) => ConfirmedForEvent(eventId, i));
  }

  /** The record `createInscricao` builds, with the id and the time drawn by
      the caller. */
  function NewInscricao(eventId: int, userId: string, newId: int, now: int): (i: Inscricao)
    ensures IsPair(eventId, userId, i) && i.status == Confirmada && i.id == newId
  {
    Inscricao(newId, eventId, userId, Confirmada, now)
  }

  /** The store after `cancelInscricao`: the first registration of the pair
      cancelled, or the store as it was. */
  function CancelFirst(db: seq<Inscricao>, eventId: int, userId: string): (r: seq<Inscricao>)
    ensures |r| == |db|
  {
    var k := FirstOfPair(db, eventId, userId);
    if k == -1 then db else db[k := db[k].(status := Cancelada)]
  }

  class InscricaoStore {
    var db: seq<Inscricao>

    constructor (initial: seq<Inscricao>)
      ensures db == initial
    {
      db := initial;
    }

    /** `createInscricao`: appends a confirmed registration; an existing one
        for the pair is not looked for. */
    method CreateInscricao(eventId: int, userId: string, newId: int, now: int) returns (created: Inscricao)
      modifies this
      ensures created == NewInscricao(eventId, userId, newId, now)
      ensures db == old(db) + [created]
    {
      created := NewInscricao(eventId, userId, newId, now);
      db := db + [created];
    }

    /** `cancelInscricao`: cancels the first registration of the pair in
        place. */
    method CancelInscricao(eventId: int, userId: string)
      modifies this
      ensures db == CancelFirst(old(db), eventId, userId)
    {
      var index := FirstOfPair(db, eventId, userId);
      if index > -1 {
        db := db[index := db[index].(status := Cancelada)];
      }
    }
  }

  /** Creating adds one record at the end, keeps every earlier record, and
      lists it with the event's registrations, whose count rises by one. */
  lemma CreateAppends(db: seq<Inscricao>, eventId: int, userId: string, newId: int, now: int)
    ensures var x := NewInscricao(eventId, userId, newId, now);
      && ListByEvento(db + [x], eventId) == ListByEvento(db, eventId) + [x]
      && CountByEvento(db + [x], eventId) == CountByEvento(db, eventId) + 1
  {
    var x := NewInscricao(eventId, userId, newId, now);
    var p := (i: Inscricao) => ConfirmedForEvent(eventId, i);
    Seqs.FilterAppend(db, [x], p);
    assert Seqs.Filter([x], p) == [x];
    Seqs.CountAppend(db, x, p);
  }

  /** Cancelling changes only the first record of the pair, and only its
      status; when the pair has no record the store is unchanged. Its
      status then reads as cancelled, and a confirmed record leaves the
      event's count. */
  lemma CancelChangesOne(db: seq<Inscricao>, eventId: int, userId: string)
    ensures var k := FirstOfPair(db, eventId, userId);
      var r := CancelFirst(db, eventId, userId);
      && (k == -1 ==> r == db)
      && (k >= 0 ==> r[k] == db[k].(status := Cancelada) && forall i :: 0 <= i < |db| && i != k ==> r[i] == db[i])
      && (k >= 0 ==> GetStatus(r, eventId, userId) == Some(Cancelada))
      && (k >= 0 && db[k].status == Confirmada ==> CountByEvento(r, eventId) == CountByEvento(db, eventId) - 1)
  {
    var k := FirstOfPair(db, eventId, userId);
    if k >= 0 {
      var r := CancelFirst(db, eventId, userId);
      assert forall i :: 0 <= i < k ==> r[i] == db[i];
      FirstOfPairIs(r, eventId, userId, k);
      Seqs.CountUpdate(db, k, db[k].(status := Cancelada), (i: Inscricao) => ConfirmedForEvent(eventId, i));
    }
  }

  /** A second registration after a cancellation is invisible to
      `getStatus`, which keeps reporting the cancelled one; both records
      stay in the store. */
  lemma ReRegistrationStaysCancelled(db: seq<Inscricao>, eventId: int, userId: string, id1: int, id2: int, t1: int, t2: int)
    requires GetStatus(db, eventId, userId).None?
    ensures var db1 := db + [NewInscricao(eventId, userId, id1, t1)];
      var db2 := CancelFirst(db1, eventId, userId);
      var db3 := db2 + [NewInscricao(eventId, userId, id2, t2)];
      GetStatus(db3, eventId, userId) == Some(Cancelada) && |db3| == |db| + 2
  {
    var x := NewInscricao(eventId, userId, id1, t1);
    var db1 := db + [x];
    assert forall i :: 0 <= i < |db| ==> db1[i] == db[i];
    FirstOfPairIs(db1, eventId, userId, |db|);
    CancelChangesOne(db1, eventId, userId);
    var db2 := CancelFirst(db1, eventId, userId);
    Seqs.FindIndexAppend(db2, [NewInscricao(eventId, userId, id2, t2)], (i: Inscricao) => IsPair(eventId, userId, i));
  }
}
