/** The in-memory activity store, `mockActivitiesDB`: a record from event id
    to that event's list of activities, changed in place by create, update
    and delete. */
module ActivityRepository {
  import opened Js
  import Seqs

  datatype Activity = Activity(
    id: int,
    eventId: int,
    titulo: string,
    tipo: string,
    data: string,
    horaInicio: string,
    horaFim: string,
    local: string,
    descricao: string,
    cargaHorariaMinutos: Option<int>)

  /** The outcome of `updateActivity`: the stored activity, or the message
      of the error it throws. */
  datatype UpdateResult = Updated(activity: Activity) | Rejected(message: string)

  /** `a.id !== activityId`. */
  predicate KeepsOtherIds(activityId: int, a: Activity) {
    a.id != activityId
  }

  /** The list without the activities with id `activityId`, in order. */
  function WithoutId(list: seq<Activity>, activityId: int): (r: seq<Activity>)
    ensures |r| <= |list|
    ensures forall a :: a in r <==> a in list && a.id != activityId
  {
    Seqs.Filter(list, (a: Activity) => KeepsOtherIds(activityId, a))
  }

  /** The position of the first activity with id `activityId`, or -1. */
  function IndexOfId(list: seq<Activity>, activityId: int): (k: int)
    ensures -1 <= k < |list|
    ensures k >= 0 ==> list[k].id == activityId && forall i :: 0 <= i < k ==> list[i].id != activityId
    ensures k == -1 ==> forall i :: 0 <= i < |list| ==> list[i].id != activityId
  {
    Seqs.FindIndex(list, (a: Activity) => a.id == activityId)
  }

  /** The activities of an event, or none for an unknown event. */
  function ListOf(db: map<int, seq<Activity>>, eventId: int): seq<Activity> {
    if eventId in db then db[eventId] else []
  }

  /** The table once `created` is appended to its event's list. */
  function AfterCreate(db: map<int, seq<Activity>>, eventId: int, created: Activity): map<int, seq<Activity>> {
    db[eventId := ListOf(db, eventId) + [created]]
  }

  /** The list once its first activity with the id of `updated` is replaced. */
  function AfterUpdate(list: seq<Activity>, updated: Activity): seq<Activity>
    requires IndexOfId(list, updated.id) >= 0
  {
    list[IndexOfId(list, updated.id) := updated]
  }

  class ActivityStore {
    var db: map<int, seq<Activity>>

    constructor (initial: map<int, seq<Activity>>)
      ensures db == initial
    {
      db := initial;
    }

    /** `listByEvent`: the event's activities, or none for an unknown event. */
    function ListByEvent(eventId: int): (r: seq<Activity>)
      reads this
      ensures eventId !in db ==> r == []
      ensures eventId in db ==> r == db[eventId]
    {
      ListOf(db, eventId)
    }

    /** `createActivity`: appends the activity, with the id drawn by the
        caller, to the event's list, creating the list when missing. */
    method CreateActivity(eventId: int, data: Activity, newId: int) returns (created: Activity)
      modifies this
      ensures created == data.(id := newId)
      ensures db == AfterCreate(old(db), eventId, created)
    {
      if eventId !in db {
        db := db[eventId := []];
      }
      created := data.(id := newId);
      db := db[eventId := db[eventId] + [created]];
    }

    /** `updateActivity`: replaces the first activity with the same id in the
        list of its event; throws when the event or the id is unknown. */
    method UpdateActivity(updated: Activity) returns (r: UpdateResult)
      modifies this
      ensures updated.eventId !in old(db) ==> r == Rejected("Event not found") && db == old(db)
      ensures updated.eventId in old(db) && IndexOfId(old(db)[updated.eventId], updated.id) == -1 ==>
        r == Rejected("Activity not found") && db == old(db)
      ensures updated.eventId in old(db) && IndexOfId(old(db)[updated.eventId], updated.id) >= 0 ==>
        r == Updated(updated) && db == old(db)[updated.eventId := AfterUpdate(old(db)[updated.eventId], updated)]
    {
      if updated.eventId !in db {
        return Rejected("Event not found");
      }
      var list := db[updated.eventId];
      var index := IndexOfId(list, updated.id);
      if index == -1 {
        return Rejected("Activity not found");
      }
      db := db[updated.eventId := list[index := updated]];
      return Updated(updated);
    }

    /** `deleteActivity`: drops every activity with that id from the event's
        list; an unknown event is left alone. */
    method DeleteActivity(eventId: int, activityId: int)
      modifies this
      ensures eventId !in old(db) ==> db == old(db)
      ensures eventId in old(db) ==> db == old(db)[eventId := WithoutId(old(db)[eventId], activityId)]
    {
      if eventId !in db {
        return;
      }
      db := db[eventId := WithoutId(db[eventId], activityId)];
    }
  }

  /** Creating adds exactly the new activity at the end of its event's list
      and leaves every other event's list as it was. */
  lemma CreateAppendsOne(db: map<int, seq<Activity>>, eventId: int, created: Activity, other: int)
    requires other != eventId
    ensures var list := ListOf(db, eventId);
      var db' := AfterCreate(db, eventId, created);
      |db'[eventId]| == |list| + 1 && db'[eventId][|list|] == created && db'[eventId][..|list|] == list
      && (other in db' <==> other in db) && ListOf(db', other) == ListOf(db, other)
  {
  }

  /** An update replaces one activity and keeps the list's length, the other
      positions and the other events. */
  lemma UpdateReplacesOne(list: seq<Activity>, updated: Activity)
    requires IndexOfId(list, updated.id) >= 0
    ensures var k := IndexOfId(list, updated.id);
      var list' := AfterUpdate(list, updated);
      |list'| == |list| && list'[k] == updated && list[k].id == updated.id
      && forall i :: 0 <= i < |list| && i != k ==> list'[i] == list[i]
  {
  }

  /** After a delete no activity with that id remains, every other activity
      remains, in order, and deleting again changes nothing. */
  lemma {:induction false} DeleteRemovesId(list: seq<Activity>, activityId: int)
    ensures forall a :: a in WithoutId(list, activityId) ==> a.id != activityId
    ensures forall a :: a in list && a.id != activityId ==> a in WithoutId(list, activityId)
    ensures WithoutId(WithoutId(list, activityId), activityId) == WithoutId(list, activityId)
  {
    var r := WithoutId(list, activityId);
    Seqs.FilterAll(r, (a: Activity) => KeepsOtherIds(activityId, a));
  }
}
