/** The activity management page of an event: who may manage, where
    everyone else is sent, and the list after a deletion. */
module ManageActivities {
  import opened Js
  import Seqs

  datatype User = User(perfil: string, isOrganizer: bool)

  /** An activity as the page lists it. */
  datatype ListedActivity = ListedActivity(id: string, title: string, date: string, startTime: string)

  /** `user && (user.is_organizer || user.perfil === 'admin')`. */
  predicate CanManage(user: Option<User>) {
    user.Some? && (user.value.isOrganizer || user.value.perfil == "admin")
  }

  /** What the page shows, and where it sends the user. */
  datatype View = Spinner | Nothing | ActivityList

  function ViewOf(loading: bool, user: Option<User>): (v: View)
    ensures v.Spinner? <==> loading
    ensures v.ActivityList? <==> !loading && CanManage(user)
  {
    if loading then Spinner else if !CanManage(user) then Nothing else ActivityList
  }

  /** The redirect effect: once loaded, anyone who cannot manage is sent to
      `/perfil`. */
  function RedirectOf(loading: bool, user: Option<User>): (to: Option<string>)
    ensures to.Some? <==> ViewOf(loading, user).Nothing?
    ensures to.Some? ==> to.value == "/perfil"
  {
    if !loading && !CanManage(user) then Some("/perfil") else None
  }

  /** A manager (`gestor`) who is not flagged as organiser is turned away,
      and an administrator is let in whatever the flag. */
  lemma ManagementNeedsFlagOrAdmin(organizerFlag: bool)
    ensures RedirectOf(false, Some(User("gestor", false))) == Some("/perfil")
    ensures ViewOf(false, Some(User("admin", organizerFlag))).ActivityList?
  {
  }

  predicate HasOtherId(activityId: string, a: ListedActivity) {
    a.id != activityId
  }

  /** `prev.filter(a => a.id !== activityId)`. */
  function WithoutActivity(list: seq<ListedActivity>, activityId: string): (r: seq<ListedActivity>)
    ensures |r| <= |list|
    ensures forall a :: a in r <==> a in list && a.id != activityId
  {
    Seqs.Filter(list, (a: ListedActivity) => HasOtherId(activityId, a))
  }

  /** Removing an id from a list joined from two parts removes it from each
      part, so the remaining activities keep their order. */
  lemma WithoutActivityKeepsOrder(a: seq<ListedActivity>, b: seq<ListedActivity>, activityId: string)
    ensures WithoutActivity(a + b, activityId) == WithoutActivity(a, activityId) + WithoutActivity(b, activityId)
  {
    Seqs.FilterAppend(a, b, (x: ListedActivity) => HasOtherId(activityId, x));
  }

  class ManageActivitiesPage {
    var activities: seq<ListedActivity>
    var loading: bool

    constructor ()
      ensures activities == [] && loading
    {
      activities := [];
      loading := true;
    }

    /** The loading effect: with an event id the event's activities are
        listed (`None` when the listing rejects, which leaves the list as it
        was) and loading ends either way; without an event id the page keeps
        loading. */
    method Load(eventId: Option<string>, listed: Option<seq<ListedActivity>>)
      modifies this
      ensures eventId.Some? && eventId.value != "" ==>
        !loading && activities == (if listed.Some? then listed.value else old(activities))
      ensures !(eventId.Some? && eventId.value != "") ==> activities == old(activities) && loading == old(loading)
    {
      if eventId.Some? && eventId.value != "" {
        loading := true;
        if listed.Some? {
          activities := listed.value;
        }
        loading := false;
      }
    }

    /** `handleDelete`: after confirmation, deletes through the repository
        (whose failure is `deleteFails`) and drops the activity from the
        list; a declined confirmation or a failure keeps the list. */
    method HandleDelete(activityId: string, confirmed: bool, deleteFails: bool) returns (alert: Option<string>)
      modifies this
      ensures confirmed && !deleteFails ==> activities == WithoutActivity(old(activities), activityId)
      ensures !(confirmed && !deleteFails) ==> activities == old(activities)
      ensures alert.Some? <==> confirmed && deleteFails
      ensures alert.Some? ==> alert.value == "Erro ao excluir atividade"
      ensures loading == old(loading)
    {
      alert := None;
      if confirmed {
        if deleteFails {
          alert := Some("Erro ao excluir atividade");
        } else {
          activities := WithoutActivity(activities, activityId);
        }
      }
    }
  }
}
