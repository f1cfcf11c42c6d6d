/** The attendance page of an activity: the confirmed participants of the
    event with their presence flag, toggled one at a time, and a search by
    name. */
module MarkPresence {
  import opened Js
  import opened Text
  import Seqs

  const UnnamedParticipant: string := "Usuário sem nome"

  /** A row of the participant list. */
  datatype Participant = Participant(id: string, fullName: string, email: string, present: bool)

  /** A confirmed registration with its joined profile name. */
  datatype RegistrationJoin = RegistrationJoin(userId: string, profileName: Option<string>)

  /** A row of `presencas` for the activity. */
  datatype PresenceRow = PresenceRow(userId: string, presente: bool)

  /** `new Map(presences.map(p => [p.user_id, p.presente]))`: the later of
      two rows for one user wins. */
  function PresenceMap(rows: seq<PresenceRow>): (m: map<string, bool>)
    ensures forall u :: u in m <==> exists i :: 0 <= i < |rows| && rows[i].userId == u
  {
    if rows == [] then map[]
    else
      var init := rows[..|rows| - 1];
      var last := rows[|rows| - 1];
      var m := PresenceMap(init)[last.userId := last.presente];
      assert forall i :: 0 <= i < |init| ==> init[i] == rows[i];
      m
  }

  /** A user's flag is the one of the last row naming them. */
  lemma {:induction false} PresenceMapLastWins(rows: seq<PresenceRow>, k: int)
    requires 0 <= k < |rows|
    requires forall i :: k < i < |rows| ==> rows[i].userId != rows[k].userId
    ensures PresenceMap(rows)[rows[k].userId] == rows[k].presente
  {
    if k < |rows| - 1 {
      var init := rows[..|rows| - 1];
      assert forall i :: k < i < |init| ==> init[i] == rows[i];
      PresenceMapLastWins(init, k);
    }
  }

  /** The row shown for a registration: its profile name or a placeholder,
      no e-mail, and present only when a presence row says so. */
  function ParticipantOf(reg: RegistrationJoin, presence: map<string, bool>): (p: Participant)
    ensures p.id == reg.userId && p.email == ""
    ensures p.fullName == (if reg.profileName.Some? && reg.profileName.value != "" then reg.profileName.value else UnnamedParticipant)
    ensures p.present <==> reg.userId in presence && presence[reg.userId]
  {
    Participant(reg.userId, StrOr(reg.profileName, UnnamedParticipant), "",
                reg.userId in presence && presence[reg.userId])
  }

  /** The participant list, one row per registration, in order. */
  function Participants(regs: seq<RegistrationJoin>, presences: Option<seq<PresenceRow>>): (ps: seq<Participant>)
    ensures |ps| == |regs|
    ensures forall i :: 0 <= i < |regs| ==> ps[i] == ParticipantOf(regs[i], PresenceMap(if presences.Some? then presences.value else []))
  {
    var m := PresenceMap(if presences.Some? then presences.value else []);
    seq(|regs|, i requires 0 <= i < |regs| => ParticipantOf(regs[i], m))
  }

  /** Without a presence row, a participant is absent. */
  lemma AbsentByDefault(regs: seq<RegistrationJoin>, presences: Option<seq<PresenceRow>>, i: int)
    requires 0 <= i < |regs|
    requires presences.None? || forall j :: 0 <= j < |presences.value| ==> presences.value[j].userId != regs[i].userId
    ensures !Participants(regs, presences)[i].present
  {
  }

  /** The list after a successful toggle: every row of `userId` takes the
      new flag. */
  function WithPresence(ps: seq<Participant>, userId: string, present: bool): (r: seq<Participant>)
    ensures |r| == |ps|
    ensures forall i :: 0 <= i < |ps| && ps[i].id != userId ==> r[i] == ps[i]
    ensures forall i :: 0 <= i < |ps| && ps[i].id == userId ==> r[i] == ps[i].(present := present)
  {
    seq(|ps|, i requires 0 <= i < |ps| => if ps[i].id == userId then ps[i].(present := present) else ps[i])
  }

  /** Toggling a participant twice restores the list. */
  lemma ToggleTwiceRestores(ps: seq<Participant>, userId: string, current: bool)
    requires forall i :: 0 <= i < |ps| && ps[i].id == userId ==> ps[i].present == current
    ensures WithPresence(WithPresence(ps, userId, !current), userId, current) == ps
  {
    var r := WithPresence(WithPresence(ps, userId, !current), userId, current);
    assert forall i :: 0 <= i < |ps| ==> r[i] == ps[i];
  }

  /** `p.full_name.toLowerCase().includes(term.toLowerCase())`. */
  predicate NameMatches(term: string, p: Participant) {
    Includes(Lower(p.fullName), Lower(term))
  }

  /** The rows whose lower-cased name contains `lowered`, in list order. */
  function FilterLowered(ps: seq<Participant>, lowered: string): (r: seq<Participant>)
    ensures |r| <= |ps|
    ensures forall p :: p in r <==> p in ps && Includes(Lower(p.fullName), lowered)
  {
    Seqs.Filter(ps, (p: Participant) => Includes(Lower(p.fullName), lowered))
  }

  /** The rows shown for a search term, in list order. */
  function FilterByName(ps: seq<Participant>, term: string): (r: seq<Participant>)
    ensures |r| <= |ps|
    ensures forall p :: p in r <==> p in ps && NameMatches(term, p)
  {
    FilterLowered(ps, Lower(term))
  }

  /** An empty search shows everyone, in order. */
  lemma EmptySearchShowsAll(ps: seq<Participant>)
    ensures FilterByName(ps, "") == ps
  {
    forall i | 0 <= i < |ps| ensures Includes(Lower(ps[i].fullName), Lower("")) {
      IncludesEmpty(Lower(ps[i].fullName));
    }
    Seqs.FilterAll(ps, (p: Participant) => Includes(Lower(p.fullName), Lower("")));
  }

  /** The search ignores ASCII case: a name matches whether or not the term
      is typed in capitals. */
  lemma SearchIgnoresCase(ps: seq<Participant>, term: string)
    ensures FilterByName(ps, Upper(term)) == FilterByName(ps, term)
  {
    LowerUpper(term);
  }

  lemma LowerUpper(s: string)
    ensures Lower(Upper(s)) == Lower(s)
  {
    var a, b := Lower(Upper(s)), Lower(s);
    forall i | 0 <= i < |s| ensures a[i] == b[i] {
      assert Upper(s)[i] == UpperChar(s[i]);
    }
  }

  /** The `presencas` table, keyed by its conflict target
      (`activity_id`, `user_id`). */
  class PresenceTable {
    var rows: map<(string, string), bool>

    constructor (initial: map<(string, string), bool>)
      ensures rows == initial
    {
      rows := initial;
    }

    /** `upsert(..., { onConflict: 'activity_id,user_id' })`. */
    method Upsert(activityId: string, userId: string, presente: bool)
      modifies this
      ensures rows == old(rows)[(activityId, userId) := presente]
    {
      rows := rows[(activityId, userId) := presente];
    }
  }

  /** The page's state. */
  class PresencePage {
    const activityId: string
    var participants: seq<Participant>
    var loading: bool
    var searchTerm: string

    constructor (activityId: string)
      ensures this.activityId == activityId
      ensures participants == [] && loading && searchTerm == ""
    {
      this.activityId := activityId;
      participants := [];
      loading := true;
      searchTerm := "";
    }

    /** The loading effect: with both route ids it lists the confirmed
        registrations (`None` when the query fails) and the activity's
        presence rows; without them the page stays loading. */
    method Load(hasRouteIds: bool, regs: Option<seq<RegistrationJoin>>, presences: Option<seq<PresenceRow>>)
      modifies this
      ensures !hasRouteIds ==> participants == old(participants) && loading == old(loading)
      ensures hasRouteIds ==> !loading
      ensures hasRouteIds && regs.Some? ==> participants == Participants(regs.value, presences)
      ensures hasRouteIds && regs.None? ==> participants == old(participants)
      ensures searchTerm == old(searchTerm)
    {
      if !hasRouteIds {
        return;
      }
      if regs.Some? {
        participants := Participants(regs.value, presences);
      }
      loading := false;
    }

    /** `togglePresence`: writes the flipped flag, then shows it; a failed
        write changes neither the table nor the list. */
    method TogglePresence(table: PresenceTable, userId: string, currentStatus: bool, upsertFails: bool)
      returns (alert: Option<string>)
      modifies this, table
      ensures upsertFails ==>
        (table.rows == old(table.rows) && participants == old(participants)
         && alert == Some("Erro ao atualizar presença."))
      ensures !upsertFails ==>
        (table.rows == old(table.rows)[(activityId, userId) := !currentStatus]
         && participants == WithPresence(old(participants), userId, !currentStatus) && alert.None?)
      ensures loading == old(loading) && searchTerm == old(searchTerm)
    {
      var newStatus := !currentStatus;
      if upsertFails {
        return Some("Erro ao atualizar presença.");
      }
      table.Upsert(activityId, userId, newStatus);
      participants := WithPresence(participants, userId, newStatus);
      return None;
    }

    /** The rows on screen. */
    function Visible(): (r: seq<Participant>)
      reads this
      ensures forall p :: p in r <==> p in participants && NameMatches(searchTerm, p)
    {
      FilterByName(participants, searchTerm)
    }
  }
}
