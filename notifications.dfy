/** The notification centre: the list of notifications held by the provider,
    its unread count, and the four operations that replace the list. */
module Notifications {
  import opened Js
  import opened Text
  import Seqs

  /** The user id every new notification is given. */
  const MockUserId: string := "user001"

  datatype Notification = Notification(
    id: string,
    userId: Option<string>,
    titulo: string,
    mensagem: string,
    tipo: string,
    lida: bool,
    createdAt: int,
    referenciaId: Option<string>)

  /** What a caller supplies: everything but the id, the user, the read flag
      and the creation time. */
  datatype NotificationData = NotificationData(titulo: string, mensagem: string, tipo: string, referenciaId: Option<string>)

  predicate IsUnread(n: Notification) {
    !n.lida
  }

  /** `notifications.filter(n => !n.lida).length`. */
  function UnreadCount(ns: seq<Notification>): (c: nat)
    ensures c <= |ns|
  {
    Seqs.Count(ns, IsUnread)
  }

  /** The count is the number of unread entries: the length of the list of
      unread ones, and zero exactly when every entry is read. */
  lemma {:induction false} UnreadCountMeaning(ns: seq<Notification>)
    ensures UnreadCount(ns) == |Seqs.Filter(ns, IsUnread)|
    ensures UnreadCount(ns) == 0 <==> forall i :: 0 <= i < |ns| ==> ns[i].lida
  {
    Seqs.CountIsFilterLength(ns, IsUnread);
    if ns != [] {
      UnreadCountMeaning(ns[1..]);
      assert forall i :: 1 <= i < |ns| ==> ns[1..][i - 1] == ns[i];
    }
  }

  /** The entry `addNotification` builds at time `now` (`Date.now()`). */
  function NewNotification(data: NotificationData, now: nat): (n: Notification)
    ensures !n.lida && n.userId == Some(MockUserId)
    ensures StartsWith(n.id, "notif") && n.createdAt == now
    ensures n.titulo == data.titulo && n.mensagem == data.mensagem && n.tipo == data.tipo
    ensures n.referenciaId == data.referenciaId
  {
    Notification("notif" + NatToString(now), Some(MockUserId), data.titulo, data.mensagem, data.tipo,
                 false, now, data.referenciaId)
  }

  /** Prepending an unread entry raises the unread count by one. */
  lemma PrependUnread(n: Notification, ns: seq<Notification>)
    requires !n.lida
    ensures UnreadCount([n] + ns) == UnreadCount(ns) + 1
  {
    assert ([n] + ns)[1..] == ns;
  }

  /** `markAsRead(id)`: every entry with that id is read, the others as they
      were. */
  function MarkRead(ns: seq<Notification>, id: string): (r: seq<Notification>)
    ensures |r| == |ns|
    ensures forall i :: 0 <= i < |ns| ==> r[i] == if ns[i].id == id then ns[i].(lida := true) else ns[i]
  {
    seq(|ns|, i requires 0 <= i < |ns| => if ns[i].id == id then ns[i].(lida := true) else ns[i])
  }

  /** `markAllAsRead`: every entry read. */
  function MarkAllRead(ns: seq<Notification>): (r: seq<Notification>)
    ensures |r| == |ns|
    ensures forall i :: 0 <= i < |ns| ==> r[i] == ns[i].(lida := true)
  {
    seq(|ns|, i requires 0 <= i < |ns| => ns[i].(lida := true))
  }

  /** `n.id !== id`. */
  predicate HasOtherId(id: string, n: Notification) {
    n.id != id
  }

  /** `deleteNotification(id)`: the list without the entries with that id,
      in order. */
  function Delete(ns: seq<Notification>, id: string): (r: seq<Notification>)
    ensures |r| <= |ns|
    ensures forall n :: n in r <==> n in ns && n.id != id
  {
    Seqs.Filter(ns, (n: Notification) => HasOtherId(id, n))
  }

  /** Marking one id read is idempotent and never raises the unread count. */
  lemma {:induction false} MarkReadLowersCount(ns: seq<Notification>, id: string)
    ensures MarkRead(MarkRead(ns, id), id) == MarkRead(ns, id)
    ensures UnreadCount(MarkRead(ns, id)) <= UnreadCount(ns)
  {
    if ns != [] {
      MarkReadLowersCount(ns[1..], id);
      assert MarkRead(ns, id)[1..] == MarkRead(ns[1..], id);
    }
  }

  /** Marking everything read leaves no unread entry, and doing it twice is
      the same as once. */
  lemma {:induction false} MarkAllReadClearsCount(ns: seq<Notification>)
    ensures UnreadCount(MarkAllRead(ns)) == 0
    ensures MarkAllRead(MarkAllRead(ns)) == MarkAllRead(ns)
  {
    if ns != [] {
      MarkAllReadClearsCount(ns[1..]);
      assert MarkAllRead(ns)[1..] == MarkAllRead(ns[1..]);
    }
  }

  /** Deleting an id no entry carries changes nothing; deleting never raises
      the unread count. */
  lemma {:induction false} DeleteFacts(ns: seq<Notification>, id: string)
    ensures (forall i :: 0 <= i < |ns| ==> ns[i].id != id) ==> Delete(ns, id) == ns
    ensures UnreadCount(Delete(ns, id)) <= UnreadCount(ns)
  {
    if ns != [] {
      DeleteFacts(ns[1..], id);
      assert forall i :: 1 <= i < |ns| ==> ns[1..][i - 1] == ns[i];
      var r := Delete(ns[1..], id);
      if HasOtherId(id, ns[0]) {
        assert Delete(ns, id) == [ns[0]] + r;
        assert ([ns[0]] + r)[1..] == r;
      } else {
        assert Delete(ns, id) == r;
      }
    }
  }

  /** The provider's state. */
  class NotificationCenter {
    var notifications: seq<Notification>

    constructor (initial: seq<Notification>)
      ensures notifications == initial
    {
      notifications := initial;
    }

    function Unread(): (c: nat)
      reads this
      ensures c <= |notifications|
    {
      UnreadCount(notifications)
    }

    /** `addNotification`: the new entry goes first. */
    method Add(data: NotificationData, now: nat)
      modifies this
      ensures notifications == [NewNotification(data, now)] + old(notifications)
      ensures Unread() == old(Unread()) + 1
    {
      PrependUnread(NewNotification(data, now), notifications);
      notifications := [NewNotification(data, now)] + notifications;
    }

    method MarkAsRead(id: string)
      modifies this
      ensures notifications == MarkRead(old(notifications), id)
      ensures Unread() <= old(Unread())
    {
      MarkReadLowersCount(notifications, id);
      notifications := MarkRead(notifications, id);
    }

    method MarkAllAsRead()
      modifies this
      ensures notifications == MarkAllRead(old(notifications))
      ensures Unread() == 0
    {
      MarkAllReadClearsCount(notifications);
      notifications := MarkAllRead(notifications);
    }

    method DeleteNotification(id: string)
      modifies this
      ensures notifications == Delete(old(notifications), id)
      ensures Unread() <= old(Unread())
    {
      DeleteFacts(notifications, id);
      notifications := Delete(notifications, id);
    }
  }
}
