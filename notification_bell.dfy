/** `NotificationBell`: the component's notification list and unread
    counter, changed by the initial fetch, by notifications pushed over
    the socket, and by the two "mark read" actions, which change the
    state only once their API call has succeeded. The badge shows the
    counter. Rendering, toasts and the socket connection are not
    modelled. */
module NotificationBell {
  import opened Common

  datatype Notification = Notification(id: string, title: string, isRead: bool)

  /** `prev.map((n) => (n.id === id ? { ...n, isRead: true } : n))`. */
  function MarkRead(ns: seq<Notification>, id: string): (r: seq<Notification>)
    ensures |r| == |ns|
  {
    seq(|ns|, i requires 0 <= i < |ns| => if ns[i].id == id then ns[i].(isRead := true) else ns[i])
  }

  /** `prev.map((n) => ({ ...n, isRead: true }))`. */
  function AllRead(ns: seq<Notification>): (r: seq<Notification>)
    ensures |r| == |ns|
  {
    seq(|ns|, i requires 0 <= i < |ns| => ns[i].(isRead := true))
  }

  /** `Math.max(0, prev - 1)`. */
  function Decrement(count: int): int {
    if count - 1 > 0 then count - 1 else 0
  }

  /** How many entries are unread. */
  function Unread(ns: seq<Notification>): nat
    decreases |ns|
  {
    if ns == [] then 0 else (if ns[0].isRead then 0 else 1) + Unread(ns[1..])
  }

  /** The badge over the bell: none at zero, the number up to nine, and
      `9+` beyond. */
  function Badge(count: int): Option<string> {
    if count > 0 then Some(if count > 9 then "9+" else NatToString(count)) else None
  }

  /** The badge is hidden exactly when the counter is not positive, shows
      `9+` exactly above nine, and otherwise the single digit of the
      count. */
  lemma BadgeFacts(count: int)
    ensures Badge(count).None? <==> count <= 0
    ensures Badge(count) == Some("9+") <==> count > 9
    ensures 1 <= count <= 9 ==> Badge(count) == Some([DigitChar(count)])
  {
    if 1 <= count <= 9 {
      assert NatToString(count) == [DigitChar(count)];
      assert NatToString(count) != "9+";
    }
  }

  /** Marking one id read touches only the entries with that id, and
      leaves their order, ids and titles as they were. */
  lemma MarkReadFacts(ns: seq<Notification>, id: string)
    ensures forall i :: 0 <= i < |ns| && ns[i].id != id ==> MarkRead(ns, id)[i] == ns[i]
    ensures forall i :: 0 <= i < |ns| && ns[i].id == id ==> MarkRead(ns, id)[i] == ns[i].(isRead := true)
    ensures forall i :: 0 <= i < |ns| ==> MarkRead(ns, id)[i].isRead ==> (ns[i].isRead || ns[i].id == id)
  {
  }

  lemma {:induction false} UnreadAllRead(ns: seq<Notification>)
    ensures Unread(AllRead(ns)) == 0
    decreases |ns|
  {
    if ns != [] {
      assert AllRead(ns)[1..] == AllRead(ns[1..]);
      UnreadAllRead(ns[1..]);
    }
  }

  /** Marking one unread entry read lowers the number of unread entries
      by one when the ids are distinct. */
  lemma {:induction false} UnreadMarkRead(ns: seq<Notification>, k: nat)
    requires k < |ns| && !ns[k].isRead
    requires forall i :: 0 <= i < |ns| && i != k ==> ns[i].id != ns[k].id
    ensures Unread(MarkRead(ns, ns[k].id)) + 1 == Unread(ns)
    decreases |ns|
  {
    var id := ns[k].id;
    assert MarkRead(ns, id)[1..] == MarkRead(ns[1..], id);
    if k > 0 {
      UnreadMarkRead(ns[1..], k - 1);
    } else {
      UnreadMarkReadAbsent(ns[1..], id);
    }
  }

  /** Marking an id read that no entry has changes nothing. */
  lemma UnreadMarkReadAbsent(ns: seq<Notification>, id: string)
    requires forall i :: 0 <= i < |ns| ==> ns[i].id != id
    ensures MarkRead(ns, id) == ns
  {
  }

  /** The counter is only decremented, never recounted: marking an entry
      that is already read still lowers it, so afterwards it can be
      below the number of unread entries. */
  lemma MarkReadOfReadEntry(ns: seq<Notification>)
    requires |ns| == 2 && ns[0].isRead && !ns[1].isRead && ns[0].id != ns[1].id
    ensures Unread(ns) == 1 && Unread(MarkRead(ns, ns[0].id)) == 1
    ensures Decrement(Unread(ns)) == 0
  {
    assert MarkRead(ns, ns[0].id) == ns;
    assert ns[1..][1..] == [];
    assert Unread(ns[1..]) == 1;
  }

  class Bell {
    var notifications: seq<Notification>
    var unreadCount: int
    var loading: bool

    ghost predicate Valid()
      reads this
    {
      unreadCount >= 0
    }

    constructor()
      ensures Valid() && notifications == [] && unreadCount == 0 && loading
    {
      notifications := [];
      unreadCount := 0;
      loading := true;
    }

    /** `fetchNotifications`: on success the list and the server's count
        replace the state; either way loading ends. */
    method Fetch(response: Option<(seq<Notification>, nat)>)
      requires Valid()
      modifies this
      ensures Valid() && !loading
      ensures response.Some? ==> notifications == response.value.0 && unreadCount == response.value.1
      ensures response.None? ==> notifications == old(notifications) && unreadCount == old(unreadCount)
    {
      if response.Some? {
        notifications := response.value.0;
        unreadCount := response.value.1;
      }
      loading := false;
    }

    /** A `notification:new` event: the newest goes first and the
        counter goes up by one. */
    method OnNew(n: Notification)
      requires Valid()
      modifies this
      ensures Valid() && loading == old(loading)
      ensures notifications == [n] + old(notifications) && unreadCount == old(unreadCount) + 1
    {
      notifications := [n] + notifications;
      unreadCount := unreadCount + 1;
    }

    /** `markAsRead`: after a successful call the entries with that id
        are read and the counter drops by one, but not below zero. */
    method MarkAsRead(id: string, callSucceeded: bool)
      requires Valid()
      modifies this
      ensures Valid() && loading == old(loading)
      ensures callSucceeded ==> (notifications == MarkRead(old(notifications), id) &&
        unreadCount == Decrement(old(unreadCount)))
      ensures !callSucceeded ==> notifications == old(notifications) && unreadCount == old(unreadCount)
    {
      if callSucceeded {
        notifications := MarkRead(notifications, id);
        unreadCount := Decrement(unreadCount);
      }
    }

    /** `markAllAsRead`: after a successful call every entry is read and
        the counter is zero. */
    method MarkAllAsRead(callSucceeded: bool)
      requires Valid()
      modifies this
      ensures Valid() && loading == old(loading)
      ensures callSucceeded ==> notifications == AllRead(old(notifications)) && unreadCount == 0
      ensures !callSucceeded ==> notifications == old(notifications) && unreadCount == old(unreadCount)
    {
      if callSucceeded {
        notifications := AllRead(notifications);
        unreadCount := 0;
      }
    }
  }

  /** When the counter matches the unread entries, it keeps matching
      through a new unread notification, through marking an unread entry
      with a unique id, and through marking all. */
  lemma CounterTracksUnread(ns: seq<Notification>, count: int, n: Notification, k: nat)
    requires count == Unread(ns)
    ensures !n.isRead ==> count + 1 == Unread([n] + ns)
    ensures k < |ns| && !ns[k].isRead && (forall i :: 0 <= i < |ns| && i != k ==> ns[i].id != ns[k].id) ==>
      Decrement(count) == Unread(MarkRead(ns, ns[k].id))
    ensures Unread(AllRead(ns)) == 0
  {
    assert ([n] + ns)[1..] == ns;
    if k < |ns| && !ns[k].isRead && (forall i :: 0 <= i < |ns| && i != k ==> ns[i].id != ns[k].id) {
      UnreadMarkRead(ns, k);
    }
    UnreadAllRead(ns);
  }
}
