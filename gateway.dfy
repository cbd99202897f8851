/** `NotificationGateway`: the registry from user ids to the socket ids
    they joined with. Joining appends a socket id; a disconnect removes
    the first occurrence of the socket id from every list and drops the
    lists it empties. Socket.io rooms and emission are not modelled. */
module Gateway {
  /** `sockets.splice(sockets.indexOf(id), 1)`: the first occurrence of
      `id` removed; the list unchanged when `id` is absent. */
  function RemoveFirst(s: seq<string>, id: string): (r: seq<string>)
    decreases |s|
  {
    if s == [] then []
    else if s[0] == id then s[1..]
    else [s[0]] + RemoveFirst(s[1..], id)
  }

  /** Removing the first occurrence takes exactly one copy of `id` out,
      and changes nothing when there is none. */
  lemma {:induction false} RemoveFirstFacts(s: seq<string>, id: string)
    ensures id !in s ==> RemoveFirst(s, id) == s
    ensures id in s ==> (|RemoveFirst(s, id)| == |s| - 1 &&
      multiset(RemoveFirst(s, id)) + multiset{id} == multiset(s))
    decreases |s|
  {
    if s != [] {
      RemoveFirstFacts(s[1..], id);
      assert s == [s[0]] + s[1..];
    }
  }

  /** `indexOf`: the position of the first `id`. */
  function IndexOf(s: seq<string>, id: string): (k: nat)
    requires id in s
    ensures k < |s| && s[k] == id && id !in s[..k]
    decreases |s|
  {
    if s[0] == id then 0
    else
      assert id in s[1..] by {
        assert s == [s[0]] + s[1..];
      }
      var k := 1 + IndexOf(s[1..], id);
      assert s[..k] == [s[0]] + s[1..][..k - 1];
      k
  }

  /** The copy taken out is the first, and the rest keep their order. */
  lemma {:induction false} RemoveFirstAt(s: seq<string>, id: string)
    requires id in s
    ensures RemoveFirst(s, id) == s[..IndexOf(s, id)] + s[IndexOf(s, id) + 1..]
    decreases |s|
  {
    if s[0] != id {
      assert id in s[1..] by {
        assert s == [s[0]] + s[1..];
      }
      RemoveFirstAt(s[1..], id);
      var k := IndexOf(s[1..], id);
      assert IndexOf(s, id) == k + 1;
      calc {
        RemoveFirst(s, id);
        [s[0]] + (s[1..][..k] + s[1..][k + 1..]);
        { assert [s[0]] + s[1..][..k] == s[..k + 1]; assert s[1..][k + 1..] == s[k + 2..]; }
        s[..k + 1] + s[k + 2..];
      }
    }
  }

  /** Whether a disconnect of `id` keeps user `u`'s entry: it goes only
      when removing `id` empties its list. */
  predicate Keeps(m: map<string, seq<string>>, u: string, id: string)
    requires u in m
  {
    id !in m[u] || RemoveFirst(m[u], id) != []
  }

  /** The registry after a disconnect of `id`. */
  function Disconnected(m: map<string, seq<string>>, id: string): map<string, seq<string>> {
    map u | u in m && Keeps(m, u, id) :: RemoveFirst(m[u], id)
  }

  /** The registry after the disconnect loop has visited the users in
      `done`. */
  function PartlyDisconnected(m: map<string, seq<string>>, id: string, done: set<string>): map<string, seq<string>> {
    map u | u in m && (u !in done || Keeps(m, u, id)) :: if u in done then RemoveFirst(m[u], id) else m[u]
  }

  /** One user visited by the disconnect loop: `id` taken out of its
      list, and the entry deleted when that empties it. */
  function DisconnectUser(cur: map<string, seq<string>>, u: string, id: string): map<string, seq<string>>
    requires u in cur
  {
    if id in cur[u] then
      var rest := RemoveFirst(cur[u], id);
      if rest == [] then cur - {u} else cur[u := rest]
    else cur
  }

  /** Visiting one more user moves the partial registry one step on. */
  lemma PartlyDisconnectedStep(m: map<string, seq<string>>, id: string, done: set<string>, u: string)
    requires u in m && u !in done
    ensures u in PartlyDisconnected(m, id, done)
    ensures PartlyDisconnected(m, id, done + {u}) == DisconnectUser(PartlyDisconnected(m, id, done), u, id)
  {
    var cur := PartlyDisconnected(m, id, done);
    assert cur[u] == m[u];
    if id !in m[u] {
      RemoveFirstFacts(m[u], id);
    }
  }

  predicate NoEmptyLists(m: map<string, seq<string>>) {
    forall u :: u in m ==> m[u] != []
  }

  /** A disconnect never leaves an empty list, leaves the lists without
      `id` untouched, takes one `id` out of each list holding it, and
      removes only users whose list held nothing but that `id`. */
  lemma DisconnectedFacts(m: map<string, seq<string>>, id: string)
    requires NoEmptyLists(m)
    ensures NoEmptyLists(Disconnected(m, id))
    ensures forall u :: u in m && id !in m[u] ==> u in Disconnected(m, id) && Disconnected(m, id)[u] == m[u]
    ensures forall u :: u in Disconnected(m, id) ==> (u in m &&
      multiset(Disconnected(m, id)[u]) + (if id in m[u] then multiset{id} else multiset{}) == multiset(m[u]))
    ensures forall u :: u in m && u !in Disconnected(m, id) ==> m[u] == [id]
  {
    var d := Disconnected(m, id);
    forall u | u in m
      ensures id !in m[u] ==> RemoveFirst(m[u], id) == m[u]
      ensures id in m[u] ==> |RemoveFirst(m[u], id)| == |m[u]| - 1
      ensures id in m[u] ==> multiset(RemoveFirst(m[u], id)) + multiset{id} == multiset(m[u])
    {
      RemoveFirstFacts(m[u], id);
    }
    forall u | u in m && u !in d ensures m[u] == [id] {
      assert id in m[u] && |m[u]| == 1;
      assert m[u][0] == id by {
        assert id in multiset(m[u]);
      }
    }
  }

  /** Joining twice stores the socket id twice. */
  lemma JoinTwice(m: map<string, seq<string>>, userId: string, socketId: string)
    ensures var once := Joined(m, userId, socketId);
      var twice := Joined(once, userId, socketId);
      |twice[userId]| == |once[userId]| + 1 && twice[userId][|twice[userId]| - 2..] == [socketId, socketId]
  {
  }

  /** The registry after `handleJoin`. */
  function Joined(m: map<string, seq<string>>, userId: string, socketId: string): (r: map<string, seq<string>>)
    ensures r.Keys == m.Keys + {userId}
    ensures forall u :: u in m && u != userId ==> r[u] == m[u]
    ensures r[userId] == (if userId in m then m[userId] else []) + [socketId]
  {
    m[userId := (if userId in m then m[userId] else []) + [socketId]]
  }

  class NotificationGateway {
    var userSockets: map<string, seq<string>>

    ghost predicate Valid()
      reads this
    {
      NoEmptyLists(userSockets)
    }

    constructor()
      ensures Valid() && userSockets == map[]
    {
      userSockets := map[];
    }

    /** `handleJoin`. */
    method HandleJoin(socketId: string, userId: string)
      requires Valid()
      modifies this
      ensures Valid()
      ensures userSockets == Joined(old(userSockets), userId, socketId)
    {
      var sockets := if userId in userSockets then userSockets[userId] else [];
      sockets := sockets + [socketId];
      userSockets := userSockets[userId := sockets];
    }

    /** `handleDisconnect`: one pass over the users. */
    method HandleDisconnect(socketId: string)
      requires Valid()
      modifies this
      ensures Valid()
      ensures userSockets == Disconnected(old(userSockets), socketId)
    {
      ghost var m := userSockets;
      var pending := userSockets.Keys;
      ghost var done: set<string> := {};
      while pending != {}
        invariant pending == m.Keys - done && done <= m.Keys
        invariant userSockets == PartlyDisconnected(m, socketId, done)
        decreases pending
      {
        var u :| u in pending;
        PartlyDisconnectedStep(m, socketId, done, u);
        var sockets := userSockets[u];
        if socketId in sockets {
          sockets := RemoveFirst(sockets, socketId);
          if sockets == [] {
            userSockets := userSockets - {u};
          } else {
            userSockets := userSockets[u := sockets];
          }
        }
        done := done + {u};
        pending := pending - {u};
      }
      assert done == m.Keys;
      assert userSockets == Disconnected(m, socketId);
      DisconnectedFacts(m, socketId);
    }
  }
}
