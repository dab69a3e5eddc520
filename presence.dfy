/**
 * The values the socket server keeps and sends: the per-socket registry entry,
 * the client payloads it reads, the events it emits, and the pure functions
 * that say which sockets a fan-out reaches.
 */
module Presence {
  import opened Wrappers
  import opened Sequences
  import opened OrderedMap

  /** A socket.io connection id; never empty, so a set admin slot is always truthy. */
  type SocketId = s: string | s != "" witness "0"

  /** One value of `activeUsers`: a customer or an admin-flagged connection. */
  datatype Entry = Entry(
    userId: string,
    name: string,
    email: Option<string>,
    contact: Option<string>,
    socketId: SocketId,
    isAdmin: bool)

  /** `activeUsers`: socket id to entry, in insertion order. */
  type Registry = OMap<SocketId, Entry>

  /** The `userData` a customer sends with `user_connect`; absent fields are `None`. */
  datatype UserData = UserData(
    userId: Option<string>,
    name: Option<string>,
    email: Option<string>,
    contact: Option<string>)

  /** The `{ userId, message }` payload of `admin_message`. */
  datatype DirectMessage = DirectMessage(userId: string, message: string)

  /** One element of the `users` list the admin receives on connecting. */
  datatype UserSummary = UserSummary(userId: SocketId, name: string, socketId: SocketId)

  /** The events the server emits, with their payloads (timestamps left out). */
  datatype Event =
    | UserConnected(userId: SocketId, name: string)
    | Connected(message: string, userId: SocketId)
    | AdminStatus(online: bool)
    | AdminConnected(message: string, users: seq<UserSummary>, totalUsers: int)
    | NewMessage(from: string, userId: SocketId, message: string, kind: string)
    | MessageSent(success: bool, message: string)
    | Error(message: string)
    | AdminReply(from: string, message: string, kind: string)
    | MessageDelivered(to: string, message: string)
    | BroadcastSent(recipients: int, message: string)
    | UserDisconnected(userId: SocketId, name: string)

  /** `io.to(to).emit(event)`: one event addressed to one socket. */
  datatype Emit = Emit(to: SocketId, event: Event)

  const WelcomeText := "Connected to support. An admin will assist you shortly."
  const AdminWelcomeText := "Admin connected successfully"
  const UserNotFoundText := "User not found"

  /** JavaScript `value || fallback` on a string field: absent and `""` are falsy. */
  function Or(value: Option<string>, fallback: string): string {
    if value.Some? && value.value != "" then value.value else fallback
  }

  /** `User-` followed by the first five characters of the socket id. */
  function DefaultName(sid: SocketId): (r: string)
    ensures |r| == 5 + (if |sid| < 5 then |sid| else 5)
    ensures r[..5] == "User-" && r[5..] <= sid
  {
    "User-" + (if |sid| < 5 then sid else sid[..5])
  }

  /**
   * The entry `user_connect` stores for socket `sid`: a customer entry whose
   * missing or empty `userId` and `name` fall back to the socket id and the
   * `User-` name, with e-mail and contact as sent.
   */
  function UserEntry(sid: SocketId, data: UserData): (e: Entry)
    ensures e.userId == (if data.userId.None? || data.userId.value == "" then sid else data.userId.value)
    ensures e.name == (if data.name.None? || data.name.value == "" then DefaultName(sid) else data.name.value)
    ensures e.email == data.email && e.contact == data.contact
    ensures e.socketId == sid && !e.isAdmin
  {
    Entry(Or(data.userId, sid), Or(data.name, DefaultName(sid)), data.email, data.contact, sid, false)
  }

  /**
   * The entry `admin_connect` stores for socket `sid`: admin-flagged, user id
   * `admin`, named as sent or `Admin` when the name is missing or empty.
   */
  function AdminEntry(sid: SocketId, name: Option<string>): (e: Entry)
    ensures e.userId == "admin" && e.socketId == sid && e.isAdmin
    ensures e.name == (if name.None? || name.value == "" then "Admin" else name.value)
    ensures e.email.None? && e.contact.None?
  {
    Entry("admin", Or(name, "Admin"), None, None, sid, true)
  }

  /** Does the socket id name an entry, and is that entry admin-flagged? */
  predicate IsAdminEntry(m: Registry, id: SocketId) {
    var e := Get(m, id); e.Some? && e.value.isAdmin
  }

  predicate IsUserEntry(m: Registry, id: SocketId) {
    var e := Get(m, id); e.Some? && !e.value.isAdmin
  }

  /** The keys a `forEach` that skips admin-flagged entries visits, in map order. */
  function NonAdminSockets(m: Registry): seq<SocketId>
    decreases |m|
  {
    if m == [] then []
    else (if m[0].1.isAdmin then [] else [m[0].0]) + NonAdminSockets(m[1..])
  }

  /** The admin's snapshot of connected customers (server.js, `users.push`). */
  function Snapshot(m: Registry): seq<UserSummary>
    decreases |m|
  {
    if m == [] then []
    else
      (if m[0].1.isAdmin then [] else [UserSummary(m[0].0, m[0].1.name, m[0].0)])
      + Snapshot(m[1..])
  }

  /** How many entries are admin-flagged. */
  function AdminCount(m: Registry): nat
    decreases |m|
  {
    if m == [] then 0 else (if m[0].1.isAdmin then 1 else 0) + AdminCount(m[1..])
  }

  /** The same event sent to each socket of `ids`, in order. */
  function Fanout(ids: seq<SocketId>, ev: Event): (r: seq<Emit>)
    ensures |r| == |ids| && forall i :: 0 <= i < |ids| ==> r[i] == Emit(ids[i], ev)
  {
    seq(|ids|, i requires 0 <= i < |ids| => Emit(ids[i], ev))
  }

  /** One message to the admin slot if it is set, nothing otherwise. */
  function ToSlot(slot: Option<SocketId>, ev: Event): (r: seq<Emit>)
    ensures slot.None? ==> r == []
    ensures slot.Some? ==> r == [Emit(slot.value, ev)]
  {
    if slot.Some? then [Emit(slot.value, ev)] else []
  }

  // ---------------------------------------------------------------------------
  // What the fan-outs reach

  /** A fan-out reaches exactly the non-admin entries of the map. */
  lemma {:induction false} NonAdminSocketsMembers(m: Registry, x: SocketId)
    requires DistinctKeys(m)
    ensures x in NonAdminSockets(m) <==> IsUserEntry(m, x)
    decreases |m|
  {
    if m != [] {
      assert DistinctKeys(m[1..]);
      NonAdminSocketsMembers(m[1..], x);
      assert Keys(m) == [m[0].0] + Keys(m[1..]);
      if x == m[0].0 {
        NonAdminSocketsKeys(m[1..]);
      }
    }
  }

  /** ... in the map's insertion order. */
  lemma {:induction false} NonAdminSocketsKeys(m: Registry)
    ensures Subsequence(NonAdminSockets(m), Keys(m))
    decreases |m|
  {
    if m != [] {
      NonAdminSocketsKeys(m[1..]);
      assert Keys(m) == [m[0].0] + Keys(m[1..]);
      if m[0].1.isAdmin {
        assert NonAdminSockets(m) == NonAdminSockets(m[1..]);
        SubsequenceWeaken(NonAdminSockets(m[1..]), Keys(m[1..]), m[0].0);
      } else {
        assert NonAdminSockets(m)[1..] == NonAdminSockets(m[1..]);
      }
    }
  }

  /** Each entry is either a fan-out target or admin-flagged. */
  lemma {:induction false} CountSplit(m: Registry)
    ensures |NonAdminSockets(m)| + AdminCount(m) == |m|
    decreases |m|
  {
    if m != [] {
      CountSplit(m[1..]);
    }
  }

  /**
   * `admin_broadcast` reports `activeUsers.size - 1` recipients; that is the
   * number of `admin_reply` deliveries exactly when one entry is admin-flagged.
   */
  lemma BroadcastCountExact(m: Registry)
    ensures |m| - 1 == |NonAdminSockets(m)| <==> AdminCount(m) == 1
  {
    CountSplit(m);
  }

  /** The snapshot lists the fan-out targets, one summary per socket, with its name. */
  lemma {:induction false} SnapshotMatches(m: Registry)
    ensures |Snapshot(m)| == |NonAdminSockets(m)|
    ensures forall i :: 0 <= i < |Snapshot(m)| ==>
      Snapshot(m)[i].userId == NonAdminSockets(m)[i] == Snapshot(m)[i].socketId
    ensures forall s :: s in Snapshot(m) ==> exists i :: 0 <= i < |m| && m[i].0 == s.userId && m[i].1.name == s.name && !m[i].1.isAdmin
    decreases |m|
  {
    if m != [] {
      SnapshotMatches(m[1..]);
      var head := if m[0].1.isAdmin then [] else [UserSummary(m[0].0, m[0].1.name, m[0].0)];
      assert Snapshot(m) == head + Snapshot(m[1..]);
      forall s | s in Snapshot(m)
        ensures exists i :: 0 <= i < |m| && m[i].0 == s.userId && m[i].1.name == s.name && !m[i].1.isAdmin
      {
        if s !in head {
          var i :| 0 <= i < |m[1..]| && m[1..][i].0 == s.userId && m[1..][i].1.name == s.name && !m[1..][i].1.isAdmin;
          assert m[i + 1] == m[1..][i];
        }
      }
    }
  }

  /** Fan-outs over consecutive parts of the map concatenate. */
  lemma {:induction false} NonAdminSocketsAppend(m: Registry, p: (SocketId, Entry))
    ensures NonAdminSockets(m + [p]) == NonAdminSockets(m) + (if p.1.isAdmin then [] else [p.0])
    decreases |m|
  {
    if m != [] {
      NonAdminSocketsAppend(m[1..], p);
      assert (m + [p])[1..] == m[1..] + [p];
    } else {
      assert NonAdminSockets([p]) == (if p.1.isAdmin then [] else [p.0]) + NonAdminSockets([]);
    }
  }

  lemma {:induction false} SnapshotAppend(m: Registry, p: (SocketId, Entry))
    ensures Snapshot(m + [p]) == Snapshot(m) + (if p.1.isAdmin then [] else [UserSummary(p.0, p.1.name, p.0)])
    decreases |m|
  {
    if m != [] {
      SnapshotAppend(m[1..], p);
      assert (m + [p])[1..] == m[1..] + [p];
    } else {
      assert Snapshot([p]) == (if p.1.isAdmin then [] else [UserSummary(p.0, p.1.name, p.0)]) + Snapshot([]);
    }
  }

  lemma FanoutAppend(a: seq<SocketId>, b: seq<SocketId>, ev: Event)
    ensures Fanout(a + b, ev) == Fanout(a, ev) + Fanout(b, ev)
  {
  }

  /** Removing an admin-flagged entry leaves the fan-out targets as they were. */
  lemma {:induction false} DeleteAdminKeepsTargets(m: Registry, k: SocketId)
    requires DistinctKeys(m) && IsAdminEntry(m, k)
    ensures NonAdminSockets(Delete(m, k)) == NonAdminSockets(m)
    decreases |m|
  {
    if m != [] {
      assert DistinctKeys(m[1..]);
      if m[0].0 == k {
        assert m[0].1.isAdmin;
        assert Delete(m[1..], k) == m[1..];
      } else {
        assert Get(m, k) == Get(m[1..], k);
        DeleteAdminKeepsTargets(m[1..], k);
        assert Delete(m, k) == [m[0]] + Delete(m[1..], k);
        assert Delete(m, k)[1..] == Delete(m[1..], k);
      }
    }
  }
}
