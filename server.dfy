/**
 * The socket server's in-memory state and its six event handlers
 * (backend/server.js). Each handler runs to completion in one event-loop turn,
 * so each is one method; `io.to(id).emit(...)` appends to `outbox`.
 */
module Server {
  import opened Wrappers
  import opened OrderedMap
  import opened Presence

  /** One socket event reaching the server, with its payload. */
  datatype Request =
    | UserConnectReq(sid: SocketId, data: UserData, persisted: bool)
    | AdminConnectReq(sid: SocketId, name: Option<string>)
    | UserMessageReq(sid: SocketId, message: Option<string>)
    | AdminMessageReq(sid: SocketId, direct: Option<DirectMessage>)
    | AdminBroadcastReq(sid: SocketId, message: Option<string>)
    | DisconnectReq(sid: SocketId)

  /** Does some `admin_connect` of `trace` come from socket `sid`? */
  predicate AdminConnectsFrom(trace: seq<Request>, sid: SocketId) {
    exists j :: 0 <= j < |trace| && trace[j].AdminConnectReq? && trace[j].sid == sid
  }

  /**
   * No socket of `trace` announces itself both as a customer and as the
   * admin, and the socket holding the admin slot beforehand does not
   * announce itself as a customer.
   */
  predicate RolesKeptApart(trace: seq<Request>, slot: Option<SocketId>) {
    forall i :: 0 <= i < |trace| && trace[i].UserConnectReq? ==>
      !AdminConnectsFrom(trace, trace[i].sid) && slot != Some(trace[i].sid)
  }

  class ChatServer {
    /** `activeUsers`: socket id to entry, in insertion order. */
    var activeUsers: Registry
    /** `adminSocket`: the single admin slot. */
    var adminSocket: Option<SocketId>
    /** Every event emitted so far, oldest first. */
    var outbox: seq<Emit>

    /** A JavaScript `Map` never holds a key twice. */
    ghost predicate Valid()
      reads this
    {
      DistinctKeys(activeUsers)
    }

    /** When the admin slot is set, it names an admin-flagged entry of the map. */
    ghost predicate SlotHeldByAdmin()
      reads this
    {
      adminSocket.Some? ==> IsAdminEntry(activeUsers, adminSocket.value)
    }

    constructor ()
      ensures Valid() && SlotHeldByAdmin()
      ensures activeUsers == [] && adminSocket == None && outbox == []
    {
      activeUsers := [];
      adminSocket := None;
      outbox := [];
    }

    /**
     * `activeUsers.forEach` emitting `ev` to every entry that is not
     * admin-flagged, in map order.
     */
    method NotifyUsers(ev: Event)
      modifies this`outbox
      ensures outbox == old(outbox) + Fanout(NonAdminSockets(activeUsers), ev)
    {
      var i := 0;
      while i < |activeUsers|
        invariant 0 <= i <= |activeUsers|
        invariant outbox == old(outbox) + Fanout(NonAdminSockets(activeUsers[..i]), ev)
      {
        var (id, user) := activeUsers[i];
        NonAdminSocketsAppend(activeUsers[..i], (id, user));
        FanoutAppend(NonAdminSockets(activeUsers[..i]), if user.isAdmin then [] else [id], ev);
        assert activeUsers[..i + 1] == activeUsers[..i] + [(id, user)];
        if !user.isAdmin {
          outbox := outbox + [Emit(id, ev)];
        }
        i := i + 1;
      }
      assert activeUsers[..i] == activeUsers;
    }

    /** The `users` list the admin receives: every entry not admin-flagged, in map order. */
    method CollectUsers() returns (users: seq<UserSummary>)
      ensures users == Snapshot(activeUsers)
    {
      users := [];
      var i := 0;
      while i < |activeUsers|
        invariant 0 <= i <= |activeUsers|
        invariant users == Snapshot(activeUsers[..i])
      {
        var (id, user) := activeUsers[i];
        SnapshotAppend(activeUsers[..i], (id, user));
        assert activeUsers[..i + 1] == activeUsers[..i] + [(id, user)];
        if !user.isAdmin {
          users := users + [UserSummary(id, user.name, id)];
        }
        i := i + 1;
      }
      assert activeUsers[..i] == activeUsers;
    }

    /**
     * `user_connect`. `persisted` is the outcome of the awaited database step
     * before the registry is touched; when it failed, the handler's `catch`
     * leaves everything as it was.
     */
    method UserConnect(sid: SocketId, data: UserData, persisted: bool)
      requires Valid()
      modifies this`activeUsers, this`outbox
      ensures Valid() && adminSocket == old(adminSocket)
      ensures !persisted ==> activeUsers == old(activeUsers) && outbox == old(outbox)
      ensures persisted ==> activeUsers == Set(old(activeUsers), sid, UserEntry(sid, data))
      ensures persisted ==>
        (outbox == old(outbox)
          + ToSlot(adminSocket, UserConnected(sid, UserEntry(sid, data).name))
          + [Emit(sid, Connected(WelcomeText, sid))]
          + Fanout(NonAdminSockets(activeUsers), AdminStatus(true)))
      ensures persisted ==> sid in NonAdminSockets(activeUsers)
      ensures forall x :: x != sid ==> Get(activeUsers, x) == Get(old(activeUsers), x)
      // the slot invariant survives unless the slot holder itself announces as a customer
      ensures old(SlotHeldByAdmin()) && old(adminSocket) != Some(sid) ==> SlotHeldByAdmin()
      ensures persisted && old(adminSocket) == Some(sid) ==> !SlotHeldByAdmin()
    {
      if !persisted {
        return;
      }
      var entry := UserEntry(sid, data);
      SetDistinct(activeUsers, sid, entry);
      forall x ensures Get(Set(activeUsers, sid, entry), x) == if x == sid then Some(entry) else Get(activeUsers, x) {
        SetGet(activeUsers, sid, entry, x);
      }
      activeUsers := Set(activeUsers, sid, entry);
      if adminSocket.Some? {
        outbox := outbox + [Emit(adminSocket.value, UserConnected(sid, entry.name))];
      }
      outbox := outbox + [Emit(sid, Connected(WelcomeText, sid))];
      NotifyUsers(AdminStatus(true));
      NonAdminSocketsMembers(activeUsers, sid);
    }

    /**
     * `admin_connect`: takes the admin slot unconditionally, stores (or
     * overwrites) the caller's entry as admin-flagged, sends the caller the
     * snapshot of customers and tells every customer the admin is online.
     */
    method AdminConnect(sid: SocketId, name: Option<string>)
      requires Valid()
      modifies this
      ensures Valid() && SlotHeldByAdmin()
      ensures adminSocket == Some(sid)
      ensures activeUsers == Set(old(activeUsers), sid, AdminEntry(sid, name))
      ensures forall x :: x != sid ==> Get(activeUsers, x) == Get(old(activeUsers), x)
      ensures outbox == old(outbox)
        + [Emit(sid, AdminConnected(AdminWelcomeText, Snapshot(activeUsers), |Snapshot(activeUsers)|))]
        + Fanout(NonAdminSockets(activeUsers), AdminStatus(true))
    {
      adminSocket := Some(sid);
      var entry := AdminEntry(sid, name);
      SetDistinct(activeUsers, sid, entry);
      forall x ensures Get(Set(activeUsers, sid, entry), x) == if x == sid then Some(entry) else Get(activeUsers, x) {
        SetGet(activeUsers, sid, entry, x);
      }
      activeUsers := Set(activeUsers, sid, entry);
      var users := CollectUsers();
      outbox := outbox + [Emit(sid, AdminConnected(AdminWelcomeText, users, |users|))];
      NotifyUsers(AdminStatus(true));
    }

    /**
     * `user_message`: ignored unless the sender has an entry that is not
     * admin-flagged; then forwarded to the admin slot if set, and confirmed.
     * A missing payload throws before anything is sent (`None`).
     */
    method UserMessage(sid: SocketId, data: Option<string>)
      modifies this`outbox
      ensures var u := Get(activeUsers, sid);
        outbox == (if u.None? || u.value.isAdmin || data.None? then old(outbox)
                   else (old(outbox)
                     + ToSlot(adminSocket, NewMessage(u.value.name, sid, data.value, "user"))
                     + [Emit(sid, MessageSent(true, data.value))]))
    {
      var user := Get(activeUsers, sid);
      if user.None? || user.value.isAdmin {
        return;
      }
      if data.None? {
        return;
      }
      if adminSocket.Some? {
        outbox := outbox + [Emit(adminSocket.value, NewMessage(user.value.name, sid, data.value, "user"))];
      }
      outbox := outbox + [Emit(sid, MessageSent(true, data.value))];
    }

    /**
     * `admin_message`: ignored unless the sender's own entry is admin-flagged;
     * an unknown target gets the sender an `error`; otherwise one reply to the
     * target and one delivery confirmation to the sender.
     */
    method AdminMessage(sid: SocketId, data: Option<DirectMessage>)
      modifies this`outbox
      ensures var a := Get(activeUsers, sid);
        if a.None? || !a.value.isAdmin || data.None? then outbox == old(outbox)
        else if data.value.userId !in Keys(activeUsers) then
          outbox == old(outbox) + [Emit(sid, Error(UserNotFoundText))]
        else
          var to: SocketId := data.value.userId;
          outbox == old(outbox)
            + [Emit(to, AdminReply("Admin", data.value.message, "admin")),
               Emit(sid, MessageDelivered(Get(activeUsers, to).value.name, data.value.message))]
    {
      var admin := Get(activeUsers, sid);
      if admin.None? || !admin.value.isAdmin {
        return;
      }
      if data.None? {
        return;
      }
      var DirectMessage(userId, message) := data.value;
      if userId !in Keys(activeUsers) {
        outbox := outbox + [Emit(sid, Error(UserNotFoundText))];
        return;
      }
      var to: SocketId := userId;
      outbox := outbox + [Emit(to, AdminReply("Admin", message, "admin"))];
      outbox := outbox + [Emit(sid, MessageDelivered(Get(activeUsers, to).value.name, message))];
    }

    /**
     * `admin_broadcast`: from an admin-flagged sender, one reply to every
     * entry that is not admin-flagged, then a report to the sender counting
     * `activeUsers.size - 1` recipients.
     */
    method AdminBroadcast(sid: SocketId, data: Option<string>)
      modifies this`outbox
      ensures var a := Get(activeUsers, sid);
        outbox == (if a.None? || !a.value.isAdmin || data.None? then old(outbox)
                   else (old(outbox)
                     + Fanout(NonAdminSockets(activeUsers), AdminReply("Admin", data.value, "broadcast"))
                     + [Emit(sid, BroadcastSent(|activeUsers| - 1, data.value))]))
    {
      var admin := Get(activeUsers, sid);
      if admin.None? || !admin.value.isAdmin {
        return;
      }
      if data.None? {
        return;
      }
      NotifyUsers(AdminReply("Admin", data.value, "broadcast"));
      outbox := outbox + [Emit(sid, BroadcastSent(|activeUsers| - 1, data.value))];
    }

    /**
     * `disconnect`: a socket without an entry changes nothing. Otherwise the
     * entry is deleted; an admin-flagged departure empties the admin slot and
     * tells every customer, a customer departure is reported to the slot.
     */
    method Disconnect(sid: SocketId)
      requires Valid()
      modifies this
      ensures Valid()
      ensures sid !in Keys(activeUsers)
      ensures old(Get(activeUsers, sid)).None? ==>
        activeUsers == old(activeUsers) && adminSocket == old(adminSocket) && outbox == old(outbox)
      ensures old(Get(activeUsers, sid)).Some? ==> activeUsers == Delete(old(activeUsers), sid)
      ensures old(IsAdminEntry(activeUsers, sid)) ==>
        adminSocket == None
        && outbox == old(outbox) + Fanout(NonAdminSockets(activeUsers), AdminStatus(false))
      ensures old(IsUserEntry(activeUsers, sid)) ==>
        adminSocket == old(adminSocket)
        && outbox == old(outbox)
          + ToSlot(adminSocket, UserDisconnected(sid, old(Get(activeUsers, sid)).value.name))
      ensures old(SlotHeldByAdmin()) ==> SlotHeldByAdmin()
    {
      var user := Get(activeUsers, sid);
      if user.Some? {
        if user.value.isAdmin {
          adminSocket := None;
          NotifyUsers(AdminStatus(false));
          DeleteAdminKeepsTargets(activeUsers, sid);
        } else if adminSocket.Some? {
          outbox := outbox + [Emit(adminSocket.value, UserDisconnected(sid, user.value.name))];
        }
        activeUsers := Delete(activeUsers, sid);
      }
    }

    /** Dispatches one socket event to its handler. */
    method Handle(req: Request)
      requires Valid()
      modifies this
      ensures Valid()
      ensures req.AdminConnectReq? ==> adminSocket == Some(req.sid)
      ensures !req.AdminConnectReq? && !req.DisconnectReq? ==> adminSocket == old(adminSocket)
      ensures req.DisconnectReq? ==>
        adminSocket == (if old(IsAdminEntry(activeUsers, req.sid)) then None else old(adminSocket))
      ensures old(SlotHeldByAdmin()) && !(req.UserConnectReq? && old(adminSocket) == Some(req.sid)) ==>
        SlotHeldByAdmin()
      // the registry after each event
      ensures req.UserConnectReq? ==> (activeUsers ==
        if req.persisted then Set(old(activeUsers), req.sid, UserEntry(req.sid, req.data)) else old(activeUsers))
      ensures req.AdminConnectReq? ==> activeUsers == Set(old(activeUsers), req.sid, AdminEntry(req.sid, req.name))
      ensures req.UserMessageReq? || req.AdminMessageReq? || req.AdminBroadcastReq? ==>
        activeUsers == old(activeUsers)
      ensures req.DisconnectReq? ==> activeUsers == Delete(old(activeUsers), req.sid)
      // what each event emits
      ensures req.UserConnectReq? ==> (outbox ==
        if !req.persisted then old(outbox)
        else (old(outbox)
          + ToSlot(adminSocket, UserConnected(req.sid, UserEntry(req.sid, req.data).name))
          + [Emit(req.sid, Connected(WelcomeText, req.sid))]
          + Fanout(NonAdminSockets(activeUsers), AdminStatus(true))))
      ensures req.AdminConnectReq? ==> (outbox == old(outbox)
        + [Emit(req.sid, AdminConnected(AdminWelcomeText, Snapshot(activeUsers), |Snapshot(activeUsers)|))]
        + Fanout(NonAdminSockets(activeUsers), AdminStatus(true)))
      ensures req.UserMessageReq? ==> (
        var u := Get(activeUsers, req.sid);
        outbox == (if u.None? || u.value.isAdmin || req.message.None? then old(outbox)
                   else (old(outbox)
                     + ToSlot(adminSocket, NewMessage(u.value.name, req.sid, req.message.value, "user"))
                     + [Emit(req.sid, MessageSent(true, req.message.value))])))
      ensures req.AdminMessageReq? ==> (
        var a := Get(activeUsers, req.sid);
        if a.None? || !a.value.isAdmin || req.direct.None? then outbox == old(outbox)
        else if req.direct.value.userId !in Keys(activeUsers) then
          outbox == old(outbox) + [Emit(req.sid, Error(UserNotFoundText))]
        else
          var to: SocketId := req.direct.value.userId;
          outbox == old(outbox)
            + [Emit(to, AdminReply("Admin", req.direct.value.message, "admin")),
               Emit(req.sid, MessageDelivered(Get(activeUsers, to).value.name, req.direct.value.message))])
      ensures req.AdminBroadcastReq? ==> (
        var a := Get(activeUsers, req.sid);
        outbox == (if a.None? || !a.value.isAdmin || req.message.None? then old(outbox)
                   else (old(outbox)
                     + Fanout(NonAdminSockets(activeUsers), AdminReply("Admin", req.message.value, "broadcast"))
                     + [Emit(req.sid, BroadcastSent(|activeUsers| - 1, req.message.value))])))
      ensures req.DisconnectReq? ==> (
        var u := old(Get(activeUsers, req.sid));
        if u.None? then outbox == old(outbox)
        else if u.value.isAdmin then outbox == old(outbox) + Fanout(NonAdminSockets(activeUsers), AdminStatus(false))
        else outbox == old(outbox) + ToSlot(adminSocket, UserDisconnected(req.sid, u.value.name)))
    {
      match req
      case UserConnectReq(sid, data, persisted) => UserConnect(sid, data, persisted);
      case AdminConnectReq(sid, name) => AdminConnect(sid, name);
      case UserMessageReq(sid, message) => UserMessage(sid, message);
      case AdminMessageReq(sid, direct) => AdminMessage(sid, direct);
      case AdminBroadcastReq(sid, message) => AdminBroadcast(sid, message);
      case DisconnectReq(sid) => Disconnect(sid);
    }

    /**
     * Runs the events of `trace` one after another. While roles are kept
     * apart, a set admin slot names an admin-flagged entry after every event.
     */
    method Serve(trace: seq<Request>)
      requires Valid() && SlotHeldByAdmin()
      requires RolesKeptApart(trace, adminSocket)
      modifies this
      ensures Valid() && SlotHeldByAdmin()
    {
      ghost var slot0 := adminSocket;
      var i := 0;
      while i < |trace|
        invariant 0 <= i <= |trace|
        invariant Valid() && SlotHeldByAdmin()
        invariant adminSocket.Some? ==> adminSocket == slot0 || AdminConnectsFrom(trace, adminSocket.value)
      {
        var req := trace[i];
        Handle(req);
        i := i + 1;
      }
    }
  }
}
