/** The connection handler of server.js (lines 72-298) as a pure step function: each inbound
    event yields the next registry and the ordered deliveries it causes. Randomness arrives
    as explicit draws, and a revert timer firing is an event of its own. */
module Coordinator {
  import opened Js
  import opened Names
  import opened Shuffle
  import opened Protocol
  import opened Registry

  datatype Event =
    | Connect
    | JoinFrame(socket: ConnId, code: Val, joiner: ClientId, preventNotification: bool, draw: NameDraw)
    | ContentFrame(socket: ConnId, clientId: Val, content: Content, claimedUsername: string)
    | RetardiooFrame(socket: ConnId, clientId: Val, pick: nat -> nat)
    | LeaveFrame(socket: ConnId, clientId: Val, preventNotification: bool)
    | MalformedFrame(socket: ConnId)
    | TimerFires(timer: TimerId)
    | StopsBeingOpen(socket: ConnId)
    | CloseEvent(socket: ConnId)

  /** How the grant decides that a room already has a holder. */
  datatype Guard =
    | AsWritten   // `if (room.retardiooActiveClient)`: JavaScript truthiness
    | Corrected   // any recorded holder blocks, whatever its id

  predicate HolderBlocks(g: Guard, room: Room) {
    match g
    case AsWritten => room.holder.Some? && room.holder.value != ""
    case Corrected => room.holder.Some?
  }

  /** `data.code || 'GENERAL'`. */
  function RoomCodeOf(code: Val): (r: RoomCode)
    ensures r != ""
    ensures Truthy(code) ==> r == code.s
    ensures !Truthy(code) ==> r == "GENERAL"
  {
    if Truthy(code) then code.s else "GENERAL"
  }

  /** The socket has not been closed, so the transport may still deliver its frames. */
  predicate Acting(s: Server, c: ConnId) {
    c < |s.sockets| && s.sockets[c].state != Closed
  }

  // ---------------------------------------------------------------------------
  // join-room (lines 77-102)

  function JoinRoom(s: Server, c: ConnId, code: Val, k: ClientId, preventNotification: bool, d: NameDraw): (r: (Server, seq<Delivery>))
    requires Resolvable(s) && c < |s.sockets| && InRange(d)
    ensures r.0.clients.Keys == s.clients.Keys + {k} && r.0.timers == s.timers
    ensures RoomCodeOf(code) in r.0.rooms && c in r.0.rooms[RoomCodeOf(code)].members
    ensures |r.0.sockets| == |s.sockets| && r.0.sockets[c].clientId == Str(k) && r.0.clients[k].socket == c
    ensures r.0.sockets[c].state == Open <==> |r.1| > 0 && r.1[0] == (c, UsernameAssigned(GenerateUsername(d)))
  {
    var roomCode := RoomCodeOf(code);
    var name := GenerateUsername(d);
    var t := Enrol(s, c, roomCode, k, name);
    (t, JoinOutbox(t, c, roomCode, k, preventNotification, name))
  }

  /** The frames of `join-room` (lines 93-102) once the registry is `t`: the joiner alone
      hears its name, and hears it first; every open member hears the room's names; every open
      member but the joiner hears the notice unless it is suppressed. */
  function JoinOutbox(t: Server, c: ConnId, rc: RoomCode, k: ClientId, prevent: bool, name: string): (out: seq<Delivery>)
    requires ListableRoom(t, rc) && c < |t.sockets|
    ensures t.sockets[c].state == Open <==> |out| > 0 && out[0] == (c, UsernameAssigned(name))
    ensures forall x, n :: (x, UsernameAssigned(n)) in out <==> x == c && n == name && t.sockets[c].state == Open
    ensures forall x, u :: (x, UserList(u)) in out <==> x in t.rooms[rc].members && Eligible(t, x, Undefined) && u == Users(t, rc)
    ensures forall x, m :: (x, RoomStatus(m)) in out <==>
      !prevent && m == JoinNotice(name, rc) && x in t.rooms[rc].members && Eligible(t, x, Str(k))
    ensures forall d :: d in out ==> d.1.UsernameAssigned? || d.1.UserList? || d.1.RoomStatus?
  {
    var a := Direct(t, c, UsernameAssigned(name));
    var b := Broadcast(t, rc, UserList(Users(t, rc)), Undefined);
    var n := if prevent then [] else Broadcast(t, rc, RoomStatus(JoinNotice(name, rc)), Str(k));
    var out := a + b + n;
    assert t.sockets[c].state != Open && |out| > 0 ==> out[0] in b + n;
    out
  }

  /** The registry half of `join-room`: the record for `k` (overwriting any earlier one), the
      socket added to the room (created when absent), the id stamped on the socket. */
  function Enrol(s: Server, c: ConnId, roomCode: RoomCode, k: ClientId, name: string): (t: Server)
    requires Resolvable(s) && c < |s.sockets|
    ensures ListableRoom(t, roomCode) && |t.sockets| == |s.sockets|
    ensures t.clients.Keys == s.clients.Keys + {k} && t.timers == s.timers
    ensures c in t.rooms[roomCode].members && t.sockets[c].clientId == Str(k) && t.clients[k].socket == c
    ensures t.sockets[c].state == s.sockets[c].state
  {
    var before := if roomCode in s.rooms then s.rooms[roomCode] else Room([], None);
    var room := before.(members := if c in before.members then before.members else before.members + [c]);
    var t := s.(clients := s.clients[k := Client(c, name, name, roomCode, None)],
                rooms := s.rooms[roomCode := room],
                sockets := s.sockets[c := s.sockets[c].(clientId := Str(k))]);
    JoinListable(s, c, roomCode, k, t);
    t
  }

  lemma JoinListable(s: Server, c: ConnId, roomCode: RoomCode, k: ClientId, t: Server)
    requires Resolvable(s) && c < |s.sockets|
    requires t.sockets == s.sockets[c := s.sockets[c].(clientId := Str(k))]
    requires t.clients.Keys == s.clients.Keys + {k}
    requires roomCode in t.rooms
    requires forall m :: m in t.rooms[roomCode].members ==> m == c || (roomCode in s.rooms && m in s.rooms[roomCode].members)
    ensures ListableRoom(t, roomCode)
  {
    forall i | 0 <= i < |t.rooms[roomCode].members|
      ensures Registered(t, t.rooms[roomCode].members[i])
    {
      var m := t.rooms[roomCode].members[i];
      assert m in t.rooms[roomCode].members;
      if m != c {
        assert ListableRoom(s, roomCode);
        var j :| 0 <= j < |s.rooms[roomCode].members| && s.rooms[roomCode].members[j] == m;
        assert Registered(s, m);
      }
    }
  }

  // ---------------------------------------------------------------------------
  // content relay: message, image, voice, reply, reaction (lines 104-164)

  /** The relay of one content frame: stamped with the registered sender's server-side name
      and sent to the sender's room, excluding the sender; the registry does not change. */
  function Relay(s: Server, id: Val, content: Content): (out: seq<Delivery>)
    ensures out != [] ==> id.Str? && id.s in s.clients && s.clients[id.s].room in s.rooms
    ensures forall d :: d in out ==> d.1 == Relayed(content, s.clients[id.s].username, id.s) && d.0 in s.rooms[s.clients[id.s].room].members
  {
    if id.Str? && id.s in s.clients && s.clients[id.s].room != "" then
      var sender := s.clients[id.s];
      Broadcast(s, sender.room, Relayed(content, sender.username, id.s), id)
    else []
  }

  // ---------------------------------------------------------------------------
  // retardioo (lines 165-213)

  /** The grant once `j` has been drawn: rename, remember the name, record the holder, start
      the revert timer, announce, refresh the user list. */
  function Grant(s: Server, code: RoomCode, j: ClientId): (r: (Server, seq<Delivery>))
    requires ListableRoom(s, code) && j in s.clients
  {
    var t := Crown(s, code, j);
    (t, AnnounceThenList(t, code, RetardiooSet(j, s.clients[j].username)))
  }

  /** `env` to the room, then the refreshed `user-list` (lines 190-213 and 201-208): each open
      member hears each of the two once, the announcement before the list. */
  function AnnounceThenList(t: Server, code: RoomCode, env: Envelope): (out: seq<Delivery>)
    requires ListableRoom(t, code) && !env.UserList?
    ensures forall x, e :: (x, e) in out <==>
      x in t.rooms[code].members && Eligible(t, x, Undefined) && (e == env || e == UserList(Users(t, code)))
    ensures forall i, i' :: 0 <= i < |out| && 0 <= i' < |out| && out[i].1 == env && out[i'].1.UserList? ==> i < i'
    ensures NoDup(t.rooms[code].members) ==> NoDup(out)
  {
    var a := Broadcast(t, code, env, Undefined);
    var b := Broadcast(t, code, UserList(Users(t, code)), Undefined);
    assert forall i :: 0 <= i < |a| ==> a[i] in a;
    assert forall i :: 0 <= i < |b| ==> b[i] in b;
    a + b
  }

  /** The registry half of the grant (lines 184-187 and 197). */
  function Crown(s: Server, code: RoomCode, j: ClientId): (t: Server)
    requires ListableRoom(s, code) && j in s.clients
    ensures ListableRoom(t, code)
    ensures t.clients.Keys == s.clients.Keys && t.rooms.Keys == s.rooms.Keys && t.sockets == s.sockets
    ensures t.rooms[code].holder == Some(j) && t.clients[j].username == SpecialName
  {
    var chosen := s.clients[j];
    var n := s.nextTimer;
    var t := s.(clients := s.clients[j := chosen.(username := SpecialName, originalUsername := chosen.username, timer := Some(n))],
                rooms := s.rooms[code := s.rooms[code].(holder := Some(j))],
                timers := s.timers[n := Timeout(j, chosen.username, code)],
                nextTimer := n + 1);
    ListableFrom(s, code, t, code);
    t
  }

  function RequestRetardioo(g: Guard, s: Server, c: ConnId, id: Val, pick: nat -> nat): (r: (Server, seq<Delivery>))
    requires Resolvable(s) && PickInRange(pick)
    ensures r.0.clients.Keys == s.clients.Keys && r.0.rooms.Keys == s.rooms.Keys && r.0.sockets == s.sockets
    ensures r.0 != s ==> id.Str? && id.s in s.clients && s.clients[id.s].room in s.rooms && !HolderBlocks(g, s.rooms[s.clients[id.s].room])
  {
    if !(id.Str? && id.s in s.clients && s.clients[id.s].room != "" && s.clients[id.s].room in s.rooms) then (s, [])
    else
      var code := s.clients[id.s].room;
      var room := s.rooms[code];
      if HolderBlocks(g, room) then (s, Direct(s, c, RoomStatus(AlreadyHeldNotice)))
      else if |room.members| == 0 then (s, [])
      else
        var chosen := ShuffleArray(room.members, pick)[0];
        if !Registered(s, chosen) then (s, [])
        else Grant(s, code, ClientOf(s, chosen))
  }

  // ---------------------------------------------------------------------------
  // the revert timer (lines 197-209)

  function FireTimer(s: Server, t: TimerId): (r: (Server, seq<Delivery>))
    requires Resolvable(s)
    ensures t !in r.0.timers && r.0.timers.Keys <= s.timers.Keys
    ensures r.0.clients.Keys == s.clients.Keys && r.0.rooms.Keys == s.rooms.Keys && r.0.sockets == s.sockets
  {
    if t !in s.timers then (s, [])
    else
      var tm := s.timers[t];
      var s' := Uncrown(s, t);
      (s', AnnounceThenList(s', tm.room, RetardiooRevert(tm.holder, tm.originalUsername)))
  }

  /** The registry half of the timer callback (lines 198-200); the timer is spent. */
  function Uncrown(s: Server, t: TimerId): (s': Server)
    requires Resolvable(s) && t in s.timers
    ensures ListableRoom(s', s.timers[t].room)
    ensures s'.timers.Keys == s.timers.Keys - {t} && s'.clients.Keys == s.clients.Keys && s'.rooms.Keys == s.rooms.Keys
  {
    var tm := s.timers[t];
    var holder := s.clients[tm.holder];
    var s' := s.(clients := s.clients[tm.holder := holder.(username := tm.originalUsername, timer := None)],
                 rooms := s.rooms[tm.room := s.rooms[tm.room].(holder := None)],
                 timers := s.timers - {t});
    ListableFrom(s, tm.room, s', tm.room);
    s'
  }

  // ---------------------------------------------------------------------------
  // leave-room (lines 216-254) and close (lines 261-297)

  /** The cleanup both exit paths run for record `k`, removing socket `c` from its room. */
  function Depart(s: Server, c: ConnId, k: ClientId, notify: bool): (r: (Server, seq<Delivery>))
    requires Resolvable(s) && k in s.clients
  {
    (Vacate(s, c, k), DepartOutbox(s, c, k, notify))
  }

  /** The registry half of the cleanup: timer cancelled, socket unseated, record deleted
      (lines 253 and 296). */
  function Vacate(s: Server, c: ConnId, k: ClientId): (t: Server)
    requires Resolvable(s) && k in s.clients
    ensures t.clients.Keys == s.clients.Keys - {k} && t.sockets == s.sockets
  {
    var s3 := Unseat(Cancel(s, k), s.clients[k].room, c);
    s3.(clients := s3.clients - {k})
  }

  /** The frames of the cleanup (lines 219-250, 264-293): one revert to each open member when
      the record held the status, then the departure notice to the open members left behind
      unless suppressed, then their names, in order, when the room survives. */
  function DepartOutbox(s: Server, c: ConnId, k: ClientId, notify: bool): seq<Delivery>
    requires Resolvable(s) && k in s.clients
  {
    RevertFrames(s, k) + NoticeFrames(s, c, k, notify) + ListFrames(s, c, k)
  }

  function RevertFrames(s: Server, k: ClientId): (out: seq<Delivery>)
    requires Resolvable(s) && k in s.clients
    ensures var rec := s.clients[k];
      forall d :: d in out <==>
        Reverts(s, k) && d.1 == RetardiooRevert(k, rec.originalUsername) && d.0 in s.rooms[rec.room].members && Eligible(s, d.0, Undefined)
    ensures NoDup(s.rooms[s.clients[k].room].members) ==> NoDup(out)
  {
    var rec := s.clients[k];
    CleanupFields(s, 0, k);
    if Reverts(s, k) then Broadcast(Cancel(s, k), rec.room, RetardiooRevert(k, rec.originalUsername), Undefined) else []
  }

  function NoticeFrames(s: Server, c: ConnId, k: ClientId, notify: bool): (out: seq<Delivery>)
    requires Resolvable(s) && k in s.clients
    ensures var rec := s.clients[k];
      var left := Remove(s.rooms[rec.room].members, c);
      forall d :: d in out <==> notify && d.1 == RoomStatus(LeaveNotice(rec.username, rec.room)) && d.0 in left && Eligible(s, d.0, Str(k))
    ensures NoDup(s.rooms[s.clients[k].room].members) ==> NoDup(out)
  {
    var rec := s.clients[k];
    CleanupFields(s, c, k);
    var s3 := Unseat(Cancel(s, k), rec.room, c);
    if notify then Broadcast(s3, rec.room, RoomStatus(LeaveNotice(rec.username, rec.room)), Str(k)) else []
  }

  function ListFrames(s: Server, c: ConnId, k: ClientId): (out: seq<Delivery>)
    requires Resolvable(s) && k in s.clients
    ensures var left := Remove(s.rooms[s.clients[k].room].members, c);
      && (forall i :: 0 <= i < |left| ==> Registered(s, left[i]))
      && (forall d :: d in out <==> |left| > 0 && d.1 == UserList(NamesOf(s, left)) && d.0 in left && Eligible(s, d.0, Undefined))
    ensures NoDup(s.rooms[s.clients[k].room].members) ==> NoDup(out)
  {
    var code := s.clients[k].room;
    CleanupFields(s, c, k);
    var s3 := Unseat(Cancel(s, k), code, c);
    var left := Remove(s.rooms[code].members, c);
    assert forall i :: 0 <= i < |left| ==> left[i] in s.rooms[code].members;
    if code in s3.rooms then
      assert Users(s3, code) == NamesOf(s, left);
      Broadcast(s3, code, UserList(Users(s3, code)), Undefined)
    else []
  }

  /** How the two intermediate registries of the cleanup differ from `s`. */
  lemma CleanupFields(s: Server, c: ConnId, k: ClientId)
    requires Resolvable(s) && k in s.clients
    ensures var code := s.clients[k].room;
      var s2 := Cancel(s, k);
      var s3 := Unseat(s2, code, c);
      var left := Remove(s.rooms[code].members, c);
      && s2.sockets == s.sockets && s3.sockets == s.sockets
      && s2.rooms[code].members == s.rooms[code].members
      && s3.clients == s2.clients && s2.clients.Keys == s.clients.Keys
      && (forall x :: x in s.clients ==> s2.clients[x].username == s.clients[x].username)
      && (code in s3.rooms <==> |left| > 0)
      && (code in s3.rooms ==> s3.rooms[code].members == left)
  {
  }

  /** The departing record holds a pending timer and its room names it as the holder
      (lines 220 and 224). */
  predicate Reverts(s: Server, k: ClientId)
    requires Resolvable(s) && k in s.clients
  {
    s.clients[k].timer.Some? && s.rooms[s.clients[k].room].holder == Some(k)
  }

  /** Lines 220-231: cancel the record's timer, and clear the holder when it is this record. */
  function Cancel(s: Server, k: ClientId): (t: Server)
    requires Resolvable(s) && k in s.clients
    ensures t.rooms.Keys == s.rooms.Keys && ListableRoom(t, s.clients[k].room)
  {
    var rec := s.clients[k];
    var code := rec.room;
    var s1 := if rec.timer.Some? then s.(clients := s.clients[k := rec.(timer := None)], timers := s.timers - {rec.timer.value}) else s;
    var t := if Reverts(s, k) then s1.(rooms := s1.rooms[code := s1.rooms[code].(holder := None)]) else s1;
    ListableFrom(s, code, t, code);
    t
  }

  /** Lines 235-239: the socket leaves the room; a room left empty is deleted. */
  function Unseat(s: Server, code: RoomCode, c: ConnId): (t: Server)
    requires ListableRoom(s, code)
    ensures code in t.rooms ==> ListableRoom(t, code)
  {
    var members := Remove(s.rooms[code].members, c);
    var t := if |members| == 0 then s.(rooms := s.rooms - {code}) else s.(rooms := s.rooms[code := s.rooms[code].(members := members)]);
    if code in t.rooms then ListableFrom(s, code, t, code); t else t
  }

  function LeaveRoom(s: Server, c: ConnId, id: Val, preventNotification: bool): (r: (Server, seq<Delivery>))
    requires Resolvable(s)
    ensures r.0.sockets == s.sockets
    ensures r.0.clients.Keys == s.clients.Keys - (if id.Str? && id.s in s.clients && s.clients[id.s].room != "" then {id.s} else {})
  {
    if id.Str? && id.s in s.clients && s.clients[id.s].room != "" then Depart(s, c, id.s, !preventNotification)
    else (s, [])
  }

  /** The socket's `readyState` becomes CLOSED; nothing else changes. */
  function MarkClosed(s: Server, c: ConnId): Server
    requires c < |s.sockets|
  {
    s.(sockets := s.sockets[c := s.sockets[c].(state := Closed)])
  }

  lemma MarkClosedResolvable(s: Server, c: ConnId)
    requires Resolvable(s) && c < |s.sockets|
    ensures Resolvable(MarkClosed(s, c))
  {
    var t := MarkClosed(s, c);
    assert forall m :: Registered(s, m) ==> Registered(t, m);
  }

  function Close(s: Server, c: ConnId): (r: (Server, seq<Delivery>))
    requires Resolvable(s) && c < |s.sockets|
    ensures |r.0.sockets| == |s.sockets| && r.0.sockets[c].state == Closed
    ensures forall i :: 0 <= i < |s.sockets| && i != c ==> r.0.sockets[i] == s.sockets[i]
    ensures var id := s.sockets[c].clientId;
      r.0.clients.Keys == s.clients.Keys - (if id.Str? && id.s in s.clients && s.clients[id.s].room != "" then {id.s} else {})
  {
    var s0 := MarkClosed(s, c);
    MarkClosedResolvable(s, c);
    var id := s.sockets[c].clientId;
    if id.Str? && id.s in s0.clients && s0.clients[id.s].room != "" then Depart(s0, c, id.s, true)
    else (s0, [])
  }

  // ---------------------------------------------------------------------------
  // the step function

  ghost predicate Admissible(s: Server, e: Event) {
    match e
    case Connect => true
    case JoinFrame(c, _, _, _, d) => Acting(s, c) && InRange(d)
    case ContentFrame(c, _, _, _) => Acting(s, c)
    case RetardiooFrame(c, _, pick) => Acting(s, c) && PickInRange(pick)
    case LeaveFrame(c, _, _) => Acting(s, c)
    case MalformedFrame(c) => Acting(s, c)
    case TimerFires(_) => true
    case StopsBeingOpen(c) => c < |s.sockets|
    case CloseEvent(c) => Acting(s, c)
  }

  function Step(s: Server, e: Event): (r: (Server, seq<Delivery>))
    requires Valid(s) && Admissible(s, e)
    ensures |r.0.sockets| == |s.sockets| + (if e.Connect? then 1 else 0)
    ensures forall i :: 0 <= i < |s.sockets| && s.sockets[i].state == Closed ==> r.0.sockets[i].state == Closed
  {
    ConsistentResolvable(s);
    match e
    case Connect => (s.(sockets := s.sockets + [Socket(Open, Undefined)]), [])
    case JoinFrame(c, code, k, prevent, d) => JoinRoom(s, c, code, k, prevent, d)
    case ContentFrame(_, id, content, _) => (s, Relay(s, id, content))
    case RetardiooFrame(c, id, pick) => RequestRetardioo(AsWritten, s, c, id, pick)
    case LeaveFrame(c, id, prevent) => LeaveRoom(s, c, id, prevent)
    case MalformedFrame(_) => (s, [])
    case TimerFires(t) => FireTimer(s, t)
    case StopsBeingOpen(c) =>
      var st := if s.sockets[c].state == Open then Closing else s.sockets[c].state;
      (s.(sockets := s.sockets[c := s.sockets[c].(state := st)]), [])
    case CloseEvent(c) => Close(s, c)
  }
}
