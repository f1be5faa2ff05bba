/** The server's in-memory registry (server.js lines 13-14): `rooms`, `clients`, the sockets
    those refer to, and the pending revert timers; plus `broadcast` (lines 38-47). */
module Registry {
  import opened Js
  import opened Names
  import opened Protocol

  type RoomCode = string
  type TimerId = nat

  datatype ReadyState = Open | Closing | Closed

  /** A websocket: its `readyState` and the `clientId` that `join-room` stamps on it. The
      connection handler's closure variable `clientId` is assigned together with it (lines 78
      and 90), so one field stands for both. */
  datatype Socket = Socket(state: ReadyState, clientId: Val)

  /** A `clients` entry; `timer` is the `retardiooTimeout` handle. */
  datatype Client = Client(socket: ConnId, username: string, originalUsername: string, room: RoomCode, timer: Option<TimerId>)

  /** A `rooms` entry: the member sockets in insertion order (a JS `Set`) and
      `retardiooActiveClient`. */
  datatype Room = Room(members: seq<ConnId>, holder: Option<ClientId>)

  /** A scheduled revert: what its closure captured (the chosen client, the name it had, and
      the requester's room code). */
  datatype Timeout = Timeout(holder: ClientId, originalUsername: string, room: RoomCode)

  datatype Server = Server(
    sockets: seq<Socket>,
    clients: map<ClientId, Client>,
    rooms: map<RoomCode, Room>,
    timers: map<TimerId, Timeout>,
    nextTimer: TimerId)

  const Empty := Server([], map[], map[], map[], 0)

  // ---------------------------------------------------------------------------
  // Well-formed registries

  /** Socket `c` carries the id of a registered client. */
  predicate Registered(s: Server, c: ConnId) {
    c < |s.sockets| && s.sockets[c].clientId.Str? && s.sockets[c].clientId.s in s.clients
  }

  function ClientOf(s: Server, c: ConnId): ClientId
    requires Registered(s, c)
  {
    s.sockets[c].clientId.s
  }

  /** Socket `c` is in room `code` because its client record says so. */
  predicate MemberOk(s: Server, code: RoomCode, c: ConnId) {
    Registered(s, c) && s.clients[ClientOf(s, c)].socket == c && s.clients[ClientOf(s, c)].room == code
  }

  predicate RoomOk(s: Server, code: RoomCode)
    requires code in s.rooms
  {
    var r := s.rooms[code];
    && |r.members| > 0
    && NoDup(r.members)
    && (forall i :: 0 <= i < |r.members| ==> MemberOk(s, code, r.members[i]))
    && (r.holder.Some? ==> r.holder.value in s.clients && s.clients[r.holder.value].room == code)
  }

  ghost predicate ClientOk(s: Server, k: ClientId)
    requires k in s.clients
  {
    var cl := s.clients[k];
    && cl.socket < |s.sockets| && s.sockets[cl.socket].clientId == Str(k)
    && cl.room != "" && cl.room in s.rooms && cl.socket in s.rooms[cl.room].members
    && cl.originalUsername != SpecialName
    && (cl.timer.None? ==> cl.username == cl.originalUsername && s.rooms[cl.room].holder != Some(k))
    && (cl.timer.Some? ==>
          && cl.username == SpecialName
          && s.rooms[cl.room].holder == Some(k)
          && cl.timer.value in s.timers
          && s.timers[cl.timer.value] == Timeout(k, cl.originalUsername, cl.room))
  }

  predicate TimerOk(s: Server, t: TimerId)
    requires t in s.timers
  {
    t < s.nextTimer && s.timers[t].holder in s.clients && s.clients[s.timers[t].holder].timer == Some(t)
  }

  /** A socket that can still act owns the record registered under its id. */
  predicate SocketsOwnRecords(s: Server) {
    forall c, k :: 0 <= c < |s.sockets| && s.sockets[c].state != Closed && s.sockets[c].clientId == Str(k) && k in s.clients
      ==> s.clients[k].socket == c
  }

  /** Rooms, records and timers agree with each other. */
  ghost predicate Consistent(s: Server) {
    && (forall code :: code in s.rooms ==> RoomOk(s, code))
    && (forall k :: k in s.clients ==> ClientOk(s, k))
    && (forall t :: t in s.timers ==> TimerOk(s, t))
    && SocketsOwnRecords(s)
  }

  /** No closed socket lingers in a room. */
  predicate LiveMembers(s: Server) {
    forall code, i :: code in s.rooms && 0 <= i < |s.rooms[code].members| ==>
      s.rooms[code].members[i] < |s.sockets| && s.sockets[s.rooms[code].members[i]].state != Closed
  }

  /** The registry invariant: every state the handlers reach from `Empty` on the frames a
      browser sends. A browser's id is never empty, so no record is filed under `""`. */
  ghost predicate Valid(s: Server) {
    Consistent(s) && LiveMembers(s) && "" !in s.clients
  }

  /** Every member of room `code` carries a registered id, so building its user list cannot
      hit a missing record. */
  predicate ListableRoom(s: Server, code: RoomCode) {
    code in s.rooms && forall i :: 0 <= i < |s.rooms[code].members| ==> Registered(s, s.rooms[code].members[i])
  }

  /** What the handlers need in order to be well defined: every room can list its users,
      every record names an existing room, every pending timer names a record and a room. */
  predicate Resolvable(s: Server) {
    && (forall code :: code in s.rooms ==> ListableRoom(s, code))
    && (forall k :: k in s.clients ==> s.clients[k].room in s.rooms)
    && (forall t :: t in s.timers ==> s.timers[t].holder in s.clients && s.timers[t].room in s.rooms)
  }

  lemma ConsistentResolvable(s: Server)
    requires Consistent(s)
    ensures Resolvable(s)
  {
    forall code | code in s.rooms
      ensures ListableRoom(s, code)
    {
      RoomListable(s, code);
    }
    forall k | k in s.clients
      ensures s.clients[k].room in s.rooms
    {
      assert ClientOk(s, k);
    }
    forall t | t in s.timers
      ensures s.timers[t].holder in s.clients && s.timers[t].room in s.rooms
    {
      TimerResolves(s, t);
    }
  }

  lemma RoomListable(s: Server, code: RoomCode)
    requires code in s.rooms && RoomOk(s, code)
    ensures ListableRoom(s, code)
  {
  }

  lemma TimerResolves(s: Server, t: TimerId)
    requires Consistent(s) && t in s.timers
    ensures s.timers[t].holder in s.clients && s.timers[t].room in s.rooms
  {
    assert TimerOk(s, t);
    var k := s.timers[t].holder;
    assert ClientOk(s, k);
  }

  /** A room stays listable when its members are drawn from a listable room, the sockets keep
      their ids and no record disappears. */
  lemma ListableFrom(s: Server, code0: RoomCode, s': Server, code: RoomCode)
    requires ListableRoom(s, code0) && code in s'.rooms
    requires forall m :: m in s'.rooms[code].members ==> m in s.rooms[code0].members
    requires |s'.sockets| == |s.sockets|
    requires forall c :: 0 <= c < |s.sockets| ==> s'.sockets[c].clientId == s.sockets[c].clientId
    requires s.clients.Keys <= s'.clients.Keys
    ensures ListableRoom(s', code)
  {
    forall i | 0 <= i < |s'.rooms[code].members|
      ensures Registered(s', s'.rooms[code].members[i])
    {
      var m := s'.rooms[code].members[i];
      assert m in s.rooms[code0].members;
      var j :| 0 <= j < |s.rooms[code0].members| && s.rooms[code0].members[j] == m;
      assert Registered(s, m);
    }
  }

  /** The display names of the sockets `ms`, in order. */
  function NamesOf(s: Server, ms: seq<ConnId>): (u: seq<string>)
    requires forall i :: 0 <= i < |ms| ==> Registered(s, ms[i])
    ensures |u| == |ms| && forall i :: 0 <= i < |ms| ==> u[i] == s.clients[ClientOf(s, ms[i])].username
  {
    seq(|ms|, i requires 0 <= i < |ms| => s.clients[ClientOf(s, ms[i])].username)
  }

  /** A joiner's name goes to the end of the list, after the names already there. */
  lemma NamesOfAppend(s: Server, ms: seq<ConnId>, c: ConnId)
    requires forall i :: 0 <= i < |ms| ==> Registered(s, ms[i])
    requires Registered(s, c)
    ensures NamesOf(s, ms + [c]) == NamesOf(s, ms) + [s.clients[ClientOf(s, c)].username]
  {
    var ms' := ms + [c];
    assert forall i :: 0 <= i < |ms| ==> ms'[i] == ms[i];
  }

  /** Deleting a member deletes its name and keeps the others in order: the list over the
      remaining members is the old list without the entry at the member's position. */
  lemma NamesOfRemove(s: Server, ms: seq<ConnId>, c: ConnId, i: nat)
    requires forall j :: 0 <= j < |ms| ==> Registered(s, ms[j])
    requires NoDup(ms) && i < |ms| && ms[i] == c
    ensures forall j :: 0 <= j < |Remove(ms, c)| ==> Registered(s, Remove(ms, c)[j])
    ensures NamesOf(s, Remove(ms, c)) == NamesOf(s, ms)[..i] + NamesOf(s, ms)[i + 1..]
  {
    RemoveKeepsOrder(ms, c, i);
    DropNameAt(s, ms, i, Remove(ms, c));
  }

  lemma DropNameAt(s: Server, ms: seq<ConnId>, i: nat, r: seq<ConnId>)
    requires forall j :: 0 <= j < |ms| ==> Registered(s, ms[j])
    requires i < |ms| && r == ms[..i] + ms[i + 1..]
    ensures forall j :: 0 <= j < |r| ==> Registered(s, r[j])
    ensures NamesOf(s, r) == NamesOf(s, ms)[..i] + NamesOf(s, ms)[i + 1..]
  {
    var n := NamesOf(s, ms);
    var d := n[..i] + n[i + 1..];
    forall j | 0 <= j < |r| ensures Registered(s, r[j]) && d[j] == s.clients[ClientOf(s, r[j])].username {
      if j < i {
        assert r[j] == ms[j] && d[j] == n[j];
      } else {
        assert r[j] == ms[j + 1] && d[j] == n[j + 1];
      }
    }
    assert NamesOf(s, r) == d;
  }

  /** The `user-list` payload: each member's current display name, in insertion order. */
  function Users(s: Server, code: RoomCode): (users: seq<string>)
    requires ListableRoom(s, code)
  {
    NamesOf(s, s.rooms[code].members)
  }

  // ---------------------------------------------------------------------------
  // Fan-out

  /** The test of `broadcast` for one socket: OPEN, and not the excluded id (a falsy
      exclude excludes nobody). */
  predicate Eligible(s: Server, c: ConnId, exclude: Val) {
    c < |s.sockets| && s.sockets[c].state == Open && (!Truthy(exclude) || s.sockets[c].clientId != exclude)
  }

  function Fan(s: Server, ms: seq<ConnId>, env: Envelope, exclude: Val): (out: seq<Delivery>)
    ensures forall d :: d in out <==> d.0 in ms && Eligible(s, d.0, exclude) && d.1 == env
    ensures NoDup(ms) ==> NoDup(out)
  {
    if |ms| == 0 then []
    else
      var rest := Fan(s, ms[1..], env, exclude);
      assert forall d :: d in rest ==> d.0 in ms[1..];
      (if Eligible(s, ms[0], exclude) then [(ms[0], env)] else []) + rest
  }

  /** `broadcast(roomCode, message, excludeClientId)`: one copy of `env` to each open member
      of the room other than the excluded id, nothing when the room does not exist. */
  function Broadcast(s: Server, code: RoomCode, env: Envelope, exclude: Val): (out: seq<Delivery>)
    ensures code !in s.rooms ==> out == []
    ensures forall d :: d in out <==> code in s.rooms && d.0 in s.rooms[code].members && Eligible(s, d.0, exclude) && d.1 == env
    ensures code in s.rooms && NoDup(s.rooms[code].members) ==> NoDup(out)
  {
    if code in s.rooms then Fan(s, s.rooms[code].members, env, exclude) else []
  }

  /** `ws.send(...)` on the socket that sent the frame; the socket library drops a send on a
      socket that is no longer OPEN. */
  function Direct(s: Server, c: ConnId, env: Envelope): seq<Delivery> {
    if c < |s.sockets| && s.sockets[c].state == Open then [(c, env)] else []
  }

  lemma NoDupConcat<T>(a: seq<T>, b: seq<T>)
    requires NoDup(a) && NoDup(b) && forall x :: x in a ==> x !in b
    ensures NoDup(a + b)
  {
    forall i, j | 0 <= i < j < |a + b|
      ensures (a + b)[i] != (a + b)[j]
    {
      if i < |a| && j >= |a| {
        assert (a + b)[i] in a && (a + b)[j] in b;
      }
    }
  }

  /** The sequence with `c` deleted (JS `Set.prototype.delete`). */
  function Remove(ms: seq<ConnId>, c: ConnId): (r: seq<ConnId>)
    ensures forall x :: x in r <==> x in ms && x != c
    ensures NoDup(ms) ==> NoDup(r)
    ensures |r| <= |ms|
    ensures c !in ms ==> r == ms
  {
    if |ms| == 0 then []
    else if ms[0] == c then Remove(ms[1..], c)
    else
      var rest := Remove(ms[1..], c);
      assert NoDup(ms) ==> ms[0] !in ms[1..];
      [ms[0]] + rest
  }
  /** A set deletes in place: the members before the deleted one and the members after it
      stay where they were. */
  lemma {:induction false} RemoveKeepsOrder(ms: seq<ConnId>, c: ConnId, i: nat)
    requires NoDup(ms) && i < |ms| && ms[i] == c
    ensures Remove(ms, c) == ms[..i] + ms[i + 1..]
  {
    forall j | 0 <= j < |ms| && j != i
      ensures ms[j] != c
    {
      if j < i { assert ms[j] != ms[i]; } else { assert ms[i] != ms[j]; }
    }
    RemoveOnlyAt(ms, c, i);
  }

  /** Induction for `RemoveKeepsOrder`, with `c` known to sit at position `i` only. */
  lemma {:induction false} RemoveOnlyAt(ms: seq<ConnId>, c: ConnId, i: nat)
    requires i < |ms| && ms[i] == c
    requires forall j :: 0 <= j < |ms| && j != i ==> ms[j] != c
    ensures Remove(ms, c) == ms[..i] + ms[i + 1..]
    decreases i
  {
    var tail := ms[1..];
    assert forall j :: 0 <= j < |tail| ==> tail[j] == ms[j + 1];
    if i == 0 {
      assert c !in tail;
      assert ms[..0] + ms[1..] == tail;
    } else {
      assert Remove(ms, c) == [ms[0]] + Remove(tail, c);
      RemoveOnlyAt(tail, c, i - 1);
      SpliceCons(ms, i);
    }
  }

  lemma SpliceCons(ms: seq<ConnId>, i: nat)
    requires 0 < i < |ms|
    ensures ms[..i] + ms[i + 1..] == [ms[0]] + (ms[1..][..i - 1] + ms[1..][i..])
  {
    assert ms[..i] == [ms[0]] + ms[1..][..i - 1];
    assert ms[i + 1..] == ms[1..][i..];
  }





}
