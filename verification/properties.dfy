/** What each handler promises about the registry it leaves and the frames it sends. */
module Properties {
  import opened Js
  import opened Names
  import opened Shuffle
  import opened Protocol
  import opened Registry
  import opened Coordinator
  import opened Invariant

  // ---------------------------------------------------------------------------
  // join-room

  /** The joiner's record is fresh (name twice, no timer, the room code); the room exists,
      keeps its holder and its members in order, and ends with the joiner's socket. */
  lemma JoinRecord(s: Server, c: ConnId, code: Val, k: ClientId, prevent: bool, d: NameDraw)
    requires Resolvable(s) && c < |s.sockets| && InRange(d)
    requires forall code' :: code' in s.rooms ==> c !in s.rooms[code'].members
    ensures var t := JoinRoom(s, c, code, k, prevent, d).0;
      var name := GenerateUsername(d);
      var rc := RoomCodeOf(code);
      && t.clients == s.clients[k := Client(c, name, name, rc, None)]
      && t.sockets[c].clientId == Str(k)
      && rc in t.rooms
      && (rc !in s.rooms ==> t.rooms[rc] == Room([c], None))
      && (rc in s.rooms ==> t.rooms[rc] == Room(s.rooms[rc].members + [c], s.rooms[rc].holder))
      && (forall code' :: code' != rc ==> (code' in t.rooms <==> code' in s.rooms))
  {
    JoinState(s, c, code, k, prevent, d);
    EnrolRecord(s, c, RoomCodeOf(code), k, GenerateUsername(d));
  }

  lemma JoinState(s: Server, c: ConnId, code: Val, k: ClientId, prevent: bool, d: NameDraw)
    requires Resolvable(s) && c < |s.sockets| && InRange(d)
    ensures JoinRoom(s, c, code, k, prevent, d).0 == Enrol(s, c, RoomCodeOf(code), k, GenerateUsername(d))
  {
  }

  lemma EnrolRecord(s: Server, c: ConnId, rc: RoomCode, k: ClientId, name: string)
    requires Resolvable(s) && c < |s.sockets|
    requires forall code' :: code' in s.rooms ==> c !in s.rooms[code'].members
    ensures var t := Enrol(s, c, rc, k, name);
      && t.clients == s.clients[k := Client(c, name, name, rc, None)]
      && t.sockets[c].clientId == Str(k)
      && rc in t.rooms
      && (rc !in s.rooms ==> t.rooms[rc] == Room([c], None))
      && (rc in s.rooms ==> t.rooms[rc] == Room(s.rooms[rc].members + [c], s.rooms[rc].holder))
      && (forall code' :: code' != rc ==> (code' in t.rooms <==> code' in s.rooms))
  {
  }

  // ---------------------------------------------------------------------------
  // content relay

  /** A content frame changes nothing, and its echo carries the name and id the registry holds
      for the sender, not the name the frame claims. */
  lemma RelayKeepsRegistry(s: Server, c: ConnId, id: Val, content: Content, claimed: string, claimed': string)
    requires Valid(s) && Acting(s, c)
    ensures Step(s, ContentFrame(c, id, content, claimed)).0 == s
    ensures Step(s, ContentFrame(c, id, content, claimed)) == Step(s, ContentFrame(c, id, content, claimed'))
  {
  }

  /** Exactly the open members of a registered sender's room hear the echo, the sender's own
      sockets excepted when its id is non-empty; an unknown or roomless sender is dropped. */
  lemma RelayFrames(s: Server, id: Val, content: Content)
    ensures forall x, env :: (x, env) in Relay(s, id, content) <==>
      && id.Str? && id.s in s.clients && s.clients[id.s].room != ""
      && env == Relayed(content, s.clients[id.s].username, id.s)
      && s.clients[id.s].room in s.rooms && x in s.rooms[s.clients[id.s].room].members
      && Eligible(s, x, id)
    ensures Truthy(id) ==> forall d :: d in Relay(s, id, content) ==> s.sockets[d.0].clientId != id
    ensures !(id.Str? && id.s in s.clients && s.clients[id.s].room != "") ==> Relay(s, id, content) == []
  {
  }

  // ---------------------------------------------------------------------------
  // leave-room and close

  /** When the departing record held the status, each open member of its room hears exactly
      one revert carrying the saved name; otherwise nobody hears one. */
  lemma DepartReverts(s: Server, c: ConnId, k: ClientId, notify: bool)
    requires Resolvable(s) && k in s.clients
    ensures var out := DepartOutbox(s, c, k, notify);
      var rec := s.clients[k];
      forall x, e :: (x, e) in out && e.RetardiooRevert? <==>
        Reverts(s, k) && e == RetardiooRevert(k, rec.originalUsername) && x in s.rooms[rec.room].members && Eligible(s, x, Undefined)
  {
  }

  /** The departure notice reaches the open members left behind, never the departing id, and
      only when notification is on. */
  lemma DepartNotice(s: Server, c: ConnId, k: ClientId, notify: bool)
    requires Resolvable(s) && k in s.clients
    ensures var out := DepartOutbox(s, c, k, notify);
      var rec := s.clients[k];
      var left := Remove(s.rooms[rec.room].members, c);
      forall x, m :: (x, RoomStatus(m)) in out <==>
        notify && m == LeaveNotice(rec.username, rec.room) && x in left && Eligible(s, x, Str(k))
  {
  }

  /** The refreshed user list goes out only when the room survives, to its open members, and
      names them in order. */
  lemma DepartList(s: Server, c: ConnId, k: ClientId, notify: bool)
    requires Resolvable(s) && k in s.clients
    ensures var out := DepartOutbox(s, c, k, notify);
      var left := Remove(s.rooms[s.clients[k].room].members, c);
      && (forall i :: 0 <= i < |left| ==> Registered(s, left[i]))
      && (forall x, u :: (x, UserList(u)) in out <==> |left| > 0 && x in left && Eligible(s, x, Undefined) && u == NamesOf(s, left))
  {
    var a, b, l := RevertFrames(s, k), NoticeFrames(s, c, k, notify), ListFrames(s, c, k);
    forall x, u
      ensures (x, UserList(u)) in a + b + l <==> (x, UserList(u)) in l
    {
      assert (x, UserList(u)) !in a && (x, UserList(u)) !in b;
    }
  }

  /** No socket hears the same frame twice. */
  lemma DepartOnce(s: Server, c: ConnId, k: ClientId, notify: bool)
    requires Resolvable(s) && k in s.clients && NoDup(s.rooms[s.clients[k].room].members)
    ensures NoDup(DepartOutbox(s, c, k, notify))
  {
    var a := RevertFrames(s, k);
    var b := NoticeFrames(s, c, k, notify);
    var l := ListFrames(s, c, k);
    NoDupConcat(a, b);
    NoDupConcat(a + b, l);
  }

  /** The registry after the cleanup: the record is gone, its socket sits in no room, a room
      left empty is deleted, a pending timer is cancelled and the room no longer names the
      record as holder. */
  lemma DepartRegistry(s: Server, c: ConnId, k: ClientId)
    requires Valid(s) && k in s.clients && s.clients[k].socket == c
    ensures Resolvable(s)
    ensures var u := Vacate(s, c, k);
      var rec := s.clients[k];
      && Valid(u)
      && u.clients == s.clients - {k}
      && (forall code :: code in u.rooms ==> c !in u.rooms[code].members)
      && (rec.room in u.rooms <==> |Remove(s.rooms[rec.room].members, c)| > 0)
      && (rec.timer.Some? ==> rec.timer.value !in u.timers)
      && (rec.room in u.rooms ==> u.rooms[rec.room].holder != Some(k))
  {
    ConsistentResolvable(s);
    assert ClientOk(s, k);
    VacateFields(s, c, k);
    VacatedOutside(s, c, k);
    DepartValid(s, c, k);
  }

  /** The browser's leave frame names no client, so the server does nothing with it. */
  lemma AnonymousLeaveIsQuiet(s: Server, c: ConnId, prevent: bool)
    requires Valid(s) && Acting(s, c)
    ensures Step(s, LeaveFrame(c, Undefined, prevent)) == (s, [])
  {
  }

  /** Closing a socket that carries no registered id only marks it closed. */
  lemma UnregisteredCloseIsQuiet(s: Server, c: ConnId)
    requires Valid(s) && Acting(s, c) && !Registered(s, c)
    ensures Step(s, CloseEvent(c)) == (MarkClosed(s, c), [])
  {
  }

  /** Closing a registered socket runs the cleanup for its record with notification on. */
  lemma CloseDeparts(s: Server, c: ConnId)
    requires Valid(s) && Acting(s, c) && Registered(s, c)
    ensures Resolvable(s) && Resolvable(MarkClosed(s, c))
    ensures ClientOf(s, c) in s.clients && s.clients[ClientOf(s, c)].socket == c
    ensures Step(s, CloseEvent(c)) == Depart(MarkClosed(s, c), c, ClientOf(s, c), true)
  {
    ConsistentResolvable(s);
    MarkClosedResolvable(s, c);
    StepClose(s, c);
    OwnSocket(s, c);
    CloseOf(s, c, ClientOf(s, c));
  }

  lemma StepClose(s: Server, c: ConnId)
    requires Valid(s) && Acting(s, c)
    ensures Resolvable(s)
    ensures Step(s, CloseEvent(c)) == Close(s, c)
  {
    ConsistentResolvable(s);
  }

  /** A registered socket that can still act is the socket of the record it names. */
  lemma OwnSocket(s: Server, c: ConnId)
    requires Valid(s) && Acting(s, c) && Registered(s, c)
    ensures ClientOf(s, c) in s.clients && s.clients[ClientOf(s, c)].socket == c && s.clients[ClientOf(s, c)].room != ""
  {
    assert ClientOk(s, ClientOf(s, c));
  }

  lemma CloseOf(s: Server, c: ConnId, k: ClientId)
    requires Resolvable(s) && c < |s.sockets| && s.sockets[c].clientId == Str(k) && k in s.clients && s.clients[k].room != ""
    ensures Resolvable(MarkClosed(s, c))
    ensures Close(s, c) == Depart(MarkClosed(s, c), c, k, true)
  {
    MarkClosedResolvable(s, c);
  }

  /** Once a socket's record has left, the socket's later close finds no record: it sends
      nothing and changes nothing but the ready state. */
  lemma CloseAfterLeaveIsQuiet(s: Server, c: ConnId, prevent: bool)
    requires Valid(s) && Acting(s, c) && Registered(s, c)
    ensures var e := LeaveFrame(c, s.sockets[c].clientId, prevent);
      Admissible(s, e) && Cooperative(s, e)
    ensures var u := Step(s, LeaveFrame(c, s.sockets[c].clientId, prevent)).0;
      Valid(u) && Admissible(u, CloseEvent(c)) && Step(u, CloseEvent(c)) == (MarkClosed(u, c), [])
  {
    ConsistentResolvable(s);
    var k := ClientOf(s, c);
    assert s.clients[k].socket == c;
    assert ClientOk(s, k);
    DepartRegistry(s, c, k);
    var u := Vacate(s, c, k);
    VacateFields(s, c, k);
    assert Step(s, LeaveFrame(c, s.sockets[c].clientId, prevent)).0 == u;
    assert !Registered(u, c);
  }

  /** After the holder departs, its cancelled timer firing does nothing: the one revert the
      cleanup sent is the only one. */
  lemma CancelledTimerIsQuiet(s: Server, c: ConnId, k: ClientId, tt: TimerId)
    requires Valid(s) && k in s.clients && s.clients[k].socket == c && s.clients[k].timer == Some(tt)
    ensures Resolvable(s)
    ensures var u := Vacate(s, c, k); Valid(u) && Step(u, TimerFires(tt)) == (u, [])
  {
    DepartRegistry(s, c, k);
  }

  // ---------------------------------------------------------------------------
  // retardioo and its timer

  /** The requester of a grant, seen through its registered record. */
  predicate Requests(s: Server, id: Val) {
    id.Str? && id.s in s.clients && s.clients[id.s].room in s.rooms
  }

  lemma StepRequest(s: Server, c: ConnId, id: Val, pick: nat -> nat)
    requires Valid(s) && Acting(s, c) && PickInRange(pick)
    ensures Resolvable(s)
    ensures Step(s, RetardiooFrame(c, id, pick)) == RequestRetardioo(AsWritten, s, c, id, pick)
    ensures Step(s, RetardiooFrame(c, id, pick)) == RequestRetardioo(Corrected, s, c, id, pick)
  {
    ConsistentResolvable(s);
    GuardsAgree(s, c, id, pick);
  }

  /** While the room has a holder, a request changes nothing and only the requesting socket
      hears the refusal. */
  lemma GrantRefused(s: Server, c: ConnId, id: Val, pick: nat -> nat)
    requires Valid(s) && Acting(s, c) && PickInRange(pick)
    requires Requests(s, id) && s.rooms[s.clients[id.s].room].holder.Some?
    ensures var r := Step(s, RetardiooFrame(c, id, pick));
      && r.0 == s
      && (forall d :: d in r.1 <==> d == (c, RoomStatus(AlreadyHeldNotice)) && s.sockets[c].state == Open)
  {
    StepRequest(s, c, id, pick);
    assert ClientOk(s, id.s);
  }

  /** Without a holder, the grant goes to the record of the socket the shuffle puts first,
      which is a member of the requester's room. */
  lemma GrantChooses(s: Server, c: ConnId, id: Val, pick: nat -> nat)
    requires Valid(s) && Acting(s, c) && PickInRange(pick)
    requires Requests(s, id) && s.rooms[s.clients[id.s].room].holder.None?
    ensures var code := s.clients[id.s].room;
      var ms := s.rooms[code].members;
      && |ms| > 0
      && var chosen := ShuffleArray(ms, pick)[0];
      && chosen in ms && MemberOk(s, code, chosen) && ListableRoom(s, code)
      && Step(s, RetardiooFrame(c, id, pick)) == Grant(s, code, ClientOf(s, chosen))
  {
    StepRequest(s, c, id, pick);
    assert ClientOk(s, id.s);
    var code := s.clients[id.s].room;
    var ms := s.rooms[code].members;
    assert ms[0] == ms[0];
    var chosen := ShuffleArray(ms, pick)[0];
    assert chosen in multiset(ms);
    MembersOk(s, code);
  }

  /** Every member of the room, the requester included, is the one granted for some draw. */
  lemma AnyMemberCanBeGranted(s: Server, c: ConnId, id: Val, i: nat)
    requires Valid(s) && Acting(s, c)
    requires Requests(s, id) && s.rooms[s.clients[id.s].room].holder.None?
    requires i < |s.rooms[s.clients[id.s].room].members|
    ensures var code := s.clients[id.s].room;
      var m := s.rooms[code].members[i];
      var pick: nat -> nat := n => if n == i then 0 else n;
      && PickInRange(pick) && ListableRoom(s, code) && Registered(s, m)
      && Step(s, RetardiooFrame(c, id, pick)) == Grant(s, code, ClientOf(s, m))
  {
    var code := s.clients[id.s].room;
    var pick: nat -> nat := n => if n == i then 0 else n;
    AnyElementCanLead(s.rooms[code].members, i);
    GrantChooses(s, c, id, pick);
  }

  /** The grant renames exactly one record, saves its name, names it as holder and starts a
      fresh timer that will restore that name; nothing else in the registry moves. */
  lemma GrantRenamesOne(s: Server, code: RoomCode, j: ClientId)
    requires Valid(s) && code in s.rooms && s.rooms[code].holder.None?
    requires j in s.clients && s.clients[j].room == code
    ensures ListableRoom(s, code)
    ensures var t := Grant(s, code, j).0;
      var n := s.nextTimer;
      && Valid(t)
      && t.clients.Keys == s.clients.Keys
      && (forall k :: k in s.clients && k != j ==> t.clients[k] == s.clients[k])
      && t.clients[j].username == SpecialName && s.clients[j].username != SpecialName
      && t.clients[j].originalUsername == s.clients[j].username
      && t.rooms[code].holder == Some(j)
      && n !in s.timers && t.clients[j].timer == Some(n)
      && t.timers == s.timers[n := Timeout(j, s.clients[j].username, code)]
      && t.sockets == s.sockets
  {
    GrantValid(s, code, j);
    assert ClientOk(s, j);
    FreshTimer(s);
  }

  /** The timer restores the exact name saved at the grant, drops the handle and the holder,
      and is spent; nothing else in the registry moves. */
  lemma TimerRestores(s: Server, tt: TimerId)
    requires Valid(s) && tt in s.timers
    ensures Resolvable(s)
    ensures var h := s.timers[tt].holder;
      var u := FireTimer(s, tt).0;
      && h in s.clients && h in u.clients
      && s.timers[tt].originalUsername == s.clients[h].originalUsername
      && u.clients[h].username == s.clients[h].originalUsername != SpecialName
      && u.clients[h].timer.None?
      && s.timers[tt].room in u.rooms && u.rooms[s.timers[tt].room].holder.None?
      && u.timers == s.timers - {tt}
      && (forall k :: k in s.clients && k != h ==> u.clients[k] == s.clients[k])
      && Valid(u)
  {
    FireValid(s, tt);
    assert TimerOk(s, tt);
    assert ClientOk(s, s.timers[tt].holder);
  }

  /** A timer that is not pending (never started, already fired, or cancelled) does nothing. */
  lemma StaleTimerIsQuiet(s: Server, tt: TimerId)
    requires Valid(s) && tt !in s.timers
    ensures Step(s, TimerFires(tt)) == (s, [])
  {
  }

  /** In every valid registry a room has at most one pending timer, and the records named
      `Retardioo` are exactly the holders, one per room at most. */
  lemma SingleHolder(s: Server)
    requires Valid(s)
    ensures forall t1, t2 :: t1 in s.timers && t2 in s.timers && s.timers[t1].room == s.timers[t2].room ==> t1 == t2
    ensures forall k :: k in s.clients ==> (s.clients[k].username == SpecialName <==> s.clients[k].timer.Some?)
    ensures forall k :: k in s.clients && s.clients[k].username == SpecialName ==> s.rooms[s.clients[k].room].holder == Some(k)
  {
    forall t1, t2 | t1 in s.timers && t2 in s.timers && s.timers[t1].room == s.timers[t2].room
      ensures t1 == t2
    {
      assert TimerOk(s, t1) && TimerOk(s, t2);
      assert ClientOk(s, s.timers[t1].holder) && ClientOk(s, s.timers[t2].holder);
    }
    forall k | k in s.clients
      ensures s.clients[k].username == SpecialName <==> s.clients[k].timer.Some?
      ensures s.clients[k].username == SpecialName ==> s.rooms[s.clients[k].room].holder == Some(k)
    {
      assert ClientOk(s, k);
    }
  }

  // ---------------------------------------------------------------------------
  // Names are not reserved

  /** Two open sockets that have not joined yet. */
  const TwoSockets := Server([Socket(Open, Undefined), Socket(Open, Undefined)], map[], map[], map[], 0)

  function OneJoined(name: string): Server {
    Server([Socket(Open, Str("a")), Socket(Open, Undefined)], map["a" := Client(0, name, name, "R", None)],
      map["R" := Room([0], None)], map[], 0)
  }

  function BothJoined(name: string): Server {
    Server([Socket(Open, Str("a")), Socket(Open, Str("b"))],
      map["a" := Client(0, name, name, "R", None), "b" := Client(1, name, name, "R", None)],
      map["R" := Room([0, 1], None)], map[], 0)
  }

  lemma FirstJoin(d: NameDraw)
    requires InRange(d)
    ensures Valid(TwoSockets) && Resolvable(TwoSockets)
    ensures var e := JoinFrame(0, Str("R"), "a", false, d);
      Admissible(TwoSockets, e) && Cooperative(TwoSockets, e) && Step(TwoSockets, e).0 == OneJoined(GenerateUsername(d))
  {
    TwoSocketsValid();
    FirstAdmitted(d);
    FirstState(d);
  }

  lemma FirstAdmitted(d: NameDraw)
    requires InRange(d)
    ensures var e := JoinFrame(0, Str("R"), "a", false, d);
      Admissible(TwoSockets, e) && Cooperative(TwoSockets, e)
  {
  }

  lemma FirstState(d: NameDraw)
    requires InRange(d)
    ensures Step(TwoSockets, JoinFrame(0, Str("R"), "a", false, d)).0 == OneJoined(GenerateUsername(d))
  {
    TwoSocketsValid();
    StepJoinState(TwoSockets, 0, Str("R"), "a", false, d);
    FirstEnrol(GenerateUsername(d));
  }

  lemma TwoSocketsValid()
    ensures Valid(TwoSockets) && Resolvable(TwoSockets)
  {
    assert Valid(TwoSockets);
    ConsistentResolvable(TwoSockets);
  }

  lemma FirstEnrol(name: string)
    requires Resolvable(TwoSockets)
    ensures Enrol(TwoSockets, 0, "R", "a", name) == OneJoined(name)
  {
    var t := Enrol(TwoSockets, 0, "R", "a", name);
    assert [] + [0] == [0];
    assert t.rooms == map["R" := Room([0], None)];
    assert t.sockets == [Socket(Open, Str("a")), Socket(Open, Undefined)];
  }

  lemma SecondEnrol(name: string)
    requires Resolvable(OneJoined(name))
    ensures Enrol(OneJoined(name), 1, "R", "b", name) == BothJoined(name)
  {
    var t := Enrol(OneJoined(name), 1, "R", "b", name);
    assert [0] + [1] == [0, 1];
    assert t.rooms == map["R" := Room([0, 1], None)];
    assert t.sockets == [Socket(Open, Str("a")), Socket(Open, Str("b"))];
  }

  lemma StepJoinState(s: Server, c: ConnId, code: Val, k: ClientId, prevent: bool, d: NameDraw)
    requires Valid(s) && Acting(s, c) && InRange(d)
    ensures Resolvable(s)
    ensures Step(s, JoinFrame(c, code, k, prevent, d)).0 == Enrol(s, c, RoomCodeOf(code), k, GenerateUsername(d))
  {
    ConsistentResolvable(s);
    JoinState(s, c, code, k, prevent, d);
  }

  lemma OneJoinedValid(name: string)
    requires name != SpecialName
    ensures Valid(OneJoined(name)) && Resolvable(OneJoined(name))
  {
    var s := OneJoined(name);
    assert Registered(s, 0);
    assert ClientOk(s, "a");
    ConsistentResolvable(s);
  }

  lemma SecondJoin(d: NameDraw, name: string)
    requires InRange(d) && name == GenerateUsername(d)
    ensures Valid(OneJoined(name))
    ensures var e := JoinFrame(1, Str("R"), "b", false, d);
      Admissible(OneJoined(name), e) && Cooperative(OneJoined(name), e) && Step(OneJoined(name), e).0 == BothJoined(name)
  {
    OneJoinedValid(name);
    SecondAdmitted(d, name);
    SecondState(d, name);
  }

  lemma SecondAdmitted(d: NameDraw, name: string)
    requires InRange(d)
    ensures var e := JoinFrame(1, Str("R"), "b", false, d);
      Admissible(OneJoined(name), e) && Cooperative(OneJoined(name), e)
  {
    assert !Registered(OneJoined(name), 1);
  }

  lemma SecondState(d: NameDraw, name: string)
    requires InRange(d) && name == GenerateUsername(d)
    ensures Step(OneJoined(name), JoinFrame(1, Str("R"), "b", false, d)).0 == BothJoined(name)
  {
    OneJoinedValid(name);
    StepJoinState(OneJoined(name), 1, Str("R"), "b", false, d);
    SecondEnrol(name);
  }

  /** Two joins to one room that draw the same name both get it: the user list shows it twice. */
  lemma NamesMayCollide(d: NameDraw)
    requires InRange(d)
    ensures Valid(TwoSockets)
    ensures var e1 := JoinFrame(0, Str("R"), "a", false, d);
      Admissible(TwoSockets, e1) && Cooperative(TwoSockets, e1)
      && var t1 := Step(TwoSockets, e1).0;
      var e2 := JoinFrame(1, Str("R"), "b", false, d);
      && Valid(t1) && Admissible(t1, e2) && Cooperative(t1, e2)
      && var t2 := Step(t1, e2).0;
      && ListableRoom(t2, "R")
      && Users(t2, "R") == [GenerateUsername(d), GenerateUsername(d)]
  {
    var name := GenerateUsername(d);
    FirstJoin(d);
    SecondJoin(d, name);
    BothListed(name);
  }

  lemma BothListed(name: string)
    ensures ListableRoom(BothJoined(name), "R") && Users(BothJoined(name), "R") == [name, name]
  {
    var b := BothJoined(name);
    assert Registered(b, 0) && Registered(b, 1);
  }

  // ---------------------------------------------------------------------------
  // A rejoin before the old socket's close

  /** The registry after socket 1 joins under the id `a` that socket 0 still carries: the
      record now points at socket 1, and both sockets sit in the room. */
  function Rejoined(name: string): Server {
    Server([Socket(Open, Str("a")), Socket(Open, Str("a"))], map["a" := Client(1, name, name, "R", None)],
      map["R" := Room([0, 1], None)], map[], 0)
  }

  /** After the old socket's close has run the cleanup for `a`: the new socket is left in the
      room without a record. */
  const Orphaned := Server([Socket(Closed, Str("a")), Socket(Open, Str("a"))], map[],
    map["R" := Room([1], None)], map[], 0)

  /** A page that lost its connection opens a new socket and joins again with its one id
      before the server has seen the old socket close. The join overwrites the record; the
      old socket's close then finds that record through the id it carries, deletes it, and
      leaves the new socket in the room with no record, so the room's user list can no longer
      be built. */
  lemma RejoinBeforeClose(d: NameDraw, name: string)
    requires InRange(d) && name == GenerateUsername(d)
    ensures Valid(OneJoined(name))
    ensures var e := JoinFrame(1, Str("R"), "a", false, d);
      && Admissible(OneJoined(name), e) && !Cooperative(OneJoined(name), e)
      && var t := Step(OneJoined(name), e).0;
      && t == Rejoined(name) && !Valid(t) && Resolvable(t)
      && Close(t, 0).0 == Orphaned
      && "R" in Orphaned.rooms && !ListableRoom(Orphaned, "R")
  {
    OneJoinedValid(name);
    RejoinState(d, name);
    RejoinedResolvable(name);
    CloseOld(name);
    assert !Registered(Orphaned, 1);
  }

  lemma RejoinState(d: NameDraw, name: string)
    requires InRange(d) && name == GenerateUsername(d)
    ensures Valid(OneJoined(name))
    ensures Step(OneJoined(name), JoinFrame(1, Str("R"), "a", false, d)).0 == Rejoined(name)
  {
    OneJoinedValid(name);
    StepJoinState(OneJoined(name), 1, Str("R"), "a", false, d);
    RejoinEnrol(name);
  }

  lemma RejoinEnrol(name: string)
    requires Resolvable(OneJoined(name))
    ensures Enrol(OneJoined(name), 1, "R", "a", name) == Rejoined(name)
  {
    var t := Enrol(OneJoined(name), 1, "R", "a", name);
    assert [0] + [1] == [0, 1];
    assert t.rooms == map["R" := Room([0, 1], None)];
    assert t.sockets == [Socket(Open, Str("a")), Socket(Open, Str("a"))];
  }

  lemma RejoinedResolvable(name: string)
    ensures Resolvable(Rejoined(name)) && !Valid(Rejoined(name))
  {
    var s := Rejoined(name);
    assert Registered(s, 0) && Registered(s, 1);
    assert s.sockets[0].state == Open && s.sockets[0].clientId == Str("a") && s.clients["a"].socket == 1;
    assert !SocketsOwnRecords(s);
  }

  lemma CloseOld(name: string)
    requires Resolvable(Rejoined(name))
    ensures Close(Rejoined(name), 0).0 == Orphaned
  {
    var s := Rejoined(name);
    var s0 := MarkClosed(s, 0);
    MarkClosedResolvable(s, 0);
    assert s0.sockets == [Socket(Closed, Str("a")), Socket(Open, Str("a"))];
    assert Cancel(s0, "a") == s0;
    assert Remove([0, 1], 0) == [1] by {
      assert [0, 1][1..] == [1];
      assert Remove([1], 0) == [1];
    }
    assert Vacate(s0, 0, "a") == Orphaned;
  }
}
