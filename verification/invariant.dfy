/** The registry invariant `Valid` holds in the empty registry and every handler keeps it,
    for events a well-behaved browser can send. */
module Invariant {
  import opened Js
  import opened Names
  import opened Shuffle
  import opened Protocol
  import opened Registry
  import opened Coordinator

  /** What the handlers rely on but do not check: a join names a non-empty id that no record
      holds, from a socket that holds no registration, and nobody else's open socket carries
      that id; a leave frame that names a registered id comes from that id's own socket. The
      browser's leave frame carries no id, and its id is a non-empty random string; but the
      id is fixed for the whole page and sent again from every new socket, so a rejoin made
      before the server has seen the old socket close breaks the join condition. */
  ghost predicate Cooperative(s: Server, e: Event) {
    match e
    case JoinFrame(c, _, k, _, _) =>
      && k !in s.clients
      && k != ""
      && !Registered(s, c)
      && (forall c' :: 0 <= c' < |s.sockets| && c' != c && s.sockets[c'].state != Closed ==> s.sockets[c'].clientId != Str(k))
    case LeaveFrame(c, id, _) => id.Str? && id.s in s.clients ==> s.clients[id.s].socket == c
    case _ => true
  }

  // ---------------------------------------------------------------------------
  // Frames

  /** Registrations and memberships depend only on socket ids and on where records point. */
  lemma SamePlaces(s: Server, t: Server)
    requires t.sockets == s.sockets && t.clients.Keys == s.clients.Keys
    requires forall k :: k in s.clients ==> t.clients[k].socket == s.clients[k].socket && t.clients[k].room == s.clients[k].room
    ensures forall c :: Registered(t, c) == Registered(s, c)
    ensures forall code, c :: MemberOk(t, code, c) == MemberOk(s, code, c)
    ensures SocketsOwnRecords(t) == SocketsOwnRecords(s)
  {
  }

  /** The next timer handle is not in use. */
  lemma FreshTimer(s: Server)
    requires Valid(s)
    ensures s.nextTimer !in s.timers
  {
    forall t | t in s.timers
      ensures t != s.nextTimer
    {
      assert TimerOk(s, t);
    }
  }

  lemma EmptyValid()
    ensures Valid(Empty)
  {
  }

  // ---------------------------------------------------------------------------
  // The grant and the timer

  lemma GrantValid(s: Server, code: RoomCode, j: ClientId)
    requires Valid(s) && code in s.rooms && s.rooms[code].holder.None?
    requires j in s.clients && s.clients[j].room == code
    ensures ListableRoom(s, code)
    ensures Valid(Crown(s, code, j))
  {
    ConsistentResolvable(s);
    var t := Crown(s, code, j);
    SamePlaces(s, t);
    CrownRooms(s, code, j);
    CrownClients(s, code, j);
    CrownTimers(s, code, j);
  }

  /** The registry after the grant to `j` in room `code`, field by field. */
  ghost predicate CrownShape(s: Server, code: RoomCode, j: ClientId, t: Server)
    requires j in s.clients && code in s.rooms
  {
    var chosen := s.clients[j];
    && t.sockets == s.sockets
    && t.clients == s.clients[j := chosen.(username := SpecialName, originalUsername := chosen.username, timer := Some(s.nextTimer))]
    && t.rooms == s.rooms[code := s.rooms[code].(holder := Some(j))]
    && t.timers == s.timers[s.nextTimer := Timeout(j, chosen.username, code)]
    && t.nextTimer == s.nextTimer + 1
  }

  lemma CrownShaped(s: Server, code: RoomCode, j: ClientId)
    requires ListableRoom(s, code) && j in s.clients
    ensures CrownShape(s, code, j, Crown(s, code, j))
  {
  }

  lemma CrownRooms(s: Server, code: RoomCode, j: ClientId)
    requires Valid(s) && ListableRoom(s, code) && j in s.clients && s.clients[j].room == code
    ensures var t := Crown(s, code, j); forall code' :: code' in t.rooms ==> RoomOk(t, code')
  {
    var t := Crown(s, code, j);
    CrownShaped(s, code, j);
    forall code' | code' in t.rooms
      ensures RoomOk(t, code')
    {
      CrownRoom(s, code, j, t, code');
    }
  }

  lemma CrownRoom(s: Server, code: RoomCode, j: ClientId, t: Server, code': RoomCode)
    requires j in s.clients && code in s.rooms && s.clients[j].room == code && CrownShape(s, code, j, t)
    requires code' in s.rooms && RoomOk(s, code')
    ensures code' in t.rooms && RoomOk(t, code')
  {
    SamePlaces(s, t);
  }

  lemma CrownClients(s: Server, code: RoomCode, j: ClientId)
    requires Valid(s) && ListableRoom(s, code) && s.rooms[code].holder.None?
    requires j in s.clients && s.clients[j].room == code
    ensures var t := Crown(s, code, j); forall k :: k in t.clients ==> ClientOk(t, k)
  {
    var t := Crown(s, code, j);
    CrownShaped(s, code, j);
    FreshTimer(s);
    forall k | k in t.clients
      ensures ClientOk(t, k)
    {
      CrownClient(s, code, j, t, k);
    }
  }

  lemma CrownClient(s: Server, code: RoomCode, j: ClientId, t: Server, k: ClientId)
    requires j in s.clients && code in s.rooms && s.clients[j].room == code && CrownShape(s, code, j, t)
    requires s.rooms[code].holder.None? && s.nextTimer !in s.timers && ClientOk(s, j)
    requires k in s.clients && ClientOk(s, k)
    ensures k in t.clients && ClientOk(t, k)
  {
    if k != j && s.clients[k].room == code {
      assert s.clients[k].timer.None?;
    }
  }

  lemma CrownTimers(s: Server, code: RoomCode, j: ClientId)
    requires Valid(s) && ListableRoom(s, code) && s.rooms[code].holder.None?
    requires j in s.clients && s.clients[j].room == code
    ensures var t := Crown(s, code, j); forall tt :: tt in t.timers ==> TimerOk(t, tt)
  {
    var t := Crown(s, code, j);
    assert ClientOk(s, j);
    forall tt | tt in t.timers
      ensures TimerOk(t, tt)
    {
      if tt != s.nextTimer {
        assert TimerOk(s, tt);
      }
    }
  }

  lemma FireValid(s: Server, tt: TimerId)
    requires Valid(s) && tt in s.timers
    ensures Resolvable(s)
    ensures Valid(Uncrown(s, tt))
  {
    ConsistentResolvable(s);
    var t := Uncrown(s, tt);
    SamePlaces(s, t);
    UncrownRooms(s, tt);
    UncrownClients(s, tt);
    UncrownTimers(s, tt);
  }

  lemma UncrownRooms(s: Server, tt: TimerId)
    requires Valid(s) && Resolvable(s) && tt in s.timers
    ensures var t := Uncrown(s, tt); forall code :: code in t.rooms ==> RoomOk(t, code)
  {
    var t := Uncrown(s, tt);
    SamePlaces(s, t);
    forall code | code in t.rooms
      ensures RoomOk(t, code)
    {
      assert RoomOk(s, code);
    }
  }

  lemma UncrownClients(s: Server, tt: TimerId)
    requires Valid(s) && Resolvable(s) && tt in s.timers
    ensures var t := Uncrown(s, tt); forall k :: k in t.clients ==> ClientOk(t, k)
  {
    var t := Uncrown(s, tt);
    var h := s.timers[tt].holder;
    assert TimerOk(s, tt);
    assert ClientOk(s, h);
    forall k | k in t.clients
      ensures ClientOk(t, k)
    {
      assert ClientOk(s, k);
    }
  }

  lemma UncrownTimers(s: Server, tt: TimerId)
    requires Valid(s) && Resolvable(s) && tt in s.timers
    ensures var t := Uncrown(s, tt); forall t' :: t' in t.timers ==> TimerOk(t, t')
  {
    var t := Uncrown(s, tt);
    assert TimerOk(s, tt);
    forall t' | t' in t.timers
      ensures TimerOk(t, t')
    {
      assert TimerOk(s, t');
      UncrownTimer(s, tt, t');
    }
  }

  /** Another timer survives the firing, and so does its holder's claim to it. */
  lemma UncrownTimer(s: Server, tt: TimerId, t': TimerId)
    requires Resolvable(s) && tt in s.timers && TimerOk(s, tt)
    requires t' in s.timers && t' != tt && TimerOk(s, t')
    ensures TimerOk(Uncrown(s, tt), t')
  {
    assert s.timers[t'].holder != s.timers[tt].holder;
  }

  // ---------------------------------------------------------------------------
  // Departure

  /** What the cleanup does to the registry, field by field. */
  lemma VacateFields(s: Server, c: ConnId, k: ClientId)
    requires Resolvable(s) && k in s.clients
    requires s.clients[k].timer.Some? <==> s.rooms[s.clients[k].room].holder == Some(k)
    ensures var u := Vacate(s, c, k);
      var rec := s.clients[k];
      var code := rec.room;
      var members := Remove(s.rooms[code].members, c);
      && u.sockets == s.sockets
      && u.clients == s.clients - {k}
      && u.timers == (if rec.timer.Some? then s.timers - {rec.timer.value} else s.timers)
      && u.nextTimer == s.nextTimer
      && (forall code' :: code' != code ==> (code' in u.rooms <==> code' in s.rooms))
      && (forall code' :: code' != code && code' in u.rooms ==> u.rooms[code'] == s.rooms[code'])
      && (code in u.rooms <==> |members| > 0)
      && (code in u.rooms ==> u.rooms[code].members == members)
      && (code in u.rooms ==> u.rooms[code].holder == if rec.timer.Some? then None else s.rooms[code].holder)
  {
    var rec := s.clients[k];
    var code := rec.room;
    var s2 := Cancel(s, k);
    assert s2.sockets == s.sockets && s2.nextTimer == s.nextTimer;
    assert s2.clients.Keys == s.clients.Keys;
    assert s2.timers == (if rec.timer.Some? then s.timers - {rec.timer.value} else s.timers);
    assert forall code' :: code' != code && code' in s2.rooms ==> s2.rooms[code'] == s.rooms[code'];
    assert s2.rooms[code].members == s.rooms[code].members;
    assert s2.rooms[code].holder == if rec.timer.Some? then None else s.rooms[code].holder;
  }

  lemma DepartValid(s: Server, c: ConnId, k: ClientId)
    requires Valid(s) && Resolvable(s) && k in s.clients && s.clients[k].socket == c
    ensures Valid(Vacate(s, c, k))
  {
    var u := Vacate(s, c, k);
    assert ClientOk(s, k);
    VacateFields(s, c, k);
    VacateRooms(s, c, k, u);
    VacateClients(s, c, k, u);
    VacateTimers(s, c, k, u);
    assert SocketsOwnRecords(u);
    assert LiveMembers(u) by {
      forall code, i | code in u.rooms && 0 <= i < |u.rooms[code].members|
        ensures u.rooms[code].members[i] < |u.sockets| && u.sockets[u.rooms[code].members[i]].state != Closed
      {
        assert u.rooms[code].members[i] in s.rooms[code].members;
      }
    }
  }

  /** The hypotheses the clause lemmas below share: `u` is the registry after `k` on socket
      `c` departs from `s`. */
  ghost predicate Vacated(s: Server, c: ConnId, k: ClientId, u: Server)
    requires k in s.clients && s.clients[k].room in s.rooms
  {
    && Valid(s) && s.clients[k].socket == c && ClientOk(s, k)
    && VacateShape(s, c, k, u)
  }

  /** The registry after the cleanup of record `k` and socket `c`, field by field. */
  ghost predicate VacateShape(s: Server, c: ConnId, k: ClientId, u: Server)
    requires k in s.clients && s.clients[k].room in s.rooms
  {
    var rec := s.clients[k];
    var code := rec.room;
    var members := Remove(s.rooms[code].members, c);
    && u.sockets == s.sockets
    && u.clients == s.clients - {k}
    && u.timers == (if rec.timer.Some? then s.timers - {rec.timer.value} else s.timers)
    && u.nextTimer == s.nextTimer
    && (forall code' :: code' != code ==> (code' in u.rooms <==> code' in s.rooms))
    && (forall code' :: code' != code && code' in u.rooms ==> u.rooms[code'] == s.rooms[code'])
    && (code in u.rooms <==> |members| > 0)
    && (code in u.rooms ==> u.rooms[code].members == members)
    && (code in u.rooms ==> u.rooms[code].holder == if rec.timer.Some? then None else s.rooms[code].holder)
  }

  lemma VacateRooms(s: Server, c: ConnId, k: ClientId, u: Server)
    requires k in s.clients && s.clients[k].room in s.rooms && Vacated(s, c, k, u)
    ensures forall code :: code in u.rooms ==> RoomOk(u, code)
  {
    forall code' | code' in u.rooms
      ensures RoomOk(u, code')
    {
      VacateRoom(s, c, k, u, code');
    }
  }

  /** The departing socket sits only in its own record's room. */
  lemma OnlyOwnRoom(s: Server, c: ConnId, k: ClientId, code: RoomCode)
    requires Valid(s) && k in s.clients && s.clients[k].socket == c && ClientOk(s, k)
    requires code in s.rooms && c in s.rooms[code].members
    ensures s.clients[k].room == code
  {
    assert RoomOk(s, code);
    var i :| 0 <= i < |s.rooms[code].members| && s.rooms[code].members[i] == c;
    assert MemberOk(s, code, c);
  }

  lemma VacateRoom(s: Server, c: ConnId, k: ClientId, u: Server, code': RoomCode)
    requires k in s.clients && s.clients[k].room in s.rooms && Vacated(s, c, k, u)
    requires code' in u.rooms
    ensures RoomOk(u, code')
  {
    var code := s.clients[k].room;
    assert code' in s.rooms && RoomOk(s, code');
    var h := u.rooms[code'].holder;
    if code' == code {
      assert ClientOk(s, k);
      assert h.Some? ==> h.value in s.clients && s.clients[h.value].room == code' && h.value != k;
    } else {
      assert u.rooms[code'] == s.rooms[code'];
      forall m | m in u.rooms[code'].members
        ensures m in s.rooms[code'].members && m != c
      {
        if m == c {
          OnlyOwnRoom(s, c, k, code');
        }
      }
      assert h.Some? ==> h.value in s.clients && s.clients[h.value].room == code' && h.value != k;
    }
    RoomCarries(s, u, c, k, code');
  }

  /** A room whose members and holder all survive the removal of client `k` and its socket `c`
      stays well formed. */
  lemma RoomCarries(s: Server, u: Server, c: ConnId, k: ClientId, code': RoomCode)
    requires code' in s.rooms && code' in u.rooms && RoomOk(s, code')
    requires k in s.clients && s.clients[k].socket == c
    requires u.sockets == s.sockets && u.clients == s.clients - {k}
    requires |u.rooms[code'].members| > 0 && NoDup(u.rooms[code'].members)
    requires forall m :: m in u.rooms[code'].members ==> m in s.rooms[code'].members && m != c
    requires var h := u.rooms[code'].holder;
      h.Some? ==> h.value in s.clients && s.clients[h.value].room == code' && h.value != k
    ensures RoomOk(u, code')
  {
    var ms := u.rooms[code'].members;
    forall i | 0 <= i < |ms|
      ensures MemberOk(u, code', ms[i])
    {
      var m := ms[i];
      assert m in s.rooms[code'].members;
      var i' :| 0 <= i' < |s.rooms[code'].members| && s.rooms[code'].members[i'] == m;
      assert MemberOk(s, code', m);
      assert ClientOf(s, m) != k;
    }
  }

  lemma VacateClients(s: Server, c: ConnId, k: ClientId, u: Server)
    requires k in s.clients && s.clients[k].room in s.rooms && Vacated(s, c, k, u)
    ensures forall k' :: k' in u.clients ==> ClientOk(u, k')
  {
    forall k' | k' in u.clients
      ensures ClientOk(u, k')
    {
      assert ClientOk(s, k');
      VacateClient(s, c, k, u, k');
    }
  }

  lemma VacateClient(s: Server, c: ConnId, k: ClientId, u: Server, k': ClientId)
    requires k in s.clients && s.clients[k].room in s.rooms && VacateShape(s, c, k, u)
    requires s.clients[k].socket == c && ClientOk(s, k)
    requires k' in u.clients && ClientOk(s, k')
    ensures ClientOk(u, k')
  {
    var code := s.clients[k].room;
    var rec := s.clients[k];
    var cl := s.clients[k'];
    assert s.sockets[cl.socket].clientId == Str(k');
    assert cl.socket != c;
    if cl.room == code {
      assert cl.socket in Remove(s.rooms[code].members, c);
    } else {
      assert u.rooms[cl.room] == s.rooms[cl.room];
    }
    if cl.timer.Some? {
      assert s.timers[cl.timer.value].holder == k';
      assert rec.timer.Some? ==> s.timers[rec.timer.value].holder == k;
    }
    ClientCarries(s, u, k');
  }

  /** A record whose socket, room membership, crown and timer all survive a change stays well
      formed. */
  lemma ClientCarries(s: Server, u: Server, k': ClientId)
    requires k' in s.clients && ClientOk(s, k') && k' in u.clients && u.clients[k'] == s.clients[k']
    requires u.sockets == s.sockets
    requires var cl := s.clients[k'];
      && cl.room in u.rooms && cl.socket in u.rooms[cl.room].members
      && (u.rooms[cl.room].holder == Some(k') <==> s.rooms[cl.room].holder == Some(k'))
      && (cl.timer.Some? ==> cl.timer.value in u.timers && u.timers[cl.timer.value] == s.timers[cl.timer.value])
    ensures ClientOk(u, k')
  {
  }

  lemma VacateTimers(s: Server, c: ConnId, k: ClientId, u: Server)
    requires k in s.clients && s.clients[k].room in s.rooms && Vacated(s, c, k, u)
    ensures forall t :: t in u.timers ==> TimerOk(u, t)
  {
    forall t | t in u.timers
      ensures TimerOk(u, t)
    {
      assert TimerOk(s, t);
      VacateTimer(s, c, k, u, t);
    }
  }

  /** A surviving timer's holder is not the departing record, whose own timer was cancelled. */
  lemma VacateTimer(s: Server, c: ConnId, k: ClientId, u: Server, t: TimerId)
    requires k in s.clients && s.clients[k].room in s.rooms && VacateShape(s, c, k, u)
    requires t in u.timers && t in s.timers && TimerOk(s, t)
    ensures TimerOk(u, t)
  {
    assert s.timers[t].holder != k;
  }

  // ---------------------------------------------------------------------------
  // Join

  /** A socket that holds no registration is in no room. */
  lemma UnregisteredOutside(s: Server, c: ConnId)
    requires Valid(s) && !Registered(s, c)
    ensures forall code :: code in s.rooms ==> c !in s.rooms[code].members
  {
    forall code | code in s.rooms
      ensures c !in s.rooms[code].members
    {
      assert RoomOk(s, code);
    }
  }

  ghost predicate Enrolled(s: Server, c: ConnId, code: RoomCode, k: ClientId, name: string, t: Server) {
    && Valid(s) && Acting(s, c) && k !in s.clients && !Registered(s, c) && code != "" && name != SpecialName
    && (forall c' :: 0 <= c' < |s.sockets| && c' != c && s.sockets[c'].state != Closed ==> s.sockets[c'].clientId != Str(k))
    && (forall code' :: code' in s.rooms ==> c !in s.rooms[code'].members)
    && t.sockets == s.sockets[c := s.sockets[c].(clientId := Str(k))]
    && t.clients == s.clients[k := Client(c, name, name, code, None)]
    && t.timers == s.timers && t.nextTimer == s.nextTimer
    && (forall code' :: code' != code ==> (code' in t.rooms <==> code' in s.rooms))
    && (forall code' :: code' != code && code' in t.rooms ==> t.rooms[code'] == s.rooms[code'])
    && code in t.rooms
    && t.rooms[code] == (if code in s.rooms then s.rooms[code].(members := s.rooms[code].members + [c]) else Room([c], None))
  }

  lemma EnrolValid(s: Server, c: ConnId, code: RoomCode, k: ClientId, name: string)
    requires Valid(s) && Acting(s, c) && k !in s.clients && k != "" && !Registered(s, c) && code != "" && name != SpecialName
    requires forall c' :: 0 <= c' < |s.sockets| && c' != c && s.sockets[c'].state != Closed ==> s.sockets[c'].clientId != Str(k)
    ensures Resolvable(s)
    ensures Valid(Enrol(s, c, code, k, name))
  {
    ConsistentResolvable(s);
    var t := Enrol(s, c, code, k, name);
    EnrolShape(s, c, code, k, name);
    EnrolRooms(s, c, code, k, name, t);
    EnrolClients(s, c, code, k, name, t);
    EnrolTimers(s, c, code, k, name, t);
    EnrolLive(s, c, code, k, name, t);
  }

  lemma EnrolShape(s: Server, c: ConnId, code: RoomCode, k: ClientId, name: string)
    requires Valid(s) && Acting(s, c) && k !in s.clients && !Registered(s, c) && code != "" && name != SpecialName
    requires forall c' :: 0 <= c' < |s.sockets| && c' != c && s.sockets[c'].state != Closed ==> s.sockets[c'].clientId != Str(k)
    requires Resolvable(s)
    ensures Enrolled(s, c, code, k, name, Enrol(s, c, code, k, name))
  {
    UnregisteredOutside(s, c);
  }

  lemma EnrolLive(s: Server, c: ConnId, code: RoomCode, k: ClientId, name: string, t: Server)
    requires Enrolled(s, c, code, k, name, t)
    ensures LiveMembers(t)
  {
    forall code', i | code' in t.rooms && 0 <= i < |t.rooms[code'].members|
      ensures t.rooms[code'].members[i] < |t.sockets| && t.sockets[t.rooms[code'].members[i]].state != Closed
    {
      if code' == code && code in s.rooms && i < |s.rooms[code].members| {
        assert t.rooms[code'].members[i] == s.rooms[code].members[i];
      }
    }
  }

  /** Every socket other than `c` keeps its registration, and membership, under the join. */
  lemma EnrolKeepsMembers(s: Server, c: ConnId, code: RoomCode, k: ClientId, name: string, t: Server)
    requires Enrolled(s, c, code, k, name, t)
    ensures forall code', m :: m != c && MemberOk(s, code', m) ==> MemberOk(t, code', m)
  {
  }

  lemma EnrolRooms(s: Server, c: ConnId, code: RoomCode, k: ClientId, name: string, t: Server)
    requires Enrolled(s, c, code, k, name, t)
    ensures forall code' :: code' in t.rooms ==> RoomOk(t, code')
  {
    EnrolKeepsMembers(s, c, code, k, name, t);
    forall code' | code' in t.rooms
      ensures RoomOk(t, code')
    {
      if code' in s.rooms {
        assert RoomOk(s, code');
        var ms := t.rooms[code'].members;
        forall i | 0 <= i < |ms|
          ensures MemberOk(t, code', ms[i])
        {
          if code' != code || i < |s.rooms[code].members| {
            assert ms[i] == s.rooms[code'].members[i];
            assert MemberOk(s, code', ms[i]);
          }
        }
        if code' == code {
          assert c !in s.rooms[code].members;
        }
      }
    }
  }

  lemma EnrolClients(s: Server, c: ConnId, code: RoomCode, k: ClientId, name: string, t: Server)
    requires Enrolled(s, c, code, k, name, t)
    ensures forall k' :: k' in t.clients ==> ClientOk(t, k')
  {
    forall k' | k' in t.clients
      ensures ClientOk(t, k')
    {
      if k' != k {
        assert ClientOk(s, k');
        var cl := s.clients[k'];
        assert cl.socket != c;
        if cl.room == code {
          assert s.rooms[code].holder != Some(k) by { assert RoomOk(s, code); }
        }
      } else if code in s.rooms {
        assert RoomOk(s, code);
      }
    }
  }

  lemma EnrolTimers(s: Server, c: ConnId, code: RoomCode, k: ClientId, name: string, t: Server)
    requires Enrolled(s, c, code, k, name, t)
    ensures forall tt :: tt in t.timers ==> TimerOk(t, tt)
    ensures SocketsOwnRecords(t)
  {
    forall tt | tt in t.timers
      ensures TimerOk(t, tt)
    {
      assert TimerOk(s, tt);
    }
  }

  // ---------------------------------------------------------------------------
  // Socket lifecycle

  /** Closing a socket that sits in no room keeps the invariant. */
  lemma MarkClosedValid(s: Server, c: ConnId)
    requires Valid(s) && c < |s.sockets|
    requires forall code :: code in s.rooms ==> c !in s.rooms[code].members
    ensures Valid(MarkClosed(s, c))
  {
    MarkClosedRooms(s, c);
    MarkClosedClients(s, c);
  }

  lemma MarkClosedClients(s: Server, c: ConnId)
    requires Valid(s) && c < |s.sockets|
    ensures forall k :: k in MarkClosed(s, c).clients ==> ClientOk(MarkClosed(s, c), k)
    ensures forall tt :: tt in MarkClosed(s, c).timers ==> TimerOk(MarkClosed(s, c), tt)
    ensures SocketsOwnRecords(MarkClosed(s, c))
  {
    var t := MarkClosed(s, c);
    forall k | k in t.clients
      ensures ClientOk(t, k)
    {
      assert ClientOk(s, k);
    }
    forall tt | tt in t.timers
      ensures TimerOk(t, tt)
    {
      assert TimerOk(s, tt);
    }
  }

  lemma MarkClosedRooms(s: Server, c: ConnId)
    requires Valid(s) && c < |s.sockets|
    requires forall code :: code in s.rooms ==> c !in s.rooms[code].members
    ensures forall code :: code in MarkClosed(s, c).rooms ==> RoomOk(MarkClosed(s, c), code)
    ensures LiveMembers(MarkClosed(s, c))
  {
    var t := MarkClosed(s, c);
    assert forall code, m :: MemberOk(t, code, m) == MemberOk(s, code, m);
    forall code | code in t.rooms
      ensures RoomOk(t, code)
    {
      assert RoomOk(s, code);
    }
    forall code, i | code in t.rooms && 0 <= i < |t.rooms[code].members|
      ensures t.rooms[code].members[i] < |t.sockets| && t.sockets[t.rooms[code].members[i]].state != Closed
    {
      assert t.rooms[code].members[i] != c;
    }
  }

  lemma MembersOk(s: Server, code: RoomCode)
    requires Valid(s) && code in s.rooms
    ensures forall m :: m in s.rooms[code].members ==> MemberOk(s, code, m)
  {
    assert RoomOk(s, code);
  }

  /** After the cleanup of the record that owns socket `c`, the socket is in no room. */
  lemma VacatedOutside(s: Server, c: ConnId, k: ClientId)
    requires Valid(s) && Resolvable(s) && k in s.clients && s.clients[k].socket == c
    ensures forall code :: code in Vacate(s, c, k).rooms ==> c !in Vacate(s, c, k).rooms[code].members
  {
    var u := Vacate(s, c, k);
    assert ClientOk(s, k);
    VacateFields(s, c, k);
    forall code | code in u.rooms
      ensures c !in u.rooms[code].members
    {
      if code != s.clients[k].room {
        MembersOk(s, code);
      }
    }
  }

  /** The cleanup does not look at ready states, so closing first or last is the same. */
  lemma VacateMarkClosed(s: Server, c: ConnId, k: ClientId)
    requires Resolvable(s) && k in s.clients && c < |s.sockets|
    ensures Resolvable(MarkClosed(s, c))
    ensures Vacate(MarkClosed(s, c), c, k) == MarkClosed(Vacate(s, c, k), c)
  {
    MarkClosedResolvable(s, c);
    var s0 := MarkClosed(s, c);
    assert Cancel(s0, k) == Cancel(s, k).(sockets := s0.sockets);
    var code := s.clients[k].room;
    assert Unseat(Cancel(s0, k), code, c) == Unseat(Cancel(s, k), code, c).(sockets := s0.sockets);
  }

  lemma CloseValid(s: Server, c: ConnId)
    requires Valid(s) && Acting(s, c)
    ensures Resolvable(s)
    ensures Valid(Close(s, c).0)
  {
    ConsistentResolvable(s);
    var id := s.sockets[c].clientId;
    if id.Str? && id.s in s.clients {
      CloseRegisteredValid(s, c, id.s);
    } else {
      assert !Registered(s, c);
      UnregisteredOutside(s, c);
      MarkClosedValid(s, c);
      MarkClosedResolvable(s, c);
      assert Close(s, c).0 == MarkClosed(s, c);
    }
  }

  /** Closing a registered socket is marking it closed after its record has gone. */
  lemma CloseRegisteredValid(s: Server, c: ConnId, k: ClientId)
    requires Valid(s) && Resolvable(s) && Acting(s, c) && s.sockets[c].clientId == Str(k) && k in s.clients
    ensures Valid(Close(s, c).0)
  {
    assert s.clients[k].socket == c && ClientOk(s, k);
    DepartValid(s, c, k);
    VacatedOutside(s, c, k);
    MarkClosedValid(Vacate(s, c, k), c);
    CloseRegistered(s, c, k);
  }

  lemma CloseRegistered(s: Server, c: ConnId, k: ClientId)
    requires Resolvable(s) && c < |s.sockets| && s.sockets[c].clientId == Str(k) && k in s.clients
    requires s.clients[k].room != ""
    ensures Close(s, c).0 == MarkClosed(Vacate(s, c, k), c)
  {
    VacateMarkClosed(s, c, k);
  }

  lemma ConnectValid(s: Server)
    requires Valid(s)
    ensures Valid(s.(sockets := s.sockets + [Socket(Open, Undefined)]))
  {
    var t := s.(sockets := s.sockets + [Socket(Open, Undefined)]);
    SameIdsConsistent(s, t);
  }

  lemma ClosingValid(s: Server, c: ConnId, st: ReadyState)
    requires Valid(s) && c < |s.sockets| && (st == Closed <==> s.sockets[c].state == Closed)
    ensures Valid(s.(sockets := s.sockets[c := s.sockets[c].(state := st)]))
  {
    var t := s.(sockets := s.sockets[c := s.sockets[c].(state := st)]);
    SameIdsConsistent(s, t);
  }

  /** `t` differs from `s` only in its sockets: the old ones keep their ids and whether they
      are closed, and any new one carries no id yet. */
  ghost predicate SameIds(s: Server, t: Server) {
    && t.clients == s.clients && t.rooms == s.rooms && t.timers == s.timers && t.nextTimer == s.nextTimer
    && |s.sockets| <= |t.sockets|
    && (forall c :: 0 <= c < |s.sockets| ==> t.sockets[c].clientId == s.sockets[c].clientId)
    && (forall c :: 0 <= c < |s.sockets| ==> (t.sockets[c].state == Closed <==> s.sockets[c].state == Closed))
    && (forall c :: |s.sockets| <= c < |t.sockets| ==> t.sockets[c].clientId == Undefined)
  }

  lemma SameIdsConsistent(s: Server, t: Server)
    requires Valid(s) && SameIds(s, t)
    ensures Valid(t)
  {
    SameIdsRegistered(s, t);
    forall code | code in t.rooms
      ensures RoomOk(t, code)
    {
      SameIdsRoom(s, t, code);
    }
    forall k | k in t.clients
      ensures ClientOk(t, k)
    {
      assert ClientOk(s, k);
    }
    forall tt | tt in t.timers
      ensures TimerOk(t, tt)
    {
      assert TimerOk(s, tt);
    }
    SameIdsOwn(s, t);
  }

  lemma SameIdsRegistered(s: Server, t: Server)
    requires SameIds(s, t)
    ensures forall m: ConnId :: Registered(t, m) == Registered(s, m)
    ensures forall code, m: ConnId :: MemberOk(t, code, m) == MemberOk(s, code, m)
  {
    forall m: ConnId
      ensures Registered(t, m) == Registered(s, m)
    {
      if m < |s.sockets| {
        assert t.sockets[m].clientId == s.sockets[m].clientId;
      } else if m < |t.sockets| {
        assert t.sockets[m].clientId == Undefined;
      }
    }
  }

  lemma SameIdsRoom(s: Server, t: Server, code: RoomCode)
    requires Valid(s) && SameIds(s, t) && code in t.rooms
    requires forall code, m: ConnId :: MemberOk(t, code, m) == MemberOk(s, code, m)
    ensures RoomOk(t, code)
  {
    assert RoomOk(s, code);
  }

  lemma SameIdsOwn(s: Server, t: Server)
    requires Valid(s) && SameIds(s, t)
    ensures SocketsOwnRecords(t)
  {
    forall c, k | 0 <= c < |t.sockets| && t.sockets[c].state != Closed && t.sockets[c].clientId == Str(k) && k in t.clients
      ensures t.clients[k].socket == c
    {
      assert c < |s.sockets|;
      assert s.sockets[c].state != Closed && s.sockets[c].clientId == Str(k);
    }
  }

  lemma RequestValid(s: Server, c: ConnId, id: Val, pick: nat -> nat)
    requires Valid(s) && PickInRange(pick)
    ensures Resolvable(s)
    ensures Valid(RequestRetardioo(Corrected, s, c, id, pick).0)
  {
    ConsistentResolvable(s);
    if id.Str? && id.s in s.clients && s.clients[id.s].room != "" && s.clients[id.s].room in s.rooms {
      var code := s.clients[id.s].room;
      var room := s.rooms[code];
      if !HolderBlocks(Corrected, room) && |room.members| > 0 {
        var chosen := ShuffleArray(room.members, pick)[0];
        assert chosen in multiset(room.members);
        MembersOk(s, code);
        GrantValid(s, code, ClientOf(s, chosen));
      }
    }
  }

  /** On a valid registry every recorded holder has a non-empty id, so the truthiness test
      of the grant decides exactly as the corrected test does. */
  lemma GuardsAgree(s: Server, c: ConnId, id: Val, pick: nat -> nat)
    requires Valid(s) && PickInRange(pick)
    ensures Resolvable(s)
    ensures RequestRetardioo(AsWritten, s, c, id, pick) == RequestRetardioo(Corrected, s, c, id, pick)
  {
    ConsistentResolvable(s);
    if id.Str? && id.s in s.clients && s.clients[id.s].room != "" && s.clients[id.s].room in s.rooms {
      var code := s.clients[id.s].room;
      assert RoomOk(s, code);
    }
  }

  /** The invariant is inductive: every event a cooperative browser can cause keeps it. */
  lemma StepPreservesValid(s: Server, e: Event)
    requires Valid(s) && Admissible(s, e) && Cooperative(s, e)
    ensures Valid(Step(s, e).0)
  {
    ConsistentResolvable(s);
    match e
    case Connect => ConnectValid(s);
    case JoinFrame(c, code, k, _, d) => EnrolValid(s, c, RoomCodeOf(code), k, GenerateUsername(d));
    case ContentFrame(_, _, _, _) =>
    case RetardiooFrame(c, id, pick) =>
      GuardsAgree(s, c, id, pick);
      RequestValid(s, c, id, pick);
    case LeaveFrame(c, id, _) =>
      if id.Str? && id.s in s.clients && s.clients[id.s].room != "" {
        DepartValid(s, c, id.s);
      }
    case MalformedFrame(_) =>
    case TimerFires(t) =>
      if t in s.timers {
        FireValid(s, t);
      }
    case StopsBeingOpen(c) =>
      ClosingValid(s, c, if s.sockets[c].state == Open then Closing else s.sockets[c].state);
    case CloseEvent(c) => CloseValid(s, c);
  }

  // ---------------------------------------------------------------------------
  // Traces

  /** Every event of `es`, in turn, is one the registry can receive and a cooperative browser
      can cause. */
  ghost predicate Admits(s: Server, es: seq<Event>)
    requires Valid(s)
    decreases |es|
  {
    if |es| == 0 then true
    else if !(Admissible(s, es[0]) && Cooperative(s, es[0])) then false
    else
      StepPreservesValid(s, es[0]);
      Admits(Step(s, es[0]).0, es[1..])
  }

  /** The registry after the events `es`; it is valid whatever the trace. */
  function Run(s: Server, es: seq<Event>): (t: Server)
    requires Valid(s) && Admits(s, es)
    ensures Valid(t)
    decreases |es|
  {
    if |es| == 0 then s
    else
      StepPreservesValid(s, es[0]);
      Run(Step(s, es[0]).0, es[1..])
  }
}
