/**
 Who is online. The TCP server keeps the open connections (net/TcpServer.cc), the gate indexes
 authenticated sessions by key and by room (gateserver/GateServer.cc), and the logic server
 keeps two shared indexes of keys (logicserver/LogicServiceImpl.cc). Requests and replies
 between gate and logic server take time; each arrival is a step.
 */
module Presence {
  import opened Endian

  type Key = Bytes
  type Room = Bytes
  type Server = Bytes

  // ----- the gate's two indexes

  datatype Gate = Gate(channels: map<Key, nat>, rooms: map<Room, set<nat>>)

  function Members(rooms: map<Room, set<nat>>, room: Room): set<nat> {
    if room in rooms then rooms[room] else {}
  }

  function HandleConnect(g: Gate, session: nat, key: Key, room: Room): Gate {
    Gate(if key in g.channels then g.channels else g.channels[key := session],
         g.rooms[room := Members(g.rooms, room) + {session}])
  }

  function HandleDisconnect(g: Gate, session: nat, key: Key, room: Room): Gate {
    Gate(g.channels - {key},
         if room in g.rooms then g.rooms[room := g.rooms[room] - {session}] else g.rooms)
  }

  // ----- the logic server's two indexes

  datatype Index = Index(mids: map<int, map<Key, Server>>, keys: map<Key, Server>)

  /** HGETALL mid_<mid> */
  function KeysOf(ix: Index, mid: int): map<Key, Server> {
    if mid in ix.mids then ix.mids[mid] else map[]
  }

  function AddServerMap(ix: Index, mid: int, key: Key, server: Server): Index {
    Index(ix.mids[mid := KeysOf(ix, mid)[key := server]], ix.keys[key := server])
  }

  function RemoveServerMap(ix: Index, mid: int, key: Key): Index {
    Index(if mid in ix.mids then ix.mids[mid := ix.mids[mid] - {key}] else ix.mids, ix.keys - {key})
  }

  /** A key that is taken stays with its first session; the room takes both. */
  lemma FirstSessionKeepsKey(g: Gate, a: nat, b: nat, key: Key, room: Room)
    requires key !in g.channels
    ensures var h := HandleConnect(HandleConnect(g, a, key, room), b, key, room);
            h.channels == g.channels[key := a] && Members(h.rooms, room) == Members(g.rooms, room) + {a, b}
  {
  }

  /** What a connect or disconnect leaves alone, and that the key is gone afterwards whoever had it. */
  lemma GateTouches(g: Gate, x: nat, key: Key, room: Room, other: Key, elsewhere: Room)
    requires other != key && elsewhere != room
    ensures var h := HandleConnect(g, x, key, room);
            && (other in h.channels <==> other in g.channels) && (other in g.channels ==> h.channels[other] == g.channels[other])
            && Members(h.rooms, elsewhere) == Members(g.rooms, elsewhere)
    ensures var h := HandleDisconnect(g, x, key, room);
            && key !in h.channels && Members(h.rooms, room) == Members(g.rooms, room) - {x}
            && (other in h.channels <==> other in g.channels) && (other in g.channels ==> h.channels[other] == g.channels[other])
            && Members(h.rooms, elsewhere) == Members(g.rooms, elsewhere)
  {
  }

  /** Both shared indexes hold an added key with its server, and no longer hold it once removed. */
  lemma IndexTouches(ix: Index, mid: int, key: Key, server: Server, other: int)
    requires other != mid
    ensures var jx := AddServerMap(ix, mid, key, server);
            && KeysOf(jx, mid) == KeysOf(ix, mid)[key := server] && jx.keys == ix.keys[key := server]
            && KeysOf(jx, other) == KeysOf(ix, other)
    ensures var jx := RemoveServerMap(ix, mid, key);
            && KeysOf(jx, mid) == KeysOf(ix, mid) - {key} && jx.keys == ix.keys - {key}
            && KeysOf(jx, other) == KeysOf(ix, other)
  {
  }

  // ----- the protocol

  /** How far a session's authentication has come: asked, answered by the logic server, or done. */
  datatype Auth =
    | None
    | Asking(mid: int, room: Room)
    | Answered(mid: int, room: Room, key: Key)
    | Joined(mid: int, room: Room, key: Key)

  /** A disconnect request on its way to the logic server, with the key it names. */
  datatype Report = NoReport | Report(mid: int, key: Key)

  /** `open`: still among the connections. `early`: closed while its authentication was under way. */
  datatype Session = Session(open: bool, auth: Auth, early: bool, leaving: Report)

  const Arrived := Session(true, None, false, NoReport)

  /** Sessions by id; `handled` lists the runs of the disconnect handler. */
  datatype System = System(sessions: seq<Session>, gate: Gate, index: Index, handled: seq<nat>)

  const Init := System([], Gate(map[], map[]), Index(map[], map[]), [])

  datatype Action =
    | Accept
    | Authenticate(x: nat, mid: int, room: Room)
    | LogicConnect(x: nat, key: Key)
    | GateConnect(x: nat)
    | Close(x: nat)
    | LogicDisconnect(x: nat)

  predicate HasKey(s: Session) { s.auth.Answered? || s.auth.Joined? }

  predicate Fresh(sessions: seq<Session>, key: Key) {
    key != [] && forall i :: 0 <= i < |sessions| ==> (HasKey(sessions[i]) ==> sessions[i].auth.key != key)
  }

  /** What the gate has stored in the session object: nothing before the reply is handled. */
  function UserKey(s: Session): Key { if s.auth.Joined? then s.auth.key else [] }

  function UserRoom(s: Session): Room { if s.auth.Joined? then s.auth.room else [] }

  function UserMid(s: Session): int { if s.auth.Joined? then s.auth.mid else 0 }

  /** A session asks for authentication at most once, while it is open. */
  predicate Enabled(s: System, a: Action) {
    match a
    case Accept => true
    case Authenticate(x, _, _) => x < |s.sessions| && s.sessions[x].open && s.sessions[x].auth.None?
    case LogicConnect(x, key) => x < |s.sessions| && s.sessions[x].auth.Asking? && Fresh(s.sessions, key)
    case GateConnect(x) => x < |s.sessions| && s.sessions[x].auth.Answered?
    case Close(x) => x < |s.sessions|
    case LogicDisconnect(x) => x < |s.sessions| && s.sessions[x].leaving.Report?
  }

  function Closed(s: Session): Session {
    s.(open := false, early := s.auth.Asking? || s.auth.Answered?, leaving := Report(UserMid(s), UserKey(s)))
  }

  /** DefaultDisconnectCallback: only the call that finds the connection runs the handler. */
  function Disconnect(s: System, x: nat): System
    requires x < |s.sessions|
  {
    var me := s.sessions[x];
    if !me.open then s
    else s.(sessions := s.sessions[x := Closed(me)],
            gate := HandleDisconnect(s.gate, x, UserKey(me), UserRoom(me)),
            handled := s.handled + [x])
  }

  function Next(server: Server, s: System, a: Action): System
    requires Enabled(s, a)
  {
    match a
    case Accept => s.(sessions := s.sessions + [Arrived])
    case Authenticate(x, mid, room) => s.(sessions := s.sessions[x := s.sessions[x].(auth := Asking(mid, room))])
    case LogicConnect(x, key) =>
      var auth := s.sessions[x].auth;
      s.(sessions := s.sessions[x := s.sessions[x].(auth := Answered(auth.mid, auth.room, key))],
         index := AddServerMap(s.index, auth.mid, key, server))
    case GateConnect(x) =>
      var auth := s.sessions[x].auth;
      s.(sessions := s.sessions[x := s.sessions[x].(auth := Joined(auth.mid, auth.room, auth.key))],
         gate := HandleConnect(s.gate, x, auth.key, auth.room))
    case Close(x) => Disconnect(s, x)
    case LogicDisconnect(x) =>
      var me := s.sessions[x];
      s.(sessions := s.sessions[x := me.(leaving := NoReport)],
         index := RemoveServerMap(s.index, me.leaving.mid, me.leaving.key))
  }

  predicate IsStep(server: Server, s: System, a: Action, t: System) {
    Enabled(s, a) && t == Next(server, s, a)
  }

  predicate IsRun(server: Server, states: seq<System>, acts: seq<Action>) {
    && |states| == |acts| + 1 && states[0] == Init
    && forall i :: 0 <= i < |acts| ==> IsStep(server, states[i], acts[i], states[i + 1])
  }

  /** The TCP server's own bookkeeping; `handled` lists the sessions passed to the disconnect handler. */
  class TcpServer {
    var nextId: nat
    var connections: set<nat>
    var handled: seq<nat>

    constructor ()
      ensures nextId == 1 && connections == {} && handled == []
    {
      nextId, connections, handled := 1, {}, [];
    }

    method NewSession() returns (id: nat)
      modifies this
      ensures id == old(nextId) && nextId == id + 1
      ensures connections == old(connections) + {id} && handled == old(handled)
    {
      id := nextId;
      connections := connections + {id};
      nextId := nextId + 1;
    }

    method DefaultDisconnectCallback(id: nat)
      modifies this
      ensures nextId == old(nextId) && connections == old(connections) - {id}
      ensures handled == old(handled) + if id in old(connections) then [id] else []
    {
      if id in connections {
        connections := connections - {id};
        handled := handled + [id];
      }
    }
  }

  // ----- what every reachable state satisfies

  predicate Live(s: Session) { s.open && s.auth.Joined? }

  /** Indexed by the gate: a session closed too early is indexed afterwards and never removed. */
  predicate Shown(s: Session) { s.auth.Joined? && (s.open || s.early) }

  /** Known to the logic server: answered and not yet reported as gone. */
  predicate Registered(s: Session) {
    s.auth.Answered? || (s.auth.Joined? && (s.open || s.early || s.leaving.Report?))
  }

  function ShownIn(room: Room): Session -> bool {
    (s: Session) => Shown(s) && s.auth.room == room
  }

  function RegisteredAs(mid: int): Session -> bool {
    (s: Session) => Registered(s) && s.auth.mid == mid
  }

  ghost function Where(ss: seq<Session>, f: Session -> bool): set<nat> {
    set i | 0 <= i < |ss| && f(ss[i])
  }

  ghost function KeysWhere(ss: seq<Session>, f: Session -> bool): set<Key> {
    set i | 0 <= i < |ss| && f(ss[i]) && HasKey(ss[i]) :: ss[i].auth.key
  }

  /** Keys are never empty and never shared. */
  ghost predicate KeysOk(ss: seq<Session>) {
    && (forall i :: 0 <= i < |ss| ==> (HasKey(ss[i]) ==> ss[i].auth.key != []))
    && (forall i, j :: 0 <= i < j < |ss| ==> (HasKey(ss[i]) && HasKey(ss[j]) ==> ss[i].auth.key != ss[j].auth.key))
    && (forall i :: 0 <= i < |ss| ==> Orderly(ss[i]))
  }

  /** Only early sessions are authenticated while closed; a report names its session's own key or none. */
  predicate Orderly(s: Session) {
    && (s.auth.Asking? || s.auth.Answered? ==> s.open || s.early)
    && (s.early || s.leaving.Report? ==> !s.open)
    && (s.leaving.Report? ==>
          if s.early || s.auth.None? then s.leaving.key == []
          else s.auth.Joined? && s.leaving == Report(s.auth.mid, s.auth.key))
  }

  /** channels_ maps exactly the keys of shown sessions to them. */
  ghost predicate ChannelsOk(ss: seq<Session>, channels: map<Key, nat>) {
    && channels.Keys == KeysWhere(ss, Shown)
    && forall i :: 0 <= i < |ss| && Shown(ss[i]) ==> ss[i].auth.key in channels && channels[ss[i].auth.key] == i
  }

  /** rooms_ lists exactly the shown sessions of each room. */
  ghost predicate RoomsOk(ss: seq<Session>, rooms: map<Room, set<nat>>) {
    forall room :: Members(rooms, room) == Where(ss, ShownIn(room))
  }

  ghost predicate AllFrom<K>(m: map<K, Server>, server: Server) {
    forall k :: k in m ==> m[k] == server
  }

  /** The shared indexes hold exactly the registered keys, under their mid and with this gate's name. */
  ghost predicate IndexOk(server: Server, ss: seq<Session>, ix: Index) {
    && (forall mid :: KeysOf(ix, mid).Keys == KeysWhere(ss, RegisteredAs(mid)) && AllFrom(KeysOf(ix, mid), server))
    && ix.keys.Keys == KeysWhere(ss, Registered) && AllFrom(ix.keys, server)
  }

  ghost predicate HandledOk(ss: seq<Session>, handled: seq<nat>) {
    && (forall x :: x in handled ==> x < |ss|)
    && (forall i :: 0 <= i < |ss| ==> multiset(handled)[i] == if ss[i].open then 0 else 1)
  }

  ghost predicate Inv(server: Server, s: System) {
    && KeysOk(s.sessions)
    && ChannelsOk(s.sessions, s.gate.channels) && RoomsOk(s.sessions, s.gate.rooms)
    && IndexOk(server, s.sessions, s.index)
    && HandledOk(s.sessions, s.handled)
  }

  // ----- one session changes

  /** A session may get a fresh key, keep its key, or have none. */
  ghost predicate Becomes(ss: seq<Session>, x: nat, y: Session) {
    && x < |ss| && KeysOk(ss) && (HasKey(ss[x]) ==> HasKey(y))
    && (HasKey(y) ==> if HasKey(ss[x]) then y.auth.key == ss[x].auth.key else Fresh(ss, y.auth.key))
    && Orderly(y)
  }

  function KeyIf(s: Session, f: Session -> bool): set<Key> {
    if f(s) && HasKey(s) then {s.auth.key} else {}
  }

  lemma BecomesKeeps(ss: seq<Session>, x: nat, y: Session)
    requires Becomes(ss, x, y)
    ensures KeysOk(ss[x := y])
  {
  }

  lemma WhereUpdate(ss: seq<Session>, x: nat, y: Session, f: Session -> bool)
    requires x < |ss|
    ensures Where(ss[x := y], f) == if f(y) then Where(ss, f) + {x} else Where(ss, f) - {x}
  {
  }

  lemma KeysWhereUpdate(ss: seq<Session>, x: nat, y: Session, f: Session -> bool)
    requires Becomes(ss, x, y)
    ensures KeysWhere(ss[x := y], f) == KeysWhere(ss, f) - KeyIf(ss[x], f) + KeyIf(y, f)
  {
    var tt := ss[x := y];
    forall k | k in KeysWhere(tt, f) ensures k in KeysWhere(ss, f) - KeyIf(ss[x], f) + KeyIf(y, f) {
      var i :| 0 <= i < |tt| && f(tt[i]) && HasKey(tt[i]) && tt[i].auth.key == k;
      if i != x {
        assert ss[i] == tt[i];
      }
    }
    forall k | k in KeysWhere(ss, f) - KeyIf(ss[x], f) ensures k in KeysWhere(tt, f) {
      var i :| 0 <= i < |ss| && f(ss[i]) && HasKey(ss[i]) && ss[i].auth.key == k;
      assert tt[i] == ss[i];
    }
    if f(y) && HasKey(y) {
      assert tt[x] == y;
    }
  }

  /** Keys belong to one session: no other session has the key of `x`. */
  lemma KeyBelongs(ss: seq<Session>, x: nat, f: Session -> bool)
    requires KeysOk(ss) && x < |ss| && HasKey(ss[x])
    ensures ss[x].auth.key in KeysWhere(ss, f) <==> f(ss[x])
    ensures [] !in KeysWhere(ss, f)
  {
    if ss[x].auth.key in KeysWhere(ss, f) {
      var i :| 0 <= i < |ss| && f(ss[i]) && HasKey(ss[i]) && ss[i].auth.key == ss[x].auth.key;
      assert i == x;
    }
  }

  lemma NoEmptyKey(ss: seq<Session>, f: Session -> bool)
    requires KeysOk(ss)
    ensures [] !in KeysWhere(ss, f)
  {
  }

  lemma ChannelsJoin(ss: seq<Session>, x: nat, y: Session, channels: map<Key, nat>)
    requires Becomes(ss, x, y) && ChannelsOk(ss, channels) && HasKey(ss[x]) && !Shown(ss[x]) && Shown(y)
    ensures y.auth.key !in channels && ChannelsOk(ss[x := y], channels[y.auth.key := x])
  {
    KeysWhereUpdate(ss, x, y, Shown);
    KeyBelongs(ss, x, Shown);
  }

  lemma ChannelsLeave(ss: seq<Session>, x: nat, y: Session, channels: map<Key, nat>)
    requires Becomes(ss, x, y) && ChannelsOk(ss, channels) && Shown(ss[x]) && !Shown(y)
    ensures ChannelsOk(ss[x := y], channels - {ss[x].auth.key})
  {
    KeysWhereUpdate(ss, x, y, Shown);
    assert forall i :: 0 <= i < |ss| && i != x && HasKey(ss[i]) ==> ss[i].auth.key != ss[x].auth.key;
  }

  lemma ChannelsStay(ss: seq<Session>, x: nat, y: Session, channels: map<Key, nat>)
    requires Becomes(ss, x, y) && ChannelsOk(ss, channels) && Shown(ss[x]) == Shown(y)
    ensures ChannelsOk(ss[x := y], channels) && channels - {[]} == channels
  {
    KeysWhereUpdate(ss, x, y, Shown);
    NoEmptyKey(ss, Shown);
  }

  lemma RoomsJoin(ss: seq<Session>, x: nat, y: Session, rooms: map<Room, set<nat>>)
    requires x < |ss| && RoomsOk(ss, rooms) && !Shown(ss[x]) && Shown(y)
    ensures RoomsOk(ss[x := y], rooms[y.auth.room := Members(rooms, y.auth.room) + {x}])
  {
    var rooms' := rooms[y.auth.room := Members(rooms, y.auth.room) + {x}];
    forall room ensures Members(rooms', room) == Where(ss[x := y], ShownIn(room)) {
      WhereUpdate(ss, x, y, ShownIn(room));
      assert Members(rooms, room) == Where(ss, ShownIn(room));
    }
  }

  /** The handler erases by the room it has stored; sessions not in it are unaffected. */
  lemma RoomsLeave(ss: seq<Session>, x: nat, y: Session, rooms: map<Room, set<nat>>, r: Room)
    requires x < |ss| && RoomsOk(ss, rooms) && !Shown(y) && (Shown(ss[x]) ==> ss[x].auth.room == r)
    ensures RoomsOk(ss[x := y], if r in rooms then rooms[r := rooms[r] - {x}] else rooms)
  {
    var rooms' := if r in rooms then rooms[r := rooms[r] - {x}] else rooms;
    forall room ensures Members(rooms', room) == Where(ss[x := y], ShownIn(room)) {
      WhereUpdate(ss, x, y, ShownIn(room));
      assert Members(rooms, room) == Where(ss, ShownIn(room));
    }
  }

  lemma RoomsStay(ss: seq<Session>, x: nat, y: Session, rooms: map<Room, set<nat>>)
    requires x < |ss| && RoomsOk(ss, rooms) && Shown(ss[x]) == Shown(y) && (Shown(y) ==> y.auth.room == ss[x].auth.room)
    ensures RoomsOk(ss[x := y], rooms)
  {
    forall room ensures Members(rooms, room) == Where(ss[x := y], ShownIn(room)) {
      WhereUpdate(ss, x, y, ShownIn(room));
      assert Members(rooms, room) == Where(ss, ShownIn(room));
    }
  }

  lemma IndexAddMid(server: Server, ss: seq<Session>, x: nat, y: Session, ix: Index, mid: int)
    requires Becomes(ss, x, y) && !Registered(ss[x]) && Registered(y)
    requires KeysOf(ix, mid).Keys == KeysWhere(ss, RegisteredAs(mid)) && AllFrom(KeysOf(ix, mid), server)
    ensures var after := KeysOf(AddServerMap(ix, y.auth.mid, y.auth.key, server), mid);
            after.Keys == KeysWhere(ss[x := y], RegisteredAs(mid)) && AllFrom(after, server)
  {
    KeysWhereUpdate(ss, x, y, RegisteredAs(mid));
  }

  lemma IndexAdd(server: Server, ss: seq<Session>, x: nat, y: Session, ix: Index)
    requires Becomes(ss, x, y) && IndexOk(server, ss, ix) && !Registered(ss[x]) && Registered(y)
    ensures IndexOk(server, ss[x := y], AddServerMap(ix, y.auth.mid, y.auth.key, server))
  {
    var jx := AddServerMap(ix, y.auth.mid, y.auth.key, server);
    forall mid ensures KeysOf(jx, mid).Keys == KeysWhere(ss[x := y], RegisteredAs(mid)) && AllFrom(KeysOf(jx, mid), server) {
      IndexAddMid(server, ss, x, y, ix, mid);
    }
    KeysWhereUpdate(ss, x, y, Registered);
  }

  lemma IndexRemove(server: Server, ss: seq<Session>, x: nat, y: Session, ix: Index)
    requires Becomes(ss, x, y) && IndexOk(server, ss, ix) && Registered(ss[x]) && !Registered(y)
    ensures IndexOk(server, ss[x := y], RemoveServerMap(ix, ss[x].auth.mid, ss[x].auth.key))
  {
    var jx := RemoveServerMap(ix, ss[x].auth.mid, ss[x].auth.key);
    forall mid ensures KeysOf(jx, mid).Keys == KeysWhere(ss[x := y], RegisteredAs(mid)) && AllFrom(KeysOf(jx, mid), server) {
      KeysWhereUpdate(ss, x, y, RegisteredAs(mid));
      assert KeysOf(ix, mid).Keys == KeysWhere(ss, RegisteredAs(mid)) && AllFrom(KeysOf(ix, mid), server);
    }
    KeysWhereUpdate(ss, x, y, Registered);
  }

  lemma IndexStay(server: Server, ss: seq<Session>, x: nat, y: Session, ix: Index)
    requires Becomes(ss, x, y) && IndexOk(server, ss, ix) && Registered(ss[x]) == Registered(y)
    requires Registered(y) ==> y.auth.mid == ss[x].auth.mid
    ensures IndexOk(server, ss[x := y], ix)
  {
    forall mid ensures KeysOf(ix, mid).Keys == KeysWhere(ss[x := y], RegisteredAs(mid)) && AllFrom(KeysOf(ix, mid), server) {
      KeysWhereUpdate(ss, x, y, RegisteredAs(mid));
      assert KeysOf(ix, mid).Keys == KeysWhere(ss, RegisteredAs(mid)) && AllFrom(KeysOf(ix, mid), server);
    }
    KeysWhereUpdate(ss, x, y, Registered);
  }

  /** A disconnect report for a session that never joined names no key, and removes none. */
  lemma RemoveNobody(server: Server, ss: seq<Session>, ix: Index, mid: int)
    requires KeysOk(ss) && IndexOk(server, ss, ix)
    ensures IndexOk(server, ss, RemoveServerMap(ix, mid, []))
  {
    var jx := RemoveServerMap(ix, mid, []);
    forall m ensures KeysOf(jx, m).Keys == KeysWhere(ss, RegisteredAs(m)) && AllFrom(KeysOf(jx, m), server) {
      NoEmptyKey(ss, RegisteredAs(m));
      assert KeysOf(ix, m).Keys == KeysWhere(ss, RegisteredAs(m)) && AllFrom(KeysOf(ix, m), server);
    }
    NoEmptyKey(ss, Registered);
  }

  // ----- one step

  lemma WhereAccept(ss: seq<Session>, f: Session -> bool)
    requires !f(Arrived)
    ensures Where(ss + [Arrived], f) == Where(ss, f)
    ensures KeysWhere(ss + [Arrived], f) == KeysWhere(ss, f)
  {
    var tt := ss + [Arrived];
    assert forall i :: 0 <= i < |ss| ==> tt[i] == ss[i];
    forall k | k in KeysWhere(ss, f) ensures k in KeysWhere(tt, f) {
      var i :| 0 <= i < |ss| && f(ss[i]) && HasKey(ss[i]) && ss[i].auth.key == k;
      assert tt[i] == ss[i];
    }
  }

  lemma AcceptKeeps(server: Server, s: System)
    requires Inv(server, s)
    ensures Inv(server, Next(server, s, Accept))
  {
    var ss := s.sessions;
    var tt := ss + [Arrived];
    WhereAccept(ss, Shown);
    WhereAccept(ss, Registered);
    forall room ensures Members(s.gate.rooms, room) == Where(tt, ShownIn(room)) {
      WhereAccept(ss, ShownIn(room));
      assert Members(s.gate.rooms, room) == Where(ss, ShownIn(room));
    }
    forall mid ensures KeysOf(s.index, mid).Keys == KeysWhere(tt, RegisteredAs(mid)) && AllFrom(KeysOf(s.index, mid), server) {
      WhereAccept(ss, RegisteredAs(mid));
      assert KeysOf(s.index, mid).Keys == KeysWhere(ss, RegisteredAs(mid));
    }
    assert |ss| !in s.handled;
  }

  lemma AuthKeeps(server: Server, s: System, a: Action)
    requires Inv(server, s) && (a.Authenticate? || a.LogicConnect?) && Enabled(s, a)
    ensures Inv(server, Next(server, s, a))
  {
    var ss, x, y := s.sessions, a.x, Next(server, s, a).sessions[a.x];
    BecomesKeeps(ss, x, y);
    ChannelsStay(ss, x, y, s.gate.channels);
    RoomsStay(ss, x, y, s.gate.rooms);
    if a.Authenticate? {
      IndexStay(server, ss, x, y, s.index);
    } else {
      IndexAdd(server, ss, x, y, s.index);
    }
  }

  lemma GateConnectKeeps(server: Server, s: System, a: Action)
    requires Inv(server, s) && a.GateConnect? && Enabled(s, a)
    ensures Inv(server, Next(server, s, a))
  {
    var ss, x, y := s.sessions, a.x, Next(server, s, a).sessions[a.x];
    BecomesKeeps(ss, x, y);
    ChannelsJoin(ss, x, y, s.gate.channels);
    RoomsJoin(ss, x, y, s.gate.rooms);
    IndexStay(server, ss, x, y, s.index);
  }

  lemma CloseKeeps(server: Server, s: System, a: Action)
    requires Inv(server, s) && a.Close? && Enabled(s, a) && s.sessions[a.x].open
    ensures Inv(server, Next(server, s, a))
  {
    var ss, x := s.sessions, a.x;
    var y := Closed(ss[x]);
    BecomesKeeps(ss, x, y);
    if Shown(ss[x]) {
      ChannelsLeave(ss, x, y, s.gate.channels);
    } else {
      ChannelsStay(ss, x, y, s.gate.channels);
    }
    RoomsLeave(ss, x, y, s.gate.rooms, UserRoom(ss[x]));
    IndexStay(server, ss, x, y, s.index);
  }

  lemma LogicDisconnectKeeps(server: Server, s: System, a: Action)
    requires Inv(server, s) && a.LogicDisconnect? && Enabled(s, a)
    ensures Inv(server, Next(server, s, a))
  {
    var ss, x := s.sessions, a.x;
    var y := ss[x].(leaving := NoReport);
    BecomesKeeps(ss, x, y);
    ChannelsStay(ss, x, y, s.gate.channels);
    RoomsStay(ss, x, y, s.gate.rooms);
    if ss[x].auth.Joined? && !ss[x].early {
      IndexRemove(server, ss, x, y, s.index);
    } else {
      IndexStay(server, ss, x, y, s.index);
      RemoveNobody(server, ss[x := y], s.index, ss[x].leaving.mid);
    }
  }

  lemma StepKeeps(server: Server, s: System, a: Action)
    requires Inv(server, s) && Enabled(s, a)
    ensures Inv(server, Next(server, s, a))
  {
    match a
    case Accept => AcceptKeeps(server, s);
    case Authenticate(_, _, _) => AuthKeeps(server, s, a);
    case LogicConnect(_, _) => AuthKeeps(server, s, a);
    case GateConnect(_) => GateConnectKeeps(server, s, a);
    case Close(x) => if s.sessions[x].open { CloseKeeps(server, s, a); }
    case LogicDisconnect(_) => LogicDisconnectKeeps(server, s, a);
  }

  lemma InitHolds(server: Server)
    ensures Inv(server, Init)
  {
    assert forall room :: Members(Init.gate.rooms, room) == Where([], ShownIn(room));
    assert forall mid :: KeysOf(Init.index, mid).Keys == KeysWhere([], RegisteredAs(mid));
  }

  lemma {:induction false} RunKeeps(server: Server, states: seq<System>, acts: seq<Action>, i: nat)
    requires IsRun(server, states, acts) && i < |states|
    ensures forall j :: 0 <= j <= i ==> Inv(server, states[j])
  {
    if i == 0 {
      InitHolds(server);
    } else {
      RunKeeps(server, states, acts, i - 1);
      assert IsStep(server, states[i - 1], acts[i - 1], states[i]);
      StepKeeps(server, states[i - 1], acts[i - 1]);
    }
  }

  // ----- what this gives

  /** Some session was closed before its reply arrived, and the reply has been handled since. */
  ghost predicate Stranded(s: System) {
    exists i :: 0 <= i < |s.sessions| && s.sessions[i].auth.Joined? && s.sessions[i].early
  }

  /** However often close is called, the disconnect handler runs exactly once for every closed session. */
  lemma HandlerRunsOnce(server: Server, states: seq<System>, acts: seq<Action>, i: nat, x: nat)
    requires IsRun(server, states, acts) && i < |states| && x < |states[i].sessions|
    ensures multiset(states[i].handled)[x] == if states[i].sessions[x].open then 0 else 1
  {
    assert Inv(server, states[i]) by { RunKeeps(server, states, acts, i); }
  }

  /** The two gate indexes hold exactly the live sessions. */
  ghost predicate IndexesLive(s: System) {
    && s.gate.channels.Keys == KeysWhere(s.sessions, Live)
    && (forall i :: 0 <= i < |s.sessions| && Live(s.sessions[i]) ==>
          s.sessions[i].auth.key in s.gate.channels && s.gate.channels[s.sessions[i].auth.key] == i)
    && (forall room, i :: i in Members(s.gate.rooms, room) <==>
          0 <= i < |s.sessions| && Live(s.sessions[i]) && s.sessions[i].auth.room == room)
  }

  lemma ShownIsLive(ss: seq<Session>)
    requires KeysOk(ss) && forall i :: 0 <= i < |ss| ==> !(ss[i].auth.Joined? && ss[i].early)
    ensures KeysWhere(ss, Shown) == KeysWhere(ss, Live)
  {
    forall k | k in KeysWhere(ss, Shown) ensures k in KeysWhere(ss, Live) {
      var i :| 0 <= i < |ss| && Shown(ss[i]) && HasKey(ss[i]) && ss[i].auth.key == k;
      assert Live(ss[i]);
    }
    forall k | k in KeysWhere(ss, Live) ensures k in KeysWhere(ss, Shown) {
      var i :| 0 <= i < |ss| && Live(ss[i]) && HasKey(ss[i]) && ss[i].auth.key == k;
      assert Shown(ss[i]);
    }
  }

  lemma StrandedShows(ss: seq<Session>, x: nat)
    requires KeysOk(ss) && x < |ss| && ss[x].auth.Joined? && ss[x].early
    ensures KeysWhere(ss, Shown) != KeysWhere(ss, Live)
  {
    KeyBelongs(ss, x, Shown);
    KeyBelongs(ss, x, Live);
  }

  /**
   In every run, the key and room indexes hold exactly the live authenticated sessions if and
   only if there is no session that was closed while its authentication was under way and whose
   reply has been handled since.
   */
  lemma IndexesLiveIffNoneStranded(server: Server, states: seq<System>, acts: seq<Action>, i: nat)
    requires IsRun(server, states, acts) && i < |states|
    ensures IndexesLive(states[i]) <==> !Stranded(states[i])
  {
    assert Inv(server, states[i]) by { RunKeeps(server, states, acts, i); }
    var s := states[i];
    if Stranded(s) {
      var x :| 0 <= x < |s.sessions| && s.sessions[x].auth.Joined? && s.sessions[x].early;
      StrandedShows(s.sessions, x);
    } else {
      ShownIsLive(s.sessions);
      forall room, x ensures x in Members(s.gate.rooms, room) <==>
                             0 <= x < |s.sessions| && Live(s.sessions[x]) && s.sessions[x].auth.room == room
      {
        assert Members(s.gate.rooms, room) == Where(s.sessions, ShownIn(room));
      }
    }
  }

  /** Such a session can be reached: closed while the answer is under way, it stays indexed for good. */
  lemma EarlyCloseStrands(server: Server) returns (states: seq<System>, acts: seq<Action>)
    ensures IsRun(server, states, acts) && Stranded(states[|acts|])
    ensures !states[|acts|].sessions[0].open && "1" in states[|acts|].gate.channels
  {
    states, acts := Extend(server, [Init], [], Accept);
    states, acts := Extend(server, states, acts, Authenticate(0, 7, "lobby"));
    states, acts := Extend(server, states, acts, LogicConnect(0, "1"));
    states, acts := Extend(server, states, acts, Close(0));
    states, acts := Extend(server, states, acts, GateConnect(0));
    assert states[|acts|].sessions[0].auth.Joined? && states[|acts|].sessions[0].early;
  }

  lemma Extend(server: Server, states: seq<System>, acts: seq<Action>, a: Action) returns (more: seq<System>, longer: seq<Action>)
    requires IsRun(server, states, acts) && Enabled(states[|acts|], a)
    ensures IsRun(server, more, longer) && |longer| == |acts| + 1 && more[|longer|] == Next(server, states[|acts|], a)
  {
    more, longer := states + [Next(server, states[|acts|], a)], acts + [a];
  }
}
