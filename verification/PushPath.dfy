/**
 How a message reaches its readers: the logic server looks up the keys of the members named
 and groups them by gate (logicserver/LogicServer.cc), the job server takes each group from the
 log and calls the gate (jobserver/JobServer.cc), and the gate sends to the session of each key
 (gateserver/GateServiceImpl.cc, gateserver/GateServer.cc).
 */
module PushPath {
  import opened Endian
  import opened Presence

  /** A message on the log. */
  datatype PushMsg =
    | ToKeys(operation: int, server: Server, keys: seq<Key>, msg: Bytes)
    | ToRoom(room: Room, msg: Bytes)
    | ToAll(operation: int, speed: int, msg: Bytes)

  /** The payload the job server builds: version 1, operation 9, no sequence number. */
  datatype Proto = Proto(ver: int, op: int, seq_: int, body: Bytes)

  function ProtoOf(msg: Bytes): Proto { Proto(1, 9, 0, msg) }

  /** One send to a client session. */
  datatype Packet = Packet(session: nat, op: int, seq_: int, body: Bytes)

  function PacketTo(session: nat, p: Proto): Packet { Packet(session, p.op, p.seq_, p.body) }

  /** The packets for a list of keys: those without a session are passed over. */
  function SendsTo(channels: map<Key, nat>, keys: seq<Key>, p: Proto): seq<Packet> {
    if keys == [] then []
    else
      var k := keys[|keys| - 1];
      SendsTo(channels, keys[..|keys| - 1], p) + if k in channels then [PacketTo(channels[k], p)] else []
  }

  function PacketsTo(sessions: seq<nat>, p: Proto): (r: seq<Packet>)
    ensures |r| == |sessions|
  {
    seq(|sessions|, i requires 0 <= i < |sessions| => PacketTo(sessions[i], p))
  }

  /** `order` lists the elements of `all`, each once. */
  ghost predicate InAnyOrder<T>(order: seq<T>, all: set<T>) {
    multiset(order) == multiset(all)
  }

  /** What the gate tells the logic server about a session that is gone. */
  datatype DisconnectReq = DisconnectReq(server: Server, mid: int, key: Key)

  class GateServer {
    const server: Server
    var gate: Gate
    var sent: seq<Packet>
    var reports: seq<DisconnectReq>

    constructor (server: Server)
      ensures this.server == server && gate == Gate(map[], map[]) && sent == [] && reports == []
    {
      this.server := server;
      gate, sent, reports := Gate(map[], map[]), [], [];
    }

    method OnConnected(session: nat, key: Key, room: Room)
      modifies this
      ensures gate == HandleConnect(old(gate), session, key, room)
      ensures sent == old(sent) + [Packet(session, 8, 0, "success")] && reports == old(reports)
    {
      var channels := if key in gate.channels then gate.channels else gate.channels[key := session];
      var members := if room in gate.rooms then gate.rooms[room] else {};
      gate := Gate(channels, gate.rooms[room := members + {session}]);
      sent := sent + [Packet(session, 8, 0, "success")];
    }

    /** Key, mid and room as stored in the session: empty when it never joined. */
    method OnDisconnected(session: nat, mid: int, key: Key, room: Room)
      modifies this
      ensures gate == HandleDisconnect(old(gate), session, key, room) && sent == old(sent)
      ensures reports == old(reports) + [DisconnectReq(server, mid, key)]
    {
      reports := reports + [DisconnectReq(server, mid, key)];
      if key in gate.channels {
        gate := gate.(channels := gate.channels - {key});
      }
      if room in gate.rooms {
        gate := gate.(rooms := gate.rooms[room := gate.rooms[room] - {session}]);
      }
      assert key !in old(gate.channels) ==> old(gate.channels) - {key} == old(gate.channels);
    }

    method SendToClient(key: Key, p: Proto)
      modifies this`sent
      ensures sent == old(sent) + if key in gate.channels then [PacketTo(gate.channels[key], p)] else []
    {
      if key in gate.channels {
        sent := sent + [PacketTo(gate.channels[key], p)];
      }
    }

    /** Members in any order, each once. */
    method SendToRoom(room: Room, p: Proto) returns (ghost order: seq<nat>)
      modifies this`sent
      ensures InAnyOrder(order, Members(gate.rooms, room))
      ensures sent == old(sent) + PacketsTo(order, p)
    {
      order := [];
      if room in gate.rooms {
        var left := gate.rooms[room];
        while left != {}
          invariant left <= gate.rooms[room]
          invariant multiset(order) == multiset(gate.rooms[room] - left)
          invariant sent == old(sent) + PacketsTo(order, p)
          decreases left
        {
          var session :| session in left;
          assert gate.rooms[room] - (left - {session}) == (gate.rooms[room] - left) + {session};
          assert PacketsTo(order + [session], p) == PacketsTo(order, p) + [PacketTo(session, p)];
          order := order + [session];
          sent := sent + [PacketTo(session, p)];
          left := left - {session};
        }
        assert gate.rooms[room] - left == gate.rooms[room];
      }
    }

    /** All channels in any order, each once. */
    method BroadCast(p: Proto) returns (ghost order: seq<Key>)
      modifies this`sent
      ensures InAnyOrder(order, gate.channels.Keys)
      ensures sent == old(sent) + SendsTo(gate.channels, order, p)
    {
      order := [];
      var left := gate.channels.Keys;
      while left != {}
        invariant left <= gate.channels.Keys
        invariant multiset(order) == multiset(gate.channels.Keys - left)
        invariant sent == old(sent) + SendsTo(gate.channels, order, p)
        decreases left
      {
        var key :| key in left;
        assert gate.channels.Keys - (left - {key}) == (gate.channels.Keys - left) + {key};
        SendOneMore(gate.channels, order, key, p);
        order := order + [key];
        sent := sent + [PacketTo(gate.channels[key], p)];
        left := left - {key};
      }
      assert gate.channels.Keys - left == gate.channels.Keys;
    }

    /** The PushMsg service: the keys in the order given. */
    method PushKeys(keys: seq<Key>, p: Proto)
      modifies this`sent
      ensures sent == old(sent) + SendsTo(gate.channels, keys, p)
    {
      var i := 0;
      while i < |keys|
        invariant i <= |keys|
        invariant sent == old(sent) + SendsTo(gate.channels, keys[..i], p)
      {
        SendOneMore(gate.channels, keys[..i], keys[i], p);
        assert keys[..i + 1] == keys[..i] + [keys[i]];
        SendToClient(keys[i], p);
        i := i + 1;
      }
      assert keys[..i] == keys;
    }
  }

  lemma SendOneMore(channels: map<Key, nat>, keys: seq<Key>, k: Key, p: Proto)
    ensures SendsTo(channels, keys + [k], p) ==
            SendsTo(channels, keys, p) + if k in channels then [PacketTo(channels[k], p)] else []
  {
    assert (keys + [k])[..|keys|] == keys;
  }

  /** JobServer::push: one message from the log, handed to the gate; the orders of iteration are returned for the record. */
  method JobPush(m: PushMsg, g: GateServer) returns (ghost sessions: seq<nat>, ghost keys: seq<Key>)
    modifies g`sent
    ensures m.ToKeys? ==> g.sent == old(g.sent) + SendsTo(g.gate.channels, m.keys, ProtoOf(m.msg))
    ensures m.ToRoom? ==>
              InAnyOrder(sessions, Members(g.gate.rooms, m.room)) && g.sent == old(g.sent) + PacketsTo(sessions, ProtoOf(m.msg))
    ensures m.ToAll? ==>
              InAnyOrder(keys, g.gate.channels.Keys) && g.sent == old(g.sent) + SendsTo(g.gate.channels, keys, ProtoOf(m.msg))
  {
    sessions, keys := [], [];
    match m
    case ToKeys(_, _, to_, msg) => g.PushKeys(to_, ProtoOf(msg));
    case ToRoom(room, msg) => sessions := g.SendToRoom(room, ProtoOf(msg));
    case ToAll(_, _, msg) => keys := g.BroadCast(ProtoOf(msg));
  }

  // ----- grouping by gate

  /** key -> server for all the members named; repeats do no harm. */
  function KeyServers(ix: Index, mids: seq<int>): map<Key, Server> {
    if mids == [] then map[] else KeyServers(ix, mids[..|mids| - 1]) + KeysOf(ix, mids[|mids| - 1])
  }

  function AllKeys(log: seq<PushMsg>): seq<Key> {
    if log == [] then []
    else
      var m := log[|log| - 1];
      AllKeys(log[..|log| - 1]) + if m.ToKeys? then m.keys else []
  }

  /** The log messages for a set of keys: one per server, each key once, in the message of its own server. */
  ghost predicate Routed(log: seq<PushMsg>, ks: map<Key, Server>, op: int, msg: Bytes) {
    && multiset(AllKeys(log)) == multiset(ks.Keys)
    && (forall i :: 0 <= i < |log| ==> ForServer(log[i], ks, op, msg))
    && OnePerServer(log)
  }

  predicate OnePerServer(log: seq<PushMsg>) {
    forall i, j :: 0 <= i < j < |log| && log[i].ToKeys? && log[j].ToKeys? ==> log[i].server != log[j].server
  }

  /** Every message so far goes to a server already done. */
  predicate Among(log: seq<PushMsg>, done: set<Server>) {
    forall i :: 0 <= i < |log| ==> log[i].ToKeys? && log[i].server in done
  }

  lemma OneMoreServer(log: seq<PushMsg>, done: set<Server>, m: PushMsg)
    requires OnePerServer(log) && Among(log, done) && m.ToKeys? && m.server !in done
    ensures OnePerServer(log + [m]) && Among(log + [m], done + {m.server})
  {
  }

  ghost predicate ForServer(m: PushMsg, ks: map<Key, Server>, op: int, msg: Bytes) {
    && m.ToKeys? && m.operation == op && m.msg == msg && m.keys != []
    && forall k :: k in m.keys ==> k in ks && ks[k] == m.server
  }

  /** Keys of `ks`, among those in `done`, that belong to `server`. */
  function KeysAt(ks: map<Key, Server>, done: set<Key>, server: Server): set<Key> {
    set k | k in ks && k in done && ks[k] == server
  }

  ghost predicate GroupedUpTo(groups: map<Server, seq<Key>>, ks: map<Key, Server>, done: set<Key>) {
    && (forall k :: k in ks && k in done ==> ks[k] in groups)
    && (forall s :: s in groups ==> groups[s] != [] && multiset(groups[s]) == multiset(KeysAt(ks, done, s)))
  }

  lemma KeysAtOneMore(ks: map<Key, Server>, done: set<Key>, k: Key, s: Server)
    requires k in ks && k !in done
    ensures multiset(KeysAt(ks, done + {k}, s)) == multiset(KeysAt(ks, done, s)) + if s == ks[k] then multiset{k} else multiset{}
  {
    if s == ks[k] {
      assert KeysAt(ks, done + {k}, s) == KeysAt(ks, done, s) + {k};
    } else {
      assert KeysAt(ks, done + {k}, s) == KeysAt(ks, done, s);
    }
  }

  lemma GroupOneMore(groups: map<Server, seq<Key>>, ks: map<Key, Server>, done: set<Key>, k: Key)
    requires GroupedUpTo(groups, ks, done) && k in ks && k !in done
    ensures var before := if ks[k] in groups then groups[ks[k]] else [];
            GroupedUpTo(groups[ks[k] := before + [k]], ks, done + {k})
  {
    var server := ks[k];
    var before := if server in groups then groups[server] else [];
    var after := groups[server := before + [k]];
    if server !in groups {
      assert KeysAt(ks, done, server) == {};
    }
    forall s | s in after ensures after[s] != [] && multiset(after[s]) == multiset(KeysAt(ks, done + {k}, s)) {
      KeysAtOneMore(ks, done, k, s);
    }
  }

  method GroupByServer(ks: map<Key, Server>) returns (groups: map<Server, seq<Key>>)
    ensures GroupedUpTo(groups, ks, ks.Keys)
  {
    groups := map[];
    var left := ks.Keys;
    while left != {}
      invariant left <= ks.Keys && GroupedUpTo(groups, ks, ks.Keys - left)
      decreases left
    {
      var k :| k in left;
      GroupOneMore(groups, ks, ks.Keys - left, k);
      assert ks.Keys - (left - {k}) == (ks.Keys - left) + {k};
      var before := if ks[k] in groups then groups[ks[k]] else [];
      groups := groups[ks[k] := before + [k]];
      left := left - {k};
    }
    assert ks.Keys - left == ks.Keys;
  }

  /** Keys of the servers in `done`. */
  function KeysFor(ks: map<Key, Server>, done: set<Server>): set<Key> {
    set k | k in ks && ks[k] in done
  }

  lemma KeysForOneMore(ks: map<Key, Server>, done: set<Server>, server: Server)
    requires server !in done
    ensures multiset(KeysFor(ks, done + {server})) == multiset(KeysFor(ks, done)) + multiset(KeysAt(ks, ks.Keys, server))
  {
    assert KeysFor(ks, done + {server}) == KeysFor(ks, done) + KeysAt(ks, ks.Keys, server);
    assert KeysFor(ks, done) !! KeysAt(ks, ks.Keys, server);
  }

  lemma LogOneMore(log: seq<PushMsg>, m: PushMsg)
    requires m.ToKeys?
    ensures AllKeys(log + [m]) == AllKeys(log) + m.keys
  {
    assert (log + [m])[..|log|] == log;
  }

  lemma GroupIsForServer(groups: map<Server, seq<Key>>, ks: map<Key, Server>, server: Server, op: int, msg: Bytes)
    requires GroupedUpTo(groups, ks, ks.Keys) && server in groups
    ensures ForServer(ToKeys(op, server, groups[server], msg), ks, op, msg)
  {
    forall k | k in groups[server] ensures k in ks && ks[k] == server {
      assert k in multiset(groups[server]);
    }
  }

  /** The messages for the servers in `done`. */
  ghost predicate RoutedFor(log: seq<PushMsg>, ks: map<Key, Server>, done: set<Server>, op: int, msg: Bytes) {
    && multiset(AllKeys(log)) == multiset(KeysFor(ks, done))
    && (forall i :: 0 <= i < |log| ==> ForServer(log[i], ks, op, msg))
    && OnePerServer(log) && Among(log, done)
  }

  lemma RouteOneMore(log: seq<PushMsg>, groups: map<Server, seq<Key>>, ks: map<Key, Server>, done: set<Server>,
                     op: int, msg: Bytes, server: Server)
    requires GroupedUpTo(groups, ks, ks.Keys) && RoutedFor(log, ks, done, op, msg) && server in groups && server !in done
    ensures RoutedFor(log + [ToKeys(op, server, groups[server], msg)], ks, done + {server}, op, msg)
  {
    var m := ToKeys(op, server, groups[server], msg);
    KeysForOneMore(ks, done, server);
    GroupIsForServer(groups, ks, server, op, msg);
    LogOneMore(log, m);
    OneMoreServer(log, done, m);
  }

  /** One message per group, in the order the map yields them. */
  method PushGroups(groups: map<Server, seq<Key>>, ghost ks: map<Key, Server>, op: int, msg: Bytes) returns (log: seq<PushMsg>)
    requires GroupedUpTo(groups, ks, ks.Keys)
    ensures Routed(log, ks, op, msg)
  {
    log := [];
    var left := groups.Keys;
    ghost var done: set<Server> := {};
    while left != {}
      invariant left <= groups.Keys && done == groups.Keys - left
      invariant RoutedFor(log, ks, done, op, msg)
      decreases left
    {
      var server :| server in left;
      RouteOneMore(log, groups, ks, done, op, msg, server);
      log := log + [ToKeys(op, server, groups[server], msg)];
      left := left - {server};
      done := done + {server};
    }
    assert KeysFor(ks, done) == ks.Keys;
  }

  method LookUp(ix: Index, mids: seq<int>) returns (keyServer: map<Key, Server>)
    ensures keyServer == KeyServers(ix, mids)
  {
    keyServer := map[];
    var i := 0;
    while i < |mids|
      invariant i <= |mids|
      invariant keyServer == KeyServers(ix, mids[..i])
    {
      assert mids[..i + 1][..i] == mids[..i];
      keyServer := keyServer + KeysOf(ix, mids[i]);
      i := i + 1;
    }
    assert mids[..i] == mids;
  }

  /** LogicServer::PushMsgByMids: look up, merge, group, and put one message per server on the log. */
  method PushMsgByMids(ix: Index, mids: seq<int>, op: int, msg: Bytes) returns (log: seq<PushMsg>)
    ensures Routed(log, KeyServers(ix, mids), op, msg)
  {
    var keyServer := LookUp(ix, mids);
    var groups := GroupByServer(keyServer);
    log := PushGroups(groups, keyServer, op, msg);
  }

  // ----- who receives what

  /** All packets sent for the messages of a log. */
  function Delivered(channels: map<Key, nat>, log: seq<PushMsg>): seq<Packet> {
    if log == [] then []
    else
      var m := log[|log| - 1];
      Delivered(channels, log[..|log| - 1]) + if m.ToKeys? then SendsTo(channels, m.keys, ProtoOf(m.msg)) else []
  }

  lemma AppendPackets(a: seq<Packet>, b: seq<Packet>, c: seq<Packet>)
    ensures (a + b) + c == a + (b + c)
  {
  }

  lemma DeliverOneMore(channels: map<Key, nat>, log: seq<PushMsg>, i: nat)
    requires i < |log| && log[i].ToKeys?
    ensures Delivered(channels, log[..i + 1]) == Delivered(channels, log[..i]) + SendsTo(channels, log[i].keys, ProtoOf(log[i].msg))
  {
    assert log[..i + 1][..i] == log[..i];
  }

  /** The job server's loop over the log. */
  method RunLog(log: seq<PushMsg>, g: GateServer)
    requires forall i :: 0 <= i < |log| ==> log[i].ToKeys?
    modifies g`sent
    ensures g.sent == old(g.sent) + Delivered(g.gate.channels, log)
  {
    var i := 0;
    ghost var before, done: seq<Packet> := g.sent, [];
    while i < |log|
      invariant i <= |log|
      invariant done == Delivered(g.gate.channels, log[..i]) && g.sent == before + done
    {
      ghost var packets := SendsTo(g.gate.channels, log[i].keys, ProtoOf(log[i].msg));
      DeliverOneMore(g.gate.channels, log, i);
      var _, _ := JobPush(log[i], g);
      AppendPackets(before, done, packets);
      done := done + packets;
      i := i + 1;
    }
    assert log[..i] == log;
  }

  /** A push from the members named to the packets of one gate, with nothing in between. */
  method PushToMembers(ix: Index, mids: seq<int>, op: int, msg: Bytes, g: GateServer) returns (ghost log: seq<PushMsg>)
    modifies g`sent
    ensures Routed(log, KeyServers(ix, mids), op, msg)
    ensures g.sent == old(g.sent) + Delivered(g.gate.channels, log)
  {
    var messages := PushMsgByMids(ix, mids, op, msg);
    RunLog(messages, g);
    log := messages;
  }

  lemma {:induction false} SendsToConcat(channels: map<Key, nat>, a: seq<Key>, b: seq<Key>, p: Proto)
    ensures SendsTo(channels, a + b, p) == SendsTo(channels, a, p) + SendsTo(channels, b, p)
  {
    if b == [] {
      assert a + b == a;
    } else {
      var front, k := b[..|b| - 1], b[|b| - 1];
      SendsToConcat(channels, a, front, p);
      SendOneMore(channels, a + front, k, p);
      assert a + b == (a + front) + [k];
    }
  }

  lemma {:induction false} DeliveredIsSends(channels: map<Key, nat>, log: seq<PushMsg>, ks: map<Key, Server>, op: int, msg: Bytes)
    requires forall i :: 0 <= i < |log| ==> ForServer(log[i], ks, op, msg)
    ensures Delivered(channels, log) == SendsTo(channels, AllKeys(log), ProtoOf(msg))
  {
    if log != [] {
      var front, m := log[..|log| - 1], log[|log| - 1];
      assert ForServer(m, ks, op, msg);
      DeliveredIsSends(channels, front, ks, op, msg);
      SendsToConcat(channels, AllKeys(front), m.keys, ProtoOf(msg));
    }
  }

  /** A session gets one packet for every occurrence of its key, if only its key leads to it. */
  lemma {:induction false} CountSends(channels: map<Key, nat>, keys: seq<Key>, p: Proto, x: nat, key: Key)
    requires key in channels && channels[key] == x
    requires forall k :: k in channels && channels[k] == x ==> k == key
    ensures multiset(SendsTo(channels, keys, p))[PacketTo(x, p)] == multiset(keys)[key]
  {
    if keys != [] {
      var front, k := keys[..|keys| - 1], keys[|keys| - 1];
      CountSends(channels, front, p, x, key);
      assert keys == front + [k];
    }
  }

  lemma {:induction false} NoSends(channels: map<Key, nat>, keys: seq<Key>, p: Proto, x: nat)
    requires forall k :: k in channels ==> channels[k] != x
    ensures multiset(SendsTo(channels, keys, p))[PacketTo(x, p)] == 0
  {
    if keys != [] {
      NoSends(channels, keys[..|keys| - 1], p, x);
    }
  }

  lemma {:induction false} OnlySuchPackets(channels: map<Key, nat>, keys: seq<Key>, p: Proto, q: Packet)
    requires q in SendsTo(channels, keys, p)
    ensures q == PacketTo(q.session, p)
  {
    var front, k := keys[..|keys| - 1], keys[|keys| - 1];
    if q in SendsTo(channels, front, p) {
      OnlySuchPackets(channels, front, p, q);
    }
  }

  /** In a valid state only a shown session has a channel, and only one. */
  lemma ChannelOf(ss: seq<Session>, channels: map<Key, nat>, k: Key)
    requires ChannelsOk(ss, channels) && k in channels
    ensures channels[k] < |ss| && Shown(ss[channels[k]]) && ss[channels[k]].auth.key == k
  {
    assert k in KeysWhere(ss, Shown);
    var i :| 0 <= i < |ss| && Shown(ss[i]) && HasKey(ss[i]) && ss[i].auth.key == k;
    assert channels[k] == i;
  }

  /** How many packets a list of keys brings to session `x`. */
  lemma SessionSends(ss: seq<Session>, channels: map<Key, nat>, keys: seq<Key>, p: Proto, x: nat)
    requires ChannelsOk(ss, channels)
    ensures multiset(SendsTo(channels, keys, p))[PacketTo(x, p)] ==
            if x < |ss| && Shown(ss[x]) then multiset(keys)[ss[x].auth.key] else 0
  {
    forall k | k in channels ensures channels[k] < |ss| && Shown(ss[channels[k]]) && ss[channels[k]].auth.key == k {
      ChannelOf(ss, channels, k);
    }
    if x < |ss| && Shown(ss[x]) {
      CountSends(channels, keys, p, x, ss[x].auth.key);
    } else {
      NoSends(channels, keys, p, x);
    }
  }

  /** A broadcast reaches every indexed session once and nobody else. */
  lemma BroadcastReaches(ss: seq<Session>, channels: map<Key, nat>, order: seq<Key>, p: Proto, x: nat)
    requires ChannelsOk(ss, channels) && InAnyOrder(order, channels.Keys)
    ensures multiset(SendsTo(channels, order, p))[PacketTo(x, p)] == if x < |ss| && Shown(ss[x]) then 1 else 0
  {
    SessionSends(ss, channels, order, p, x);
  }

  lemma {:induction false} CountPackets(order: seq<nat>, p: Proto, x: nat)
    ensures multiset(PacketsTo(order, p))[PacketTo(x, p)] == multiset(order)[x]
  {
    if order != [] {
      var front, last := order[..|order| - 1], order[|order| - 1];
      CountPackets(front, p, x);
      assert order == front + [last];
      assert PacketsTo(order, p) == PacketsTo(front, p) + [PacketTo(last, p)];
    }
  }

  /** A room send reaches every indexed session of the room once and nobody else. */
  lemma RoomSendReaches(ss: seq<Session>, rooms: map<Room, set<nat>>, room: Room, order: seq<nat>, p: Proto, x: nat)
    requires RoomsOk(ss, rooms) && InAnyOrder(order, Members(rooms, room))
    ensures multiset(PacketsTo(order, p))[PacketTo(x, p)] ==
            if x < |ss| && Shown(ss[x]) && ss[x].auth.room == room then 1 else 0
  {
    CountPackets(order, p, x);
    assert Members(rooms, room) == Where(ss, ShownIn(room));
  }

  /** In every run with nobody stranded, a broadcast brings one packet to each live session and none to others. */
  lemma BroadcastReachesLive(server: Server, states: seq<System>, acts: seq<Action>, i: nat, order: seq<Key>, p: Proto, x: nat)
    requires IsRun(server, states, acts) && i < |states| && !Stranded(states[i])
    requires InAnyOrder(order, states[i].gate.channels.Keys)
    ensures var s := states[i];
            multiset(SendsTo(s.gate.channels, order, p))[PacketTo(x, p)] ==
            if x < |s.sessions| && Live(s.sessions[x]) then 1 else 0
  {
    assert Inv(server, states[i]) by { RunKeeps(server, states, acts, i); }
    BroadcastReaches(states[i].sessions, states[i].gate.channels, order, p, x);
  }

  /** Likewise a send to a room, for its live sessions. */
  lemma RoomSendReachesLive(server: Server, states: seq<System>, acts: seq<Action>, i: nat, room: Room, order: seq<nat>, p: Proto, x: nat)
    requires IsRun(server, states, acts) && i < |states| && !Stranded(states[i])
    requires InAnyOrder(order, Members(states[i].gate.rooms, room))
    ensures var s := states[i];
            multiset(PacketsTo(order, p))[PacketTo(x, p)] ==
            if x < |s.sessions| && Live(s.sessions[x]) && s.sessions[x].auth.room == room then 1 else 0
  {
    assert Inv(server, states[i]) by { RunKeeps(server, states, acts, i); }
    RoomSendReaches(states[i].sessions, states[i].gate.rooms, room, order, p, x);
  }

  // ----- from the lookup to the delivery

  lemma {:induction false} KeyServersMember(ix: Index, mids: seq<int>, k: Key)
    ensures k in KeyServers(ix, mids) <==> exists m :: m in mids && k in KeysOf(ix, m)
  {
    if mids != [] {
      var front, last := mids[..|mids| - 1], mids[|mids| - 1];
      KeyServersMember(ix, front, k);
      assert mids == front + [last];
    }
  }

  /** Every key keeps the server it was looked up with. */
  lemma {:induction false} KeyServersFrom(ix: Index, mids: seq<int>, k: Key) returns (m: int)
    requires k in KeyServers(ix, mids)
    ensures m in mids && k in KeysOf(ix, m) && KeysOf(ix, m)[k] == KeyServers(ix, mids)[k]
  {
    var front, last := mids[..|mids| - 1], mids[|mids| - 1];
    if k in KeysOf(ix, last) {
      m := last;
    } else {
      m := KeyServersFrom(ix, front, k);
      assert m in front;
    }
  }

  /** In a run every message put on the log is for this gate. */
  lemma LogIsForGate(server: Server, s: System, mids: seq<int>, op: int, msg: Bytes, log: seq<PushMsg>, n: nat)
    requires Inv(server, s) && Routed(log, KeyServers(s.index, mids), op, msg) && n < |log|
    ensures log[n].ToKeys? && log[n].server == server
  {
    assert ForServer(log[n], KeyServers(s.index, mids), op, msg);
    var k := log[n].keys[0];
    var m := KeyServersFrom(s.index, mids, k);
    assert AllFrom(KeysOf(s.index, m), server);
  }

  /** Once given, a key, a mid and a room stay with their session. */
  lemma {:induction false} KeysStay(server: Server, states: seq<System>, acts: seq<Action>, i: nat, j: nat, x: nat)
    requires IsRun(server, states, acts) && i <= j < |states|
    requires x < |states[i].sessions| && HasKey(states[i].sessions[x])
    ensures x < |states[j].sessions| && HasKey(states[j].sessions[x])
    ensures states[j].sessions[x].auth.key == states[i].sessions[x].auth.key
    ensures states[j].sessions[x].auth.mid == states[i].sessions[x].auth.mid
  {
    if i < j {
      KeysStay(server, states, acts, i, j - 1, x);
      assert IsStep(server, states[j - 1], acts[j - 1], states[j]);
    }
  }

  /** Whether session `x`, which has a key in state `j`, was found by the lookup made in state `i`. */
  ghost predicate Found(s: System, mids: seq<int>, x: nat) {
    x < |s.sessions| && Registered(s.sessions[x]) && s.sessions[x].auth.mid in mids
  }

  /** In one state: whose key a lookup returns. */
  lemma LookupOwner(server: Server, s: System, mids: seq<int>, k: Key) returns (y: nat)
    requires Inv(server, s) && k in KeyServers(s.index, mids)
    ensures Found(s, mids, y) && s.sessions[y].auth.key == k
  {
    KeyServersMember(s.index, mids, k);
    var m :| m in mids && k in KeysOf(s.index, m);
    assert k in KeysWhere(s.sessions, RegisteredAs(m));
    y :| 0 <= y < |s.sessions| && RegisteredAs(m)(s.sessions[y]) && HasKey(s.sessions[y]) && s.sessions[y].auth.key == k;
  }

  lemma LookupReturns(server: Server, s: System, mids: seq<int>, x: nat)
    requires Inv(server, s) && Found(s, mids, x)
    ensures s.sessions[x].auth.key in KeyServers(s.index, mids)
  {
    var me := s.sessions[x].auth;
    KeyBelongs(s.sessions, x, RegisteredAs(me.mid));
    assert me.key in KeysOf(s.index, me.mid);
    KeyServersMember(s.index, mids, me.key);
  }

  lemma LookupFinds(server: Server, states: seq<System>, acts: seq<Action>, i: nat, j: nat, mids: seq<int>, x: nat)
    requires IsRun(server, states, acts) && i <= j < |states|
    requires x < |states[j].sessions| && HasKey(states[j].sessions[x])
    ensures states[j].sessions[x].auth.key in KeyServers(states[i].index, mids) <==> Found(states[i], mids, x)
  {
    assert Inv(server, states[i]) by { RunKeeps(server, states, acts, i); }
    assert Inv(server, states[j]) by { RunKeeps(server, states, acts, j); }
    var k := states[j].sessions[x].auth.key;
    if k in KeyServers(states[i].index, mids) {
      var y := LookupOwner(server, states[i], mids, k);
      KeysStay(server, states, acts, i, j, y);
      assert y == x;
    }
    if Found(states[i], mids, x) {
      KeysStay(server, states, acts, i, j, x);
      LookupReturns(server, states[i], mids, x);
    }
  }

  /**
   A push to a list of members, repeats allowed, whose lookup is made in one state of a run and
   whose packets are sent in the same or a later one: exactly one packet, with operation 9 and
   the message, goes to each session that is indexed at the gate when the packets are sent and
   was registered under one of the members when they were looked up; no other packet is sent,
   and every message on the log names this gate.
   */
  lemma PushReaches(server: Server, states: seq<System>, acts: seq<Action>, i: nat, j: nat,
                    mids: seq<int>, op: int, msg: Bytes, log: seq<PushMsg>, x: nat)
    requires IsRun(server, states, acts) && i <= j < |states|
    requires Routed(log, KeyServers(states[i].index, mids), op, msg)
    ensures var packets := Delivered(states[j].gate.channels, log);
            && multiset(packets)[Packet(x, 9, 0, msg)] ==
               (if x < |states[j].sessions| && Shown(states[j].sessions[x]) && Found(states[i], mids, x) then 1 else 0)
            && (forall q :: q in packets ==> q == Packet(q.session, 9, 0, msg))
            && forall n :: 0 <= n < |log| ==> log[n].ToKeys? && log[n].server == server
  {
    assert Inv(server, states[i]) by { RunKeeps(server, states, acts, i); }
    forall n | 0 <= n < |log| ensures log[n].ToKeys? && log[n].server == server {
      LogIsForGate(server, states[i], mids, op, msg, log, n);
    }
    var t, ks, p := states[j], KeyServers(states[i].index, mids), ProtoOf(msg);
    assert Inv(server, states[j]) by { RunKeeps(server, states, acts, j); }
    DeliveredIsSends(t.gate.channels, log, ks, op, msg);
    SessionSends(t.sessions, t.gate.channels, AllKeys(log), p, x);
    if x < |t.sessions| && Shown(t.sessions[x]) {
      LookupFinds(server, states, acts, i, j, mids, x);
    }
    forall q | q in Delivered(t.gate.channels, log) ensures q == Packet(q.session, 9, 0, msg) {
      OnlySuchPackets(t.gate.channels, AllKeys(log), p, q);
    }
  }

  /**
   In a state where nothing changes between lookup and sending, and no session was closed during
   its authentication: exactly one packet to each live session whose mid is listed, none to others.
   */
  lemma PushReachesLive(server: Server, states: seq<System>, acts: seq<Action>, i: nat,
                        mids: seq<int>, op: int, msg: Bytes, log: seq<PushMsg>, x: nat)
    requires IsRun(server, states, acts) && i < |states| && !Stranded(states[i])
    requires Routed(log, KeyServers(states[i].index, mids), op, msg)
    ensures var s := states[i];
            multiset(Delivered(s.gate.channels, log))[Packet(x, 9, 0, msg)] ==
            if x < |s.sessions| && Live(s.sessions[x]) && s.sessions[x].auth.mid in mids then 1 else 0
  {
    PushReaches(server, states, acts, i, i, mids, op, msg, log, x);
  }
}
