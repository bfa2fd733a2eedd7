/**
  Port cabling and NIC attribution (`internal/store/port_repo.go` and
  `nic_repo.go`) over the `ports` and `nics` tables.  A port's id is the key of
  its row; 0 in `peer` or `nic` means none.
 */
module Ports {
  import opened Wrappers

  datatype Port = Port(ownerType: string, ownerId: int, nic: int, peer: int, info: string)

  datatype NIC = NIC(hostId: int, info: string)

  datatype Error = NotFound | NoSuchNIC | OtherHost | SelfLink | NoSuchPeer | PeerTaken | UniqueViolated

  type PortTable = map<int, Port>

  type NICTable = map<int, NIC>

  // ---- What the tables must satisfy ----

  /** The cable of port k, if it has one, ends at another port whose cable ends at k. */
  predicate LinkOk(ports: PortTable, k: int)
    requires k in ports
  {
    var p := ports[k].peer;
    p != 0 ==> p != k && k != 0 && p in ports && ports[p].peer == k
  }

  /** `peer_port_id` is a symmetric partial matching without self-links or dangling ends. */
  ghost predicate Matching(ports: PortTable) {
    forall k :: k in ports ==> LinkOk(ports, k)
  }

  /** The port that port k names names k back, where 0 stands for no peer as ever. */
  predicate Answered(ports: PortTable, k: int)
    requires k in ports
  {
    var p := ports[k].peer;
    p != 0 ==> p != k && p in ports && ports[p].peer == k
  }

  /** Links are a matching but for port 0, which a port that it names cannot name back. */
  ghost predicate AllAnswered(ports: PortTable) {
    forall k :: k in ports ==> Answered(ports, k)
  }

  /** The matchings are the tables of this kind whose port 0, if any, is uncabled. */
  lemma {:induction false} MatchingMeaning(ports: PortTable)
    ensures Matching(ports) <==> AllAnswered(ports) && (0 in ports ==> ports[0].peer == 0)
  {
    if Matching(ports) {
      forall k | k in ports ensures Answered(ports, k) {
        assert LinkOk(ports, k);
      }
      assert 0 in ports ==> LinkOk(ports, 0);
    } else {
      var k :| k in ports && !LinkOk(ports, k);
      assert Answered(ports, k) ==> k == 0 && ports[0].peer != 0;
    }
  }

  lemma {:induction false} AnsweredIsUnique(ports: PortTable)
    requires AllAnswered(ports)
    ensures UniquePeers(ports)
  {
    forall i, k | i in ports && k in ports && i != k && ports[i].peer != 0 ensures ports[i].peer != ports[k].peer {
      assert Answered(ports, i) && Answered(ports, k);
    }
  }

  /** The rule of `checkNIC`. */
  predicate NICFits(nics: NICTable, v: Port) {
    v.nic != 0 ==> v.nic in nics && v.ownerType == "host" && nics[v.nic].hostId == v.ownerId
  }

  /** Every attribution names a NIC of the host that owns the port. */
  ghost predicate Attributed(ports: PortTable, nics: NICTable) {
    forall k :: k in ports ==> NICFits(nics, ports[k])
  }

  /** The partial unique index: no two rows name the same peer. */
  ghost predicate UniquePeers(ports: PortTable) {
    forall i, k :: i in ports && k in ports && i != k && ports[i].peer != 0 ==> ports[i].peer != ports[k].peer
  }

  lemma {:induction false} MatchingIsUnique(ports: PortTable)
    requires Matching(ports)
    ensures UniquePeers(ports)
  {
    forall i, k | i in ports && k in ports && i != k && ports[i].peer != 0 ensures ports[i].peer != ports[k].peer {
      assert LinkOk(ports, i) && LinkOk(ports, k);
    }
  }

  // ---- What a connection does ----

  /** Every link to or from id is cleared. */
  function Disconnected(ports: PortTable, id: int): PortTable {
    map k | k in ports :: if k == id || ports[k].peer == id then ports[k].(peer := 0) else ports[k]
  }

  /** id and its new peer name each other, and id's old peer names nothing. */
  function Rewired(ports: PortTable, id: int, peer: int): PortTable {
    map k | k in ports ::
      if k == id then ports[k].(peer := peer)
      else if k == peer && peer != 0 then ports[k].(peer := id)
      else if ports[k].peer == id then ports[k].(peer := 0)
      else ports[k]
  }

  /** When `connect` accepts: the peer exists, is another port, and is free or already id's. */
  predicate CanConnect(ports: PortTable, id: int, peer: int) {
    peer != id && (peer != 0 ==> peer in ports && ports[peer].peer in {0, id})
  }

  function ConnectError(ports: PortTable, id: int, peer: int): Error {
    if peer == id then SelfLink else if peer in ports then PeerTaken else NoSuchPeer
  }

  function NICError(nics: NICTable, v: Port): Error {
    if v.nic in nics then OtherHost else NoSuchNIC
  }

  /**
    From a matching, the result of an accepted connection is a matching exactly
    when the port is not port 0 or is being disconnected: 0 stands for no peer, so
    the other end cannot name port 0.
   */
  lemma {:induction false} RewiredMatchesExactly(ports: PortTable, id: int, peer: int)
    requires Matching(ports) && id in ports && CanConnect(ports, id, peer)
    ensures Matching(Rewired(ports, id, peer)) <==> id != 0 || peer == 0
  {
    var t := Rewired(ports, id, peer);
    if id == 0 && peer != 0 {
      assert !LinkOk(t, id);
    } else {
      forall k | k in t ensures LinkOk(t, k) {
        assert LinkOk(ports, k) && LinkOk(ports, id);
        if ports[k].peer != 0 {
          assert LinkOk(ports, ports[k].peer);
        }
        if peer != 0 {
          assert LinkOk(ports, peer);
        }
      }
    }
  }

  /** Port 0 cabled to a free port: `connect` accepts, and the other end does not name port 0. */
  lemma {:induction false} CablingZeroBreaks(p: Port, q: Port)
    requires p.peer == 0 && q.peer == 0
    ensures var t := map[0 := p, 5 := q]; Matching(t) && CanConnect(t, 0, 5) && !Matching(Rewired(t, 0, 5))
  {
    var t := map[0 := p, 5 := q];
    RewiredMatchesExactly(t, 0, 5);
  }

  /** Only the links of the port, its old peer and its new peer change, and nothing but links. */
  lemma {:induction false} RewiredFrame(ports: PortTable, id: int, peer: int)
    requires Matching(ports) && id in ports && id != 0 && CanConnect(ports, id, peer)
    ensures Rewired(ports, id, peer).Keys == ports.Keys
    ensures forall k :: k in ports && k !in {id, peer, ports[id].peer} ==> Rewired(ports, id, peer)[k] == ports[k]
    ensures forall k :: k in ports ==> Rewired(ports, id, peer)[k].(peer := 0) == ports[k].(peer := 0)
    ensures Rewired(ports, id, peer)[id].peer == peer
    ensures peer != 0 ==> Rewired(ports, id, peer)[peer].peer == id
    ensures ports[id].peer != 0 && ports[id].peer != peer ==> Rewired(ports, id, peer)[ports[id].peer].peer == 0
  {
    assert LinkOk(ports, id);
    forall k | k in ports && k !in {id, peer, ports[id].peer} ensures Rewired(ports, id, peer)[k] == ports[k] {
      assert LinkOk(ports, k);
    }
  }

  /** Reading a port and writing it back unchanged keeps every link. */
  lemma {:induction false} ReconnectSame(ports: PortTable, id: int)
    requires Matching(ports) && id in ports && id != 0
    ensures CanConnect(ports, id, ports[id].peer) && Rewired(ports, id, ports[id].peer) == ports
  {
    assert LinkOk(ports, id);
    forall k | k in ports ensures Rewired(ports, id, ports[id].peer)[k] == ports[k] {
      assert LinkOk(ports, k);
    }
  }

  // ---- What the operations do to the tables ----

  datatype DB = DB(ports: PortTable, nics: NICTable)

  ghost predicate Inv(db: DB) {
    Matching(db.ports) && Attributed(db.ports, db.nics)
  }

  /** The row of v is written, its link left for `connect`. */
  function WithRow(ports: PortTable, id: int, v: Port, peer: int): PortTable {
    ports[id := v.(peer := peer)]
  }

  /** The tables after `DeletePort`. */
  function PortGone(db: DB, id: int): DB {
    db.(ports := map k | k in db.ports && k != id ::
                   if db.ports[k].peer == id then db.ports[k].(peer := 0) else db.ports[k])
  }

  /** The tables after `UpdateNIC`: ports that do not fit the NIC any more lose their attribution. */
  function NICChanged(db: DB, id: int, v: NIC): DB {
    DB(map k | k in db.ports ::
         var p := db.ports[k];
         if p.nic == id && !(p.ownerType == "host" && p.ownerId == v.hostId) then p.(nic := 0) else p,
       db.nics[id := v])
  }

  /** The tables after `DeleteNIC`. */
  function NICGone(db: DB, id: int): DB {
    DB(map k | k in db.ports :: if db.ports[k].nic == id then db.ports[k].(nic := 0) else db.ports[k], db.nics - {id})
  }

  // ---- What each operation changes, and what it leaves ----

  /** The links of a matching, written out. */
  lemma {:induction false} MatchingSymmetric(ports: PortTable)
    ensures Matching(ports) <==> forall k :: k in ports && ports[k].peer != 0 ==>
      k != 0 && ports[k].peer != k && ports[k].peer in ports && ports[ports[k].peer].peer == k
  {
    if Matching(ports) {
      forall k | k in ports && ports[k].peer != 0
        ensures k != 0 && ports[k].peer != k && ports[k].peer in ports && ports[ports[k].peer].peer == k {
        assert LinkOk(ports, k);
      }
    }
  }

  /** A connection is accepted exactly when it names no peer, or another port to which no third port is cabled. */
  lemma {:induction false} CanConnectExactly(ports: PortTable, id: int, peer: int)
    requires Matching(ports) && id in ports && id != 0
    ensures CanConnect(ports, id, peer) <==>
      peer == 0 || (peer != id && peer in ports && forall k :: k in ports && ports[k].peer == peer ==> k == id)
  {
    MatchingSymmetric(ports);
    if peer != 0 && peer in ports {
      assert ports[peer].peer != 0 ==> ports[peer].peer in ports;
    }
  }

  /** The three refusals of a connection. */
  lemma {:induction false} ConnectErrorMeaning(ports: PortTable, id: int, peer: int)
    requires !CanConnect(ports, id, peer)
    ensures ConnectError(ports, id, peer) == SelfLink <==> peer == id
    ensures ConnectError(ports, id, peer) == NoSuchPeer <==> peer != id && peer !in ports
    ensures ConnectError(ports, id, peer) == PeerTaken <==>
      peer != id && peer in ports && peer != 0 && ports[peer].peer != 0 && ports[peer].peer != id
  {
  }

  /** A port may name no NIC or a NIC of the host that owns it; the refusals tell a missing NIC from another host's. */
  lemma {:induction false} NICRuleMeaning(nics: NICTable, v: Port)
    ensures var own := v.nic in nics && v.ownerType == "host" && v.ownerId == nics[v.nic].hostId;
      && (NICFits(nics, v) <==> v.nic == 0 || own)
      && (!NICFits(nics, v) ==> NICError(nics, v) == if v.nic in nics then OtherHost else NoSuchNIC)
  {
  }

  /** A created port is stored as given; only the port at the other end of its cable changes, and only its link. */
  lemma {:induction false} CreatedFrame(ports: PortTable, id: int, v: Port)
    requires Matching(ports) && id > 0 && id !in ports && CanConnect(WithRow(ports, id, v, 0), id, v.peer)
    ensures var t := Rewired(WithRow(ports, id, v, 0), id, v.peer);
      && t.Keys == ports.Keys + {id} && t[id] == v
      && (v.peer != 0 ==> v.peer in ports && ports[v.peer].peer == 0 && t[v.peer] == ports[v.peer].(peer := id))
      && forall k :: k in ports && k != v.peer ==> t[k] == ports[k]
  {
    MatchingSymmetric(ports);
  }

  /**
    An updated port is stored as given; of the others only the ends of its old and its
    new cable change their links.
   */
  lemma {:induction false} UpdatedFrame(ports: PortTable, id: int, v: Port)
    requires Matching(ports) && id in ports && id != 0 && CanConnect(ports, id, v.peer)
    ensures var (t, was) := (Rewired(WithRow(ports, id, v, ports[id].peer), id, v.peer), ports[id].peer);
      && t.Keys == ports.Keys && t[id] == v
      && (v.peer != 0 ==> v.peer in ports && t[v.peer] == ports[v.peer].(peer := id))
      && (was != 0 && was != v.peer ==> was in ports && t[was] == ports[was].(peer := 0))
      && forall k :: k in ports && k != id && k != was && k != v.peer ==> t[k] == ports[k]
  {
    MatchingSymmetric(ports);
  }

  /** Deletion takes one row: a row that named it loses its link and nothing else, and no other row changes. */
  lemma {:induction false} PortGoneFrame(db: DB, id: int)
    ensures var t := PortGone(db, id).ports;
      && PortGone(db, id).nics == db.nics && t.Keys == db.ports.Keys - {id}
      && (forall k :: k in t && db.ports[k].peer != id ==> t[k] == db.ports[k])
      && (forall k :: k in t && db.ports[k].peer == id ==> t[k].peer == 0 && t[k].(peer := id) == db.ports[k])
  {
  }

  /** In a matching, so, deletion unplugs the one port at the other end. */
  lemma {:induction false} DeleteUnplugsOne(db: DB, id: int)
    requires Matching(db.ports) && id in db.ports && id != 0
    ensures var (t, end) := (PortGone(db, id).ports, db.ports[id].peer);
      && (forall k :: k in t && k != end ==> t[k] == db.ports[k])
      && (end != 0 ==> end in t && t[end] == db.ports[end].(peer := 0))
  {
    MatchingSymmetric(db.ports);
    PortGoneFrame(db, id);
  }

  /** The ports whose attribution fits the changed NIC keep it, the others lose it; nothing else changes. */
  lemma {:induction false} NICChangedFrame(db: DB, id: int, v: NIC)
    ensures var (t, nics) := (NICChanged(db, id, v).ports, NICChanged(db, id, v).nics);
      && nics == db.nics[id := v] && t.Keys == db.ports.Keys
      && (forall k :: k in t ==> t[k].(nic := db.ports[k].nic) == db.ports[k])
      && (forall k :: k in t && (db.ports[k].nic != id || NICFits(nics, db.ports[k])) ==> t[k] == db.ports[k])
      && (forall k :: k in t && db.ports[k].nic == id && !NICFits(nics, db.ports[k]) ==> t[k].nic == 0)
  {
  }

  /** The ports attributed to a deleted NIC lose the attribution; nothing else changes. */
  lemma {:induction false} NICGoneFrame(db: DB, id: int)
    ensures var (t, nics) := (NICGone(db, id).ports, NICGone(db, id).nics);
      && nics.Keys == db.nics.Keys - {id} && (forall k :: k in nics ==> nics[k] == db.nics[k])
      && t.Keys == db.ports.Keys
      && (forall k :: k in t ==> t[k].(nic := db.ports[k].nic) == db.ports[k])
      && (forall k :: k in t ==> t[k].nic == if db.ports[k].nic == id then 0 else db.ports[k].nic)
  {
  }

  /**
    The database.  Each public method is one transaction: a failure restores the
    tables.  The row writes check the unique index as the database does.
   */
  class Store {
    var ports: PortTable
    var nics: NICTable

    function Value(): DB
      reads this
    {
      DB(ports, nics)
    }

    constructor ()
      ensures Value() == DB(map[], map[]) && Inv(Value())
    {
      ports, nics := map[], map[];
    }

    /** `checkNIC`. */
    method CheckNIC(v: Port) returns (r: Result<(), Error>)
      ensures r.Ok? <==> NICFits(nics, v)
      ensures r.Err? ==> r.error == NICError(nics, v)
    {
      if v.nic == 0 {
        return Ok(());
      }
      if v.nic !in nics {
        return Err(NoSuchNIC);
      }
      if v.ownerType != "host" || nics[v.nic].hostId != v.ownerId {
        return Err(OtherHost);
      }
      return Ok(());
    }

    /** One row's link is written; the unique index refuses a peer that another row names. */
    method WritePeer(k: int, peer: int) returns (ok: bool)
      requires k in ports
      modifies this`ports
      ensures ok <==> peer == 0 || forall i :: i in old(ports) && i != k ==> old(ports)[i].peer != peer
      ensures ports == if ok then old(ports)[k := old(ports)[k].(peer := peer)] else old(ports)
    {
      ok := peer == 0 || forall i :: i in ports && i != k ==> ports[i].peer != peer;
      if ok {
        ports := ports[k := ports[k].(peer := peer)];
      }
    }

    /** The second statement of `connect`: the rows are written in the order of their ids. */
    method LinkRows(id: int, peer: int) returns (ok: bool)
      requires id in ports && peer in ports && id != peer && peer != 0
      modifies this`ports
      ensures (forall i :: i in old(ports) ==> old(ports)[i].peer != peer && (id != 0 ==> old(ports)[i].peer != id)) ==>
                ok && ports == old(ports)[id := old(ports)[id].(peer := peer)][peer := old(ports)[peer].(peer := id)]
    {
      if id < peer {
        ok := WritePeer(id, peer);
        if ok {
          ok := WritePeer(peer, id);
        }
      } else {
        ok := WritePeer(peer, id);
        if ok {
          ok := WritePeer(id, peer);
        }
      }
    }

    /** `connect`.  From a matching it never meets the unique index. */
    method Connect(id: int, peer: int) returns (r: Result<(), Error>)
      requires id in ports && Matching(ports)
      modifies this`ports
      ensures r.Ok? <==> CanConnect(old(ports), id, peer)
      ensures r.Ok? ==> ports == Rewired(old(ports), id, peer)
      ensures r.Err? ==> ports == old(ports)
      ensures r.Err? ==> r.error == ConnectError(old(ports), id, peer)
    {
      if peer == id {
        return Err(SelfLink);
      }
      if peer != 0 {
        if peer !in ports {
          return Err(NoSuchPeer);
        }
        var current := ports[peer].peer;
        if current != 0 && current != id {
          return Err(PeerTaken);
        }
      }
      ghost var before := ports;
      ports := map k | k in ports :: if k == id || ports[k].peer == id then ports[k].(peer := 0) else ports[k];
      RewireInSteps(before, id, peer);
      if peer == 0 {
        return Ok(());
      }
      var ok := LinkRows(id, peer);
      if !ok {
        return Err(UniqueViolated);
      }
      return Ok(());
    }

    /** `Create`; the database chooses the id. */
    method CreatePort(id: int, v: Port) returns (r: Result<(), Error>)
      requires Matching(ports) && id !in ports && id > 0
      modifies this
      ensures nics == old(nics)
      ensures r.Ok? <==> NICFits(nics, v) && CanConnect(WithRow(old(ports), id, v, 0), id, v.peer)
      ensures ports == if r.Ok? then Rewired(WithRow(old(ports), id, v, 0), id, v.peer) else old(ports)
      ensures r.Err? ==>
        r.error == if NICFits(nics, v) then ConnectError(WithRow(old(ports), id, v, 0), id, v.peer)
                   else NICError(nics, v)
    {
      r := CheckNIC(v);
      if r.Err? {
        return;
      }
      var saved := ports;
      ports := ports[id := v.(peer := 0)];
      r := Connect(id, v.peer);
      if r.Err? {
        ports := saved;
      }
    }

    /** `Update`. */
    method UpdatePort(id: int, v: Port) returns (r: Result<(), Error>)
      requires Matching(ports)
      modifies this
      ensures nics == old(nics)
      ensures r.Ok? <==> id in old(ports) && NICFits(nics, v) && CanConnect(old(ports), id, v.peer)
      ensures ports == if r.Ok? then Rewired(WithRow(old(ports), id, v, old(ports)[id].peer), id, v.peer)
                       else old(ports)
      ensures r.Err? ==>
        r.error == if !NICFits(nics, v) then NICError(nics, v)
                   else if id !in old(ports) then NotFound
                   else ConnectError(old(ports), id, v.peer)
    {
      r := CheckNIC(v);
      if r.Err? {
        return;
      }
      if id !in ports {
        return Err(NotFound);
      }
      var saved := ports;
      ports := ports[id := v.(peer := ports[id].peer)];
      r := Connect(id, v.peer);
      if r.Err? {
        ports := saved;
      }
    }

    /** `Delete`. */
    method DeletePort(id: int)
      modifies this
      ensures Value() == PortGone(old(Value()), id)
    {
      ports := map k | k in ports :: if ports[k].peer == id then ports[k].(peer := 0) else ports[k];
      ports := ports - {id};
    }

    method CreateNIC(id: int, v: NIC)
      requires id !in nics && id > 0
      modifies this
      ensures Value() == old(Value()).(nics := old(nics)[id := v])
    {
      nics := nics[id := v];
    }

    /** `Update` of a NIC. */
    method UpdateNIC(id: int, v: NIC) returns (r: Result<(), Error>)
      modifies this
      ensures r.Ok? <==> id in old(nics)
      ensures Value() == if r.Ok? then NICChanged(old(Value()), id, v) else old(Value())
    {
      if id !in nics {
        return Err(NotFound);
      }
      nics := nics[id := v];
      ports := map k | k in ports ::
                 if ports[k].nic == id && !(ports[k].ownerType == "host" && ports[k].ownerId == v.hostId)
                 then ports[k].(nic := 0) else ports[k];
      return Ok(());
    }

    /** `Delete` of a NIC. */
    method DeleteNIC(id: int)
      modifies this
      ensures Value() == NICGone(old(Value()), id)
    {
      ports := map k | k in ports :: if ports[k].nic == id then ports[k].(nic := 0) else ports[k];
      nics := nics - {id};
    }
  }

  /** From a matching, `connect`'s two statements amount to one rewiring and find the index free. */
  lemma {:induction false} RewireInSteps(ports: PortTable, id: int, peer: int)
    requires Matching(ports) && id in ports && CanConnect(ports, id, peer)
    ensures var t := Disconnected(ports, id);
            && (peer == 0 ==> t == Rewired(ports, id, 0))
            && (peer != 0 ==>
                  && (forall i :: i in t ==> t[i].peer != peer && (id != 0 ==> t[i].peer != id))
                  && t[id := t[id].(peer := peer)][peer := t[peer].(peer := id)] == Rewired(ports, id, peer))
  {
    var t := Disconnected(ports, id);
    forall i | i in t ensures peer != 0 ==> t[i].peer != peer && (id != 0 ==> t[i].peer != id) {
      assert LinkOk(ports, i);
    }
  }

}
