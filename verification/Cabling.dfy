/**
  Runs of port and NIC operations and of imports over the two tables: what every
  operation keeps, and exactly which ones do not.
 */
module Cabling {
  import opened Wrappers
  import opened Tables
  import opened Ports
  import opened PortLinks

  datatype Op =
    | CreatePort(id: int, port: Port)
    | UpdatePort(id: int, port: Port)
    | DeletePort(id: int)
    | CreateNIC(id: int, nic: NIC)
    | UpdateNIC(id: int, nic: NIC)
    | DeleteNIC(id: int)
    | Import(rows: seq<PortRow>, nics: seq<NICRow>)

  /** The ids the database hands out are new and positive. */
  predicate Possible(db: DB, op: Op) {
    && (op.CreatePort? ==> op.id > 0 && op.id !in db.ports)
    && (op.CreateNIC? ==> op.id > 0 && op.id !in db.nics)
  }

  /** The port rows that an import writes. */
  function FinalRows(rows: seq<PortRow>, nics: seq<NICRow>): seq<PortRow> {
    CheckedRows(PairedRows(rows, |rows|), nics)
  }

  function PeerKey(p: Port): Option<int> {
    if p.peer != 0 then Some(p.peer) else None
  }

  /** When the port and NIC part of an import succeeds. */
  ghost predicate PortsImportable(rows: seq<PortRow>, nics: seq<NICRow>) {
    && PortsValid(rows) && DistinctIds(rows) && DistinctIds(nics)
    && Pairable(rows, |rows|) && HostsAgree(PairedRows(rows, |rows|), nics)
    && UniqueKeys(FinalRows(rows, nics), PeerKey)
  }

  ghost predicate Accepted(db: DB, op: Op) {
    match op
    case CreatePort(id, v) => NICFits(db.nics, v) && CanConnect(WithRow(db.ports, id, v, 0), id, v.peer)
    case UpdatePort(id, v) => id in db.ports && NICFits(db.nics, v) && CanConnect(db.ports, id, v.peer)
    case DeletePort(_) => true
    case CreateNIC(_, _) => true
    case UpdateNIC(id, _) => id in db.nics
    case DeleteNIC(_) => true
    case Import(rows, nics) => PortsImportable(rows, nics)
  }

  /** The tables after an operation; a refused one changes nothing. */
  ghost function Apply(db: DB, op: Op): DB {
    if !Accepted(db, op) then db
    else
      match op
      case CreatePort(id, v) => db.(ports := Rewired(WithRow(db.ports, id, v, 0), id, v.peer))
      case UpdatePort(id, v) => db.(ports := Rewired(WithRow(db.ports, id, v, db.ports[id].peer), id, v.peer))
      case DeletePort(id) => PortGone(db, id)
      case CreateNIC(id, v) => db.(nics := db.nics[id := v])
      case UpdateNIC(id, v) => NICChanged(db, id, v)
      case DeleteNIC(id) => NICGone(db, id)
      case Import(rows, nics) => DB(TableOf(FinalRows(rows, nics)), TableOf(nics))
  }

  /** The accepted operations that give port 0 a cable. */
  ghost predicate CablesZero(db: DB, op: Op) {
    match op
    case UpdatePort(id, _) => id == 0 && Accepted(db, op)
    case Import(rows, _) => Accepted(db, op) && !NoLinkFromZero(rows)
    case _ => false
  }

  lemma {:induction false} CreatePortKeeps(db: DB, id: int, v: Port)
    requires Inv(db) && Possible(db, CreatePort(id, v)) && Accepted(db, CreatePort(id, v))
    ensures Inv(Apply(db, CreatePort(id, v)))
  {
    RewiredMatchesExactly(WithRow(db.ports, id, v, 0), id, v.peer);
  }

  lemma {:induction false} UpdatePortKeepsExactly(db: DB, id: int, v: Port)
    requires Inv(db) && Accepted(db, UpdatePort(id, v))
    ensures Inv(Apply(db, UpdatePort(id, v))) <==> id != 0
  {
    var row := WithRow(db.ports, id, v, db.ports[id].peer);
    RewiredMatchesExactly(row, id, v.peer);
  }

  lemma {:induction false} DeletePortKeeps(db: DB, id: int)
    requires Inv(db)
    ensures Inv(PortGone(db, id))
  {
    var t := PortGone(db, id).ports;
    forall k | k in t ensures LinkOk(t, k) && NICFits(db.nics, t[k]) {
      assert LinkOk(db.ports, k) && NICFits(db.nics, db.ports[k]);
      if t[k].peer != 0 {
        assert LinkOk(db.ports, t[k].peer);
      }
    }
  }

  lemma {:induction false} CreateNICKeeps(db: DB, id: int, v: NIC)
    requires Inv(db) && id !in db.nics
    ensures Inv(db.(nics := db.nics[id := v]))
  {
    forall k | k in db.ports ensures NICFits(db.nics[id := v], db.ports[k]) {
      assert NICFits(db.nics, db.ports[k]);
    }
  }

  lemma {:induction false} UpdateNICKeeps(db: DB, id: int, v: NIC)
    requires Inv(db) && id in db.nics
    ensures Inv(NICChanged(db, id, v))
  {
    var t := NICChanged(db, id, v);
    forall k | k in t.ports ensures NICFits(t.nics, t.ports[k]) {
      assert NICFits(db.nics, db.ports[k]);
    }
  }

  lemma {:induction false} DeleteNICKeeps(db: DB, id: int)
    requires Inv(db)
    ensures Inv(NICGone(db, id))
  {
    var t := NICGone(db, id);
    forall k | k in t.ports ensures NICFits(t.nics, t.ports[k]) {
      assert NICFits(db.nics, db.ports[k]);
    }
  }

  lemma {:induction false} ImportKeepsExactly(rows: seq<PortRow>, nics: seq<NICRow>)
    requires PortsImportable(rows, nics)
    ensures Attributed(TableOf(FinalRows(rows, nics)), TableOf(nics))
    ensures Matching(TableOf(FinalRows(rows, nics))) <==> NoLinkFromZero(rows)
  {
    PairedMatchesExactly(rows);
    CheckedIsAttributed(PairedRows(rows, |rows|), nics);
  }

  /** From tables that are right, an operation leaves them right exactly when it does not cable port 0. */
  lemma {:induction false} StepKeepsExactly(db: DB, op: Op)
    requires Inv(db) && Possible(db, op)
    ensures Inv(Apply(db, op)) <==> !CablesZero(db, op)
  {
    if Accepted(db, op) {
      match op
      case CreatePort(id, v) => CreatePortKeeps(db, id, v);
      case UpdatePort(id, v) => UpdatePortKeepsExactly(db, id, v);
      case DeletePort(id) => DeletePortKeeps(db, id);
      case CreateNIC(id, v) => CreateNICKeeps(db, id, v);
      case UpdateNIC(id, v) => UpdateNICKeeps(db, id, v);
      case DeleteNIC(id) => DeleteNICKeeps(db, id);
      case Import(rows, nics) => ImportKeepsExactly(rows, nics);
    }
  }

  // ---- Runs ----

  ghost predicate Run(db: DB, ops: seq<Op>)
    decreases |ops|
  {
    ops == [] || (Possible(db, ops[0]) && Run(Apply(db, ops[0]), ops[1..]))
  }

  ghost function After(db: DB, ops: seq<Op>): DB
    decreases |ops|
  {
    if ops == [] then db else After(Apply(db, ops[0]), ops[1..])
  }

  /** What a caller can check: port 0 is not updated, and no imported file cables a port with id 0. */
  ghost predicate Harmless(op: Op) {
    && (op.UpdatePort? ==> op.id != 0)
    && (op.Import? ==> NoLinkFromZero(op.rows))
  }

  /**
    In every state that such operations reach from the empty database, the links
    are a symmetric matching without self-links or dangling ends, every
    attribution names a NIC of the owning host, and no peer is named twice.
   */
  lemma {:induction false} RunKeepsInv(db: DB, ops: seq<Op>)
    requires Inv(db) && Run(db, ops) && forall i :: 0 <= i < |ops| ==> Harmless(ops[i])
    ensures Inv(After(db, ops)) && UniquePeers(After(db, ops).ports)
    decreases |ops|
  {
    if ops == [] {
      MatchingIsUnique(db.ports);
    } else {
      assert Harmless(ops[0]);
      StepKeepsExactly(db, ops[0]);
      RunKeepsInv(Apply(db, ops[0]), ops[1..]);
    }
  }
}
