/**
  Snapshot export and import (`internal/store/portability.go`).  The fifteen
  plain entity tables are one table keyed by type and id, with the columns that
  matter to no rule here as one payload.
 */
module Portability {
  import opened Wrappers
  import opened Tables
  import opened Ports
  import opened PortLinks
  import opened Cabling
  import opened Tags
  import Text
  import Impact

  type Ref = Impact.Ref

  type Relationship = Impact.Relationship

  datatype Tag = Tag(owner: Ref, name: string)

  datatype Note = Note(owner: Ref, kind: string, body: string, createdAt: string)

  datatype FieldDef = FieldDef(typ: string, name: string, info: string)

  datatype FieldValue = FieldValue(owner: Ref, def: int, value: string)

  datatype Snapshot = Snapshot(
    version: int, entities: seq<Row<Ref, string>>, nics: seq<NICRow>, ports: seq<PortRow>,
    relationships: seq<Row<int, Relationship>>, tags: seq<Row<int, Tag>>, notes: seq<Row<int, Note>>,
    defs: seq<Row<int, FieldDef>>, values: seq<Row<int, FieldValue>>)

  /** The inventory tables. */
  datatype Inventory = Inventory(
    entities: map<Ref, string>, nics: NICTable, ports: PortTable,
    relationships: map<int, Relationship>, tags: map<int, Tag>, notes: map<int, Note>,
    defs: map<int, FieldDef>, values: map<int, FieldValue>)

  // ---- Presence ----

  /** `has` of `dropDanglingRefs`. */
  predicate Has(snap: Snapshot, r: Ref) {
    || r in Ids(snap.entities)
    || (r.typ == "nic" && r.id in Ids(snap.nics))
    || (r.typ == "port" && r.id in Ids(snap.ports))
  }

  predicate Present(inv: Inventory, r: Ref) {
    || r in inv.entities
    || (r.typ == "nic" && r.id in inv.nics)
    || (r.typ == "port" && r.id in inv.ports)
  }

  predicate HasDef(snap: Snapshot, def: int, typ: string) {
    var j := Find(snap.defs, def);
    j >= 0 && snap.defs[j].val.typ == typ
  }

  function RelOk(snap: Snapshot): Relationship -> bool {
    (r: Relationship) => Has(snap, r.from) && Has(snap, r.to)
  }

  function TagOk(snap: Snapshot): Tag -> bool {
    (t: Tag) => Has(snap, t.owner)
  }

  function NoteOk(snap: Snapshot): Note -> bool {
    (n: Note) => Has(snap, n.owner)
  }

  function ValueOk(snap: Snapshot): FieldValue -> bool {
    (v: FieldValue) => HasDef(snap, v.def, v.owner.typ) && Has(snap, v.owner)
  }

  // ---- Validation ----

  const ENTITY_TYPES := {"host", "service", "network", "domain", "certificate", "backup", "hardware", "subscription",
                        "account", "site", "location", "rack", "contact", "vlan", "reservation", "nic", "port"}

  predicate RelationshipValid(r: Relationship) {
    && r.from.typ in ENTITY_TYPES && r.to.typ in ENTITY_TYPES
    && r.kind in {"runs on", "connected to", "exposed via", "secured by",
                  "backed up by", "depends on", "administered by", "owned by"}
    && r.from.id > 0 && r.to.id > 0 && r.from != r.to
  }

  predicate TagValid(t: Tag) {
    t.owner.typ in ENTITY_TYPES && t.owner.id > 0 && NormalizeTag(t.name) != []
  }

  predicate NoteValid(n: Note) {
    n.kind in {"info", "success", "warning", "incident"} && Text.TrimSpace(n.body) != []
  }

  predicate ValueValid(v: FieldValue) {
    v.owner.typ in ENTITY_TYPES && v.owner.id > 0 && v.def > 0
  }

  predicate All<K, V>(rows: seq<Row<K, V>>, ok: V -> bool) {
    forall i :: 0 <= i < |rows| ==> ok(rows[i].val)
  }

  /** The checks of columns kept here as one payload, left open. */
  datatype Plain = Plain(entity: (string, string) -> bool, nic: string -> bool, port: string -> bool,
                         def: string -> bool)

  function NICCheck(p: Plain): NIC -> bool {
    (n: NIC) => n.hostId > 0 && p.nic(n.info)
  }

  function PortCheck(p: Plain): Port -> bool {
    (v: Port) => p.port(v.info)
  }

  /** One or more lower-case letters, digits and underscores. */
  predicate Slug(s: string) {
    s != [] && forall c :: c in s ==> 'a' <= c <= 'z' || '0' <= c <= '9' || c == '_'
  }

  function DefCheck(p: Plain): FieldDef -> bool {
    (d: FieldDef) => d.typ in ENTITY_TYPES && Slug(d.name) && p.def(d.info)
  }

  predicate EntitiesValid(rows: seq<Row<Ref, string>>, p: Plain) {
    forall i :: 0 <= i < |rows| ==> p.entity(rows[i].id.typ, rows[i].val)
  }

  /** `validateAll` over every list. */
  predicate Valid(snap: Snapshot, p: Plain) {
    && EntitiesValid(snap.entities, p) && All(snap.nics, NICCheck(p))
    && PortsValid(snap.ports) && All(snap.ports, PortCheck(p))
    && All(snap.relationships, RelationshipValid) && All(snap.tags, TagValid)
    && All(snap.notes, NoteValid) && All(snap.values, ValueValid) && All(snap.defs, DefCheck(p))
  }

  // ---- What an import writes ----

  function Cleaned(snap: Snapshot): Snapshot {
    snap.(relationships := Kept(snap.relationships, RelOk(snap)), tags := Kept(snap.tags, TagOk(snap)),
          notes := Kept(snap.notes, NoteOk(snap)), values := Kept(snap.values, ValueOk(snap)))
  }

  function NormalTag(r: Row<int, Tag>): Row<int, Tag> {
    Row(r.id, r.val.(name := NormalizeTag(r.val.name)))
  }

  function NormalTags(rows: seq<Row<int, Tag>>): seq<Row<int, Tag>> {
    if rows == [] then [] else NormalTags(rows[..|rows| - 1]) + [NormalTag(rows[|rows| - 1])]
  }

  function Imported(snap: Snapshot): Inventory {
    var c := Cleaned(snap);
    Inventory(TableOf(c.entities), TableOf(c.nics), TableOf(FinalRows(c.ports, c.nics)), TableOf(c.relationships),
              TableOf(NormalTags(c.tags)), TableOf(c.notes), TableOf(c.defs), TableOf(c.values))
  }

  /** The rows that refer to something absent, the links and the attributions cleared. */
  function Skipped(snap: Snapshot): int {
    var c := Cleaned(snap);
    (|snap.relationships| - |c.relationships|) + (|snap.tags| - |c.tags|) + (|snap.notes| - |c.notes|)
    + (|snap.values| - |c.values|) + PortsCleared(snap.ports, snap.nics)
  }

  function TagKey(t: Tag): Option<(Ref, string)> {
    Some((t.owner, t.name))
  }

  function DefKey(d: FieldDef): Option<(string, string)> {
    Some((d.typ, d.name))
  }

  function ValueKey(v: FieldValue): Option<(Ref, int)> {
    Some((v.owner, v.def))
  }

  function NoKey<V>(v: V): Option<int> {
    None
  }

  /** No id or unique key is repeated among the rows to be inserted. */
  ghost predicate Insertable(c: Snapshot) {
    && DistinctIds(c.entities) && DistinctIds(c.nics)
    && DistinctIds(c.relationships) && DistinctIds(c.notes)
    && DistinctIds(NormalTags(c.tags)) && UniqueKeys(NormalTags(c.tags), TagKey)
    && DistinctIds(c.defs) && UniqueKeys(c.defs, DefKey)
    && DistinctIds(c.values) && UniqueKeys(c.values, ValueKey)
  }

  /** Exactly when an import succeeds. */
  ghost predicate Importable(snap: Snapshot, p: Plain) {
    && snap.version <= 1 && Valid(snap, p)
    && PortsImportable(snap.ports, snap.nics) && Insertable(Cleaned(snap))
  }

  // ---- The import, step by step ----

  method CollectIds(snap: Snapshot) returns (ids: set<Ref>)
    ensures forall r :: r in ids <==> Has(snap, r)
  {
    ids := {};
    for i := 0 to |snap.entities|
      invariant ids == Ids(snap.entities[..i])
    {
      OneMoreId(snap.entities, i);
      ids := ids + {snap.entities[i].id};
    }
    assert snap.entities[..|snap.entities|] == snap.entities;
    ghost var plain := ids;
    for i := 0 to |snap.nics|
      invariant forall r :: r in ids <==> r in plain || (r.typ == "nic" && r.id in Ids(snap.nics[..i]))
    {
      OneMoreId(snap.nics, i);
      ids := ids + {Impact.Ref("nic", snap.nics[i].id)};
    }
    assert snap.nics[..|snap.nics|] == snap.nics;
    ghost var some := ids;
    for i := 0 to |snap.ports|
      invariant forall r :: r in ids <==> r in some || (r.typ == "port" && r.id in Ids(snap.ports[..i]))
    {
      OneMoreId(snap.ports, i);
      ids := ids + {Impact.Ref("port", snap.ports[i].id)};
    }
    assert snap.ports[..|snap.ports|] == snap.ports;
  }

  lemma {:induction false} OneMoreId<K, V>(rows: seq<Row<K, V>>, i: nat)
    requires i < |rows|
    ensures Ids(rows[..i + 1]) == Ids(rows[..i]) + {rows[i].id}
  {
    assert rows[..i + 1] == rows[..i] + [rows[i]];
    forall k | 0 <= k < i ensures rows[..i][k] == rows[..i + 1][k] && rows[..i + 1][i] == rows[i] {
    }
  }

  method CollectDefs(rows: seq<Row<int, FieldDef>>) returns (defs: map<int, string>)
    ensures forall d :: d in defs <==> Find(rows, d) >= 0
    ensures forall d :: d in defs ==> defs[d] == rows[Find(rows, d)].val.typ
  {
    defs := map[];
    for i := 0 to |rows|
      invariant forall d :: d in defs <==> Last(rows, d, i) >= 0
      invariant forall d :: d in defs ==> defs[d] == rows[Last(rows, d, i)].val.typ
    {
      defs := defs[rows[i].id := rows[i].val.typ];
    }
  }

  lemma {:induction false} KeptSame<K, V>(rows: seq<Row<K, V>>, p: V -> bool, q: V -> bool)
    requires forall v :: p(v) == q(v)
    ensures Kept(rows, p) == Kept(rows, q)
  {
    if rows != [] {
      KeptSame(rows[..|rows| - 1], p, q);
    }
  }

  /** `dropDanglingRefs`. */
  method DropDanglingRefs(snap: Snapshot) returns (out: Snapshot, skipped: nat)
    ensures out == Cleaned(snap)
    ensures skipped == |snap.relationships| - |out.relationships| + |snap.tags| - |out.tags|
                       + |snap.notes| - |out.notes| + |snap.values| - |out.values|
  {
    var ids := CollectIds(snap);
    var defs := CollectDefs(snap.defs);
    var rel := (r: Relationship) => r.from in ids && r.to in ids;
    var relationships, s1 := Keep(snap.relationships, 0, rel);
    KeptSame(snap.relationships, rel, RelOk(snap));
    var tag := (t: Tag) => t.owner in ids;
    var tags, s2 := Keep(snap.tags, s1, tag);
    KeptSame(snap.tags, tag, TagOk(snap));
    var note := (n: Note) => n.owner in ids;
    var notes, s3 := Keep(snap.notes, s2, note);
    KeptSame(snap.notes, note, NoteOk(snap));
    var value := (v: FieldValue) => v.def in defs && defs[v.def] == v.owner.typ && v.owner in ids;
    var values, s4 := Keep(snap.values, s3, value);
    KeptSame(snap.values, value, ValueOk(snap));
    out := snap.(relationships := relationships, tags := tags, notes := notes, values := values);
    skipped := s4;
  }

  ghost predicate PortRulesHold(ports: seq<PortRow>, nics: seq<NICRow>) {
    Pairable(ports, |ports|) && HostsAgree(PairedRows(ports, |ports|), nics)
  }

  function PortsCleared(ports: seq<PortRow>, nics: seq<NICRow>): nat {
    DanglingCount(ports, |ports|) + MissingCount(PairedRows(ports, |ports|), nics)
  }

  /** The two port rules, one after the other. */
  method PreparePorts(ports: seq<PortRow>, nics: seq<NICRow>) returns (r: Option<seq<PortRow>>, cleared: nat)
    ensures r.Some? && DistinctIds(r.value) ==> DistinctIds(ports)
    ensures DistinctIds(ports) ==> (r.Some? <==> PortRulesHold(ports, nics))
    ensures DistinctIds(ports) && r.Some? ==> r.value == FinalRows(ports, nics)
    ensures DistinctIds(ports) && r.Some? ==> cleared == PortsCleared(ports, nics)
  {
    var paired, unlinked := PairPortLinks(ports);
    if paired.Err? {
      return None, 0;
    }
    ghost var rows := paired.value;
    var out := new PortRow[|paired.value|](i requires 0 <= i < |paired.value| => paired.value[i]);
    assert out[..] == rows;
    var ok, unattributed := CheckPortNICs(out, nics);
    if !ok {
      return None, 0;
    }
    RowByRow(rows, nics);
    forall i | 0 <= i < |rows| ensures out[..][i].id == ports[i].id {
      assert out[..][i] == Unattributed(nics, rows[i]);
    }
    return Some(out[..]), unlinked + unattributed;
  }

  method NormalizeTags(rows: seq<Row<int, Tag>>) returns (out: seq<Row<int, Tag>>)
    ensures out == NormalTags(rows)
  {
    out := [];
    for i := 0 to |rows|
      invariant out == NormalTags(rows[..i])
    {
      assert rows[..i + 1][..i] == rows[..i];
      out := out + [NormalTag(rows[i])];
    }
    assert rows[..|rows|] == rows;
  }

  /** The tables that hold a snapshot's rows. */
  function Stored(c: Snapshot): Inventory {
    Inventory(TableOf(c.entities), TableOf(c.nics), TableOf(c.ports), TableOf(c.relationships),
              TableOf(NormalTags(c.tags)), TableOf(c.notes), TableOf(c.defs), TableOf(c.values))
  }

  ghost predicate PortRowsOk(rows: seq<PortRow>) {
    DistinctIds(rows) && UniqueKeys(rows, PeerKey)
  }

  /** The inserts of `replaceInventory` into emptied tables. */
  method InsertRows(c: Snapshot) returns (ok: bool, inv: Inventory)
    ensures ok <==> Insertable(c) && PortRowsOk(c.ports)
    ensures ok ==> inv == Stored(c)
  {
    inv := Inventory(map[], map[], map[], map[], map[], map[], map[], map[]);
    ok := false;
    var ok1, entities := Insert(c.entities, NoKey);
    if !ok1 { return; }
    var ok2, nics := Insert(c.nics, NoKey);
    if !ok2 { return; }
    var ok3, ports := Insert(c.ports, PeerKey);
    if !ok3 { return; }
    var ok4, relationships := Insert(c.relationships, NoKey);
    if !ok4 { return; }
    var normal := NormalizeTags(c.tags);
    var ok5, tags := Insert(normal, TagKey);
    if !ok5 { return; }
    var ok6, notes := Insert(c.notes, NoKey);
    if !ok6 { return; }
    var ok7, defs := Insert(c.defs, DefKey);
    if !ok7 { return; }
    var ok8, values := Insert(c.values, ValueKey);
    if !ok8 { return; }
    ok, inv := true, Inventory(entities, nics, ports, relationships, tags, notes, defs, values);
  }

  datatype Attachment = Attachment(owner: Ref, file: string)

  datatype Change = Change(field: string, now: string)

  datatype LogEntry = LogEntry(typ: string, id: int, name: string, action: string, changes: seq<Change>,
                               createdAt: string)

  /** The change-log entry of an import; dangling references are mentioned only when some were skipped. */
  function ImportEntry(records: nat, skipped: int, now: string): LogEntry {
    LogEntry("", 0, "inventory", "import",
             [Change("records", Text.Itoa(records))]
             + (if skipped > 0 then [Change("dangling references skipped", Text.Itoa(skipped))] else []), now)
  }

  /** An attachment stays unless it belongs to an entity, of a known type, that is gone. */
  predicate Attached(inv: Inventory, a: Attachment) {
    a.owner.typ in ENTITY_TYPES ==> Present(inv, a.owner)
  }

  /** What the delete for one entity type selects. */
  predicate Orphan(inv: Inventory, typ: string, a: Attachment) {
    a.owner.typ == typ && !Present(inv, a.owner)
  }

  function Reconciled(inv: Inventory, attachments: map<int, Attachment>): map<int, Attachment> {
    map k | k in attachments && Attached(inv, attachments[k]) :: attachments[k]
  }

  /** The attachments while the types `left` are still to do. */
  function PartlyReconciled(inv: Inventory, attachments: map<int, Attachment>, left: set<string>)
    : map<int, Attachment>
  {
    map k | k in attachments && (attachments[k].owner.typ !in left ==> Attached(inv, attachments[k])) :: attachments[k]
  }

  lemma {:induction false} NoneReconciled(inv: Inventory, attachments: map<int, Attachment>)
    ensures PartlyReconciled(inv, attachments, ENTITY_TYPES) == attachments
  {
    forall k | k in attachments ensures k in PartlyReconciled(inv, attachments, ENTITY_TYPES) {
      assert attachments[k].owner.typ !in ENTITY_TYPES ==> Attached(inv, attachments[k]);
    }
  }

  /** One more type done. */
  lemma {:induction false} OneReconciled(inv: Inventory, attachments: map<int, Attachment>, left: set<string>,
                                         typ: string)
    requires typ in left && left <= ENTITY_TYPES
    ensures var a := PartlyReconciled(inv, attachments, left);
      (map k | k in a && !Orphan(inv, typ, a[k]) :: a[k]) == PartlyReconciled(inv, attachments, left - {typ})
  {
    var a, b := PartlyReconciled(inv, attachments, left), PartlyReconciled(inv, attachments, left - {typ});
    forall k | k in attachments ensures k in b <==> k in a && !Orphan(inv, typ, attachments[k]) {
      assert attachments[k].owner.typ == typ ==> (Attached(inv, attachments[k]) <==> !Orphan(inv, typ, attachments[k]));
    }
  }

  lemma {:induction false} AllReconciled(inv: Inventory, attachments: map<int, Attachment>)
    ensures PartlyReconciled(inv, attachments, {}) == Reconciled(inv, attachments)
  {
    var none: set<string> := {};
    forall k | k in attachments
      ensures k in PartlyReconciled(inv, attachments, none) <==> Attached(inv, attachments[k])
    {
      assert attachments[k].owner.typ !in none;
    }
  }

  function Records(c: Snapshot): nat {
    |c.entities| + |c.nics| + |c.ports| + |c.relationships| + |c.tags| + |c.notes| + |c.defs| + |c.values|
  }

  class Database {
    var inventory: Inventory
    var attachments: map<int, Attachment>
    var derived: map<Ref, string>      // liveness, probe and notification state
    var agents: map<int, string>       // rows of host_agents, deleted with the hosts rows
    var monitors: map<int, int>        // kuma_monitors, left to the syncer
    var changelog: seq<LogEntry>

    constructor ()
      ensures inventory == Inventory(map[], map[], map[], map[], map[], map[], map[], map[])
      ensures attachments == map[] && derived == map[] && agents == map[] && monitors == map[] && changelog == []
    {
      inventory := Inventory(map[], map[], map[], map[], map[], map[], map[], map[]);
      attachments, derived, agents, monitors, changelog := map[], map[], map[], map[], [];
    }

    /** `reconcileSideTables`: one delete for each entity type, in any order. */
    method ReconcileSideTables()
      modifies this
      ensures derived == map[] && attachments == Reconciled(inventory, old(attachments))
      ensures inventory == old(inventory) && agents == old(agents) && monitors == old(monitors)
      ensures changelog == old(changelog)
    {
      derived := map[];
      var before := attachments;
      var left := ENTITY_TYPES;
      NoneReconciled(inventory, before);
      while left != {}
        invariant left <= ENTITY_TYPES
        invariant attachments == PartlyReconciled(inventory, before, left)
        invariant derived == map[] && inventory == old(inventory) && agents == old(agents)
        invariant monitors == old(monitors) && changelog == old(changelog)
        decreases left
      {
        var typ :| typ in left;
        OneReconciled(inventory, before, left, typ);
        left := left - {typ};
        attachments := map k | k in attachments && !Orphan(inventory, typ, attachments[k]) :: attachments[k];
      }
      AllReconciled(inventory, before);
    }

    /**
      `Import`: a transaction that succeeds exactly on importable snapshots, and
      then replaces the inventory; a failure changes nothing.
     */
    method Import(snap: Snapshot, p: Plain, now: string) returns (ok: bool)
      modifies this
      ensures ok <==> Importable(snap, p)
      ensures ok ==> inventory == Imported(snap) && attachments == Reconciled(Imported(snap), old(attachments))
      ensures ok ==> derived == map[] && agents == map[]
      ensures ok ==> changelog == old(changelog) + [ImportEntry(Records(Cleaned(snap)), Skipped(snap), now)]
      ensures !ok ==> inventory == old(inventory) && attachments == old(attachments) && derived == old(derived)
                      && agents == old(agents) && changelog == old(changelog)
      ensures monitors == old(monitors)
    {
      var prepared, records, skipped := PrepareImport(snap, p);
      if prepared.None? {
        return false;
      }
      agents := map[];
      inventory := prepared.value;
      ReconcileSideTables();
      var entry := DescribeImport(records, skipped, now);
      changelog := changelog + [entry];
      return true;
    }
  }

  method DescribeImport(records: nat, skipped: nat, now: string) returns (entry: LogEntry)
    ensures entry == ImportEntry(records, skipped, now)
  {
    var changes := [Change("records", Text.Itoa(records))];
    if skipped > 0 {
      changes := changes + [Change("dangling references skipped", Text.Itoa(skipped))];
    }
    entry := LogEntry("", 0, "inventory", "import", changes, now);
  }

  /** Everything an import decides and computes before its transaction commits. */
  method PrepareImport(snap: Snapshot, p: Plain) returns (r: Option<Inventory>, records: nat, dropped: nat)
    ensures r.Some? <==> Importable(snap, p)
    ensures r.Some? ==> r.value == Imported(snap) && records == Records(Cleaned(snap)) && dropped == Skipped(snap)
  {
    r, records, dropped := None, 0, 0;
    if snap.version > 1 || !Valid(snap, p) {
      return;
    }
    var clean, skipped := DropDanglingRefs(snap);
    var ports, cleared := PreparePorts(snap.ports, snap.nics);
    if Importable(snap, p) {
      ImportableParts(snap, p);
    }
    if ports.None? {
      return;
    }
    var ok, inv := InsertRows(clean.(ports := ports.value));
    if !ok {
      return;
    }
    FinalSize(snap.ports, snap.nics);
    r, records, dropped := Some(inv), Records(clean), skipped + cleared;
  }

  lemma {:induction false} ImportableParts(snap: Snapshot, p: Plain)
    requires Importable(snap, p)
    ensures DistinctIds(snap.ports) && PortRulesHold(snap.ports, snap.nics)
    ensures PortRowsOk(FinalRows(snap.ports, snap.nics))
  {
    DistinctFinal(snap.ports, snap.nics);
  }

  lemma {:induction false} DistinctFinal(ports: seq<PortRow>, nics: seq<NICRow>)
    requires DistinctIds(ports)
    ensures DistinctIds(FinalRows(ports, nics))
  {
    var rows := PairedRows(ports, |ports|);
    RowByRow(rows, nics);
    forall i | 0 <= i < |rows| ensures FinalRows(ports, nics)[i].id == ports[i].id {
      assert FinalRows(ports, nics)[i] == Unattributed(nics, rows[i]);
    }
  }

  lemma {:induction false} FinalSize(rows: seq<PortRow>, nics: seq<NICRow>)
    ensures |FinalRows(rows, nics)| == |rows|
  {
    RowByRow(PairedRows(rows, |rows|), nics);
  }

  // ---- What a successful import gives ----

  /** Every row refers to rows that are there. */
  ghost predicate Integrity(inv: Inventory) {
    && (forall k :: k in inv.relationships ==> EndsPresent(inv, inv.relationships[k]))
    && (forall k :: k in inv.tags ==> Present(inv, inv.tags[k].owner))
    && (forall k :: k in inv.notes ==> Present(inv, inv.notes[k].owner))
    && (forall k :: k in inv.values ==> ValueRefersOk(inv, inv.values[k]))
    && Attributed(inv.ports, inv.nics)
  }

  predicate EndsPresent(inv: Inventory, r: Relationship) {
    Present(inv, r.from) && Present(inv, r.to)
  }

  predicate ValueRefersOk(inv: Inventory, v: FieldValue) {
    Present(inv, v.owner) && v.def in inv.defs && inv.defs[v.def].typ == v.owner.typ
  }

  lemma {:induction false} FinalIds(ports: seq<PortRow>, nics: seq<NICRow>)
    ensures Ids(FinalRows(ports, nics)) == Ids(ports)
  {
    var rows := PairedRows(ports, |ports|);
    RowByRow(rows, nics);
    forall i | 0 <= i < |rows| ensures FinalRows(ports, nics)[i].id == ports[i].id {
      assert FinalRows(ports, nics)[i] == Unattributed(nics, rows[i]);
    }
  }

  /** What the file has is what the inventory will have. */
  lemma {:induction false} HasIsPresent(snap: Snapshot, r: Ref)
    ensures Has(snap, r) <==> Present(Imported(snap), r)
  {
    FinalIds(snap.ports, snap.nics);
  }

  /** Every row of a table of kept rows was accepted. */
  lemma {:induction false} KeptRow<K, V>(rows: seq<Row<K, V>>, ok: V -> bool, k: K)
    requires k in TableOf(Kept(rows, ok))
    ensures ok(TableOf(Kept(rows, ok))[k])
  {
    var i := TableRow(Kept(rows, ok), k);
    assert Kept(rows, ok)[i] in Kept(rows, ok);
    KeptMembers(rows, ok, Kept(rows, ok)[i]);
  }

  lemma {:induction false} NormalTagsSize(rows: seq<Row<int, Tag>>)
    ensures |NormalTags(rows)| == |rows|
  {
    if rows != [] {
      NormalTagsSize(rows[..|rows| - 1]);
    }
  }

  lemma {:induction false} NormalTagRow(rows: seq<Row<int, Tag>>, i: nat)
    requires i < |rows|
    ensures |NormalTags(rows)| == |rows| && NormalTags(rows)[i] == NormalTag(rows[i])
  {
    var n := |rows| - 1;
    NormalTagsSize(rows[..n]);
    assert NormalTags(rows) == NormalTags(rows[..n]) + [NormalTag(rows[n])];
    if i < n {
      NormalTagRow(rows[..n], i);
      assert rows[..n][i] == rows[i];
    }
  }

  /** A tag of the inventory belongs to an entity the file has, and comes from a row of the file. */
  lemma {:induction false} ImportedTag(snap: Snapshot, k: int) returns (i: nat)
    requires k in Imported(snap).tags
    ensures i < |snap.tags| && snap.tags[i].id == k && Has(snap, snap.tags[i].val.owner)
    ensures Imported(snap).tags[k] == snap.tags[i].val.(name := NormalizeTag(snap.tags[i].val.name))
  {
    var kept := Kept(snap.tags, TagOk(snap));
    var j := TableRow(NormalTags(kept), k);
    NormalTagsSize(kept);
    NormalTagRow(kept, j);
    assert kept[j] in kept;
    KeptMembers(snap.tags, TagOk(snap), kept[j]);
    i :| 0 <= i < |snap.tags| && snap.tags[i] == kept[j];
  }

  /**
    Whatever the file, after a successful import every relationship, tag, note and
    custom field value refers to rows that are there, a value's definition is for its
    entity's type, and every NIC attribution fits; and the port links are a symmetric
    matching exactly when no port with id 0 was cabled.
   */
  lemma {:induction false} ImportedIsSound(snap: Snapshot, p: Plain)
    requires Importable(snap, p)
    ensures Integrity(Imported(snap))
    ensures Matching(Imported(snap).ports) <==> NoLinkFromZero(snap.ports)
    ensures UniquePeers(Imported(snap).ports)
  {
    var inv := Imported(snap);
    ImportKeepsExactly(snap.ports, snap.nics);
    forall k | k in inv.relationships ensures EndsPresent(inv, inv.relationships[k]) {
      KeptRow(snap.relationships, RelOk(snap), k);
      HasIsPresent(snap, inv.relationships[k].from);
      HasIsPresent(snap, inv.relationships[k].to);
    }
    forall k | k in inv.tags ensures Present(inv, inv.tags[k].owner) {
      var i := ImportedTag(snap, k);
      HasIsPresent(snap, inv.tags[k].owner);
    }
    forall k | k in inv.notes ensures Present(inv, inv.notes[k].owner) {
      KeptRow(snap.notes, NoteOk(snap), k);
      HasIsPresent(snap, inv.notes[k].owner);
    }
    forall k | k in inv.values ensures ValueRefersOk(inv, inv.values[k]) {
      ImportedValue(snap, k);
    }
    TableUnique(FinalRows(snap.ports, snap.nics), PeerKey);
  }

  lemma {:induction false} ImportedValue(snap: Snapshot, k: int)
    requires k in Imported(snap).values && DistinctIds(snap.defs)
    ensures ValueRefersOk(Imported(snap), Imported(snap).values[k])
  {
    KeptRow(snap.values, ValueOk(snap), k);
    var v := Imported(snap).values[k];
    HasIsPresent(snap, v.owner);
    TableHolds(snap.defs, Find(snap.defs, v.def));
  }

  /** A unique index over a table. */
  ghost predicate UniqueIndex<V, U>(table: map<int, V>, key: V -> Option<U>) {
    forall a, b :: a in table && b in table && a != b && key(table[a]).Some? ==> key(table[a]) != key(table[b])
  }

  /** The unique index over rows is the one over the table. */
  lemma {:induction false} TableUnique<V, U>(rows: seq<Row<int, V>>, key: V -> Option<U>)
    requires UniqueKeys(rows, key)
    ensures UniqueIndex(TableOf(rows), key)
  {
    var t := TableOf(rows);
    forall a, b | a in t && b in t && a != b && key(t[a]).Some? ensures key(t[a]) != key(t[b]) {
      var i := TableRow(rows, a);
      var k := TableRow(rows, b);
      assert i != k;
    }
  }

  /**
    Nothing that can be kept is lost: plain rows, NICs and definitions, rows whose
    references are in the file, and of port rows all but links and attributions to
    what the file lacks.
   */
  lemma {:induction false} ImportKeepsRows(snap: Snapshot, p: Plain)
    requires Importable(snap, p)
    ensures forall i :: 0 <= i < |snap.entities| ==> Holds(Imported(snap).entities, snap.entities[i])
    ensures forall i :: 0 <= i < |snap.nics| ==> Holds(Imported(snap).nics, snap.nics[i])
    ensures forall i :: 0 <= i < |snap.defs| ==> Holds(Imported(snap).defs, snap.defs[i])
    ensures forall i :: 0 <= i < |snap.relationships| && RelOk(snap)(snap.relationships[i].val) ==>
              Holds(Imported(snap).relationships, snap.relationships[i])
    ensures forall i :: 0 <= i < |snap.tags| && TagOk(snap)(snap.tags[i].val) ==>
              Holds(Imported(snap).tags, NormalTag(snap.tags[i]))
    ensures forall i :: 0 <= i < |snap.notes| && NoteOk(snap)(snap.notes[i].val) ==>
              Holds(Imported(snap).notes, snap.notes[i])
    ensures forall i :: 0 <= i < |snap.values| && ValueOk(snap)(snap.values[i].val) ==>
              Holds(Imported(snap).values, snap.values[i])
    ensures forall i :: 0 <= i < |snap.ports| ==> PortKept(snap, i)
  {
    RowsHold(snap.entities);
    RowsHold(snap.nics);
    RowsHold(snap.defs);
    KeptHolds(snap.relationships, RelOk(snap));
    forall i | 0 <= i < |snap.tags| && TagOk(snap)(snap.tags[i].val)
      ensures Holds(Imported(snap).tags, NormalTag(snap.tags[i]))
    {
      KeptTagHolds(snap, i);
    }
    KeptHolds(snap.notes, NoteOk(snap));
    KeptHolds(snap.values, ValueOk(snap));
    forall i | 0 <= i < |snap.ports| ensures PortKept(snap, i) {
      ImportedPortKept(snap, i);
    }
  }

  lemma {:induction false} RowsHold<K, V>(rows: seq<Row<K, V>>)
    requires DistinctIds(rows)
    ensures forall i :: 0 <= i < |rows| ==> Holds(TableOf(rows), rows[i])
  {
    forall i | 0 <= i < |rows| ensures Holds(TableOf(rows), rows[i]) {
      TableHolds(rows, i);
    }
  }

  lemma {:induction false} ImportedPortKept(snap: Snapshot, i: nat)
    requires DistinctIds(snap.ports) && i < |snap.ports|
    ensures PortKept(snap, i)
  {
    FinalRow(snap.ports, snap.nics, i);
  }

  /**
    Port row i is in the inventory: its own columns, a link to a port of the file, an
    attribution to a NIC of the file.
   */
  predicate PortKept(snap: Snapshot, i: nat)
    requires i < |snap.ports|
  {
    var (id, was) := (snap.ports[i].id, snap.ports[i].val);
    id in Imported(snap).ports &&
      var now := Imported(snap).ports[id];
      && now == was.(peer := now.peer, nic := now.nic)
      && (Linked(snap.ports, i) ==> now.peer == was.peer)
      && now.nic == if was.nic in Ids(snap.nics) then was.nic else 0
  }

  lemma {:induction false} KeptTagHolds(snap: Snapshot, i: nat)
    requires i < |snap.tags| && TagOk(snap)(snap.tags[i].val) && DistinctIds(NormalTags(Cleaned(snap).tags))
    ensures Holds(Imported(snap).tags, NormalTag(snap.tags[i]))
  {
    var kept := Cleaned(snap).tags;
    assert snap.tags[i] in snap.tags;
    KeptMembers(snap.tags, TagOk(snap), snap.tags[i]);
    var j :| 0 <= j < |kept| && kept[j] == snap.tags[i];
    NormalTagRow(kept, j);
    TableHolds(NormalTags(kept), j);
  }

  predicate Holds<K(==), V(==)>(table: map<K, V>, r: Row<K, V>) {
    r.id in table && table[r.id] == r.val
  }

  lemma {:induction false} KeptHolds<K, V>(rows: seq<Row<K, V>>, ok: V -> bool)
    requires DistinctIds(Kept(rows, ok))
    ensures forall i :: 0 <= i < |rows| && ok(rows[i].val) ==> Holds(TableOf(Kept(rows, ok)), rows[i])
  {
    forall i | 0 <= i < |rows| && ok(rows[i].val) ensures Holds(TableOf(Kept(rows, ok)), rows[i]) {
      assert rows[i] in rows;
      KeptMembers(rows, ok, rows[i]);
      var j :| 0 <= j < |Kept(rows, ok)| && Kept(rows, ok)[j] == rows[i];
      TableHolds(Kept(rows, ok), j);
    }
  }

  /** The skipped count is zero exactly when nothing was dropped or cleared. */
  lemma {:induction false} SkippedNoneExactly(snap: Snapshot)
    ensures Skipped(snap) >= 0
    ensures Skipped(snap) == 0 <==>
              && AllOk(snap.relationships, RelOk(snap)) && AllOk(snap.tags, TagOk(snap))
              && AllOk(snap.notes, NoteOk(snap)) && AllOk(snap.values, ValueOk(snap))
              && forall i :: 0 <= i < |snap.ports| ==> PortWhole(snap, i)
  {
    KeptCount(snap.relationships, RelOk(snap));
    KeptCount(snap.tags, TagOk(snap));
    KeptCount(snap.notes, NoteOk(snap));
    KeptCount(snap.values, ValueOk(snap));
    var paired := PairedRows(snap.ports, |snap.ports|);
    DanglingNoneExactly(snap.ports, |snap.ports|);
    MissingNoneExactly(paired, snap.nics);
    forall i | 0 <= i < |snap.ports|
      ensures PortWhole(snap, i) <==> !Dangling(snap.ports, i) && !MissingNIC(snap.nics, paired[i].val)
    {
    }
  }

  /** Port row i names only what the file has. */
  predicate PortWhole(snap: Snapshot, i: nat)
    requires i < |snap.ports|
  {
    var v := snap.ports[i].val;
    (v.peer != 0 ==> v.peer in Ids(snap.ports)) && (v.nic != 0 ==> v.nic in Ids(snap.nics))
  }

  // ---- What is counted, kept and refused, in the file's own terms ----

  /** Some row of the file is the entity, NIC or port. */
  predicate InFile(snap: Snapshot, r: Ref) {
    || (exists i :: 0 <= i < |snap.entities| && snap.entities[i].id == r)
    || (r.typ == "nic" && exists i :: 0 <= i < |snap.nics| && snap.nics[i].id == r.id)
    || (r.typ == "port" && exists i :: 0 <= i < |snap.ports| && snap.ports[i].id == r.id)
  }

  /** Some row of the file defines the field, for entities of the type. */
  predicate DefInFile(snap: Snapshot, def: int, typ: string) {
    exists i :: 0 <= i < |snap.defs| && snap.defs[i].id == def && snap.defs[i].val.typ == typ
  }

  lemma {:induction false} InFileExactly(snap: Snapshot, r: Ref)
    ensures InFile(snap, r) <==> Has(snap, r)
  {
  }

  lemma {:induction false} DefInFileExactly(snap: Snapshot, def: int, typ: string)
    requires DistinctIds(snap.defs)
    ensures DefInFile(snap, def, typ) <==> HasDef(snap, def, typ)
  {
    if DefInFile(snap, def, typ) {
      var i :| 0 <= i < |snap.defs| && snap.defs[i].id == def && snap.defs[i].val.typ == typ;
      TableHolds(snap.defs, i);
    }
  }

  function RelationshipsAside(snap: Snapshot): set<nat> {
    set i | 0 <= i < |snap.relationships| &&
      !(InFile(snap, snap.relationships[i].val.from) && InFile(snap, snap.relationships[i].val.to))
  }

  function TagsAside(snap: Snapshot): set<nat> {
    set i | 0 <= i < |snap.tags| && !InFile(snap, snap.tags[i].val.owner)
  }

  function NotesAside(snap: Snapshot): set<nat> {
    set i | 0 <= i < |snap.notes| && !InFile(snap, snap.notes[i].val.owner)
  }

  function ValuesAside(snap: Snapshot): set<nat> {
    set i | 0 <= i < |snap.values| &&
      !(InFile(snap, snap.values[i].val.owner) && DefInFile(snap, snap.values[i].val.def, snap.values[i].val.owner.typ))
  }

  ghost function LinksAside(snap: Snapshot): set<nat> {
    set i | 0 <= i < |snap.ports| && NamesAbsent(snap.ports, i)
  }

  ghost function AttributionsAside(snap: Snapshot): set<nat> {
    set i | 0 <= i < |snap.ports| && AttributedAbsent(snap.ports[i].val, snap.nics)
  }

  lemma {:induction false} AsideExactly(snap: Snapshot)
    requires DistinctIds(snap.defs)
    ensures RelationshipsAside(snap) == Rejected(snap.relationships, RelOk(snap))
    ensures TagsAside(snap) == Rejected(snap.tags, TagOk(snap))
    ensures NotesAside(snap) == Rejected(snap.notes, NoteOk(snap))
    ensures ValuesAside(snap) == Rejected(snap.values, ValueOk(snap))
  {
    forall r: Ref ensures InFile(snap, r) <==> Has(snap, r) {
      InFileExactly(snap, r);
    }
    forall def, typ ensures DefInFile(snap, def, typ) <==> HasDef(snap, def, typ) {
      DefInFileExactly(snap, def, typ);
    }
  }

  lemma {:induction false} PortsAsideExactly(snap: Snapshot)
    ensures PortsCleared(snap.ports, snap.nics) == |LinksAside(snap)| + |AttributionsAside(snap)|
  {
    var paired := PairedRows(snap.ports, |snap.ports|);
    DanglingCountMeaning(snap.ports);
    MissingCountMeaning(paired, snap.nics);
    forall i | 0 <= i < |snap.ports|
      ensures AttributedAbsent(paired[i].val, snap.nics) <==> AttributedAbsent(snap.ports[i].val, snap.nics) {
      assert paired[i].val.nic == snap.ports[i].val.nic;
    }
    assert AttributionsAside(snap) == set i | 0 <= i < |paired| && AttributedAbsent(paired[i].val, snap.nics);
  }

  /**
    The number reported as skipped: the relationships with an end that the file lacks,
    the tags and notes of entities it lacks, the values of entities or definitions it
    lacks, and the links and attributions of ports to ports and NICs it lacks.
   */
  lemma {:induction false} SkippedMeaning(snap: Snapshot)
    requires DistinctIds(snap.defs)
    ensures Skipped(snap) == |RelationshipsAside(snap)| + |TagsAside(snap)| + |NotesAside(snap)| + |ValuesAside(snap)|
                             + |LinksAside(snap)| + |AttributionsAside(snap)|
  {
    AsideExactly(snap);
    PortsAsideExactly(snap);
    DroppedCount(snap.relationships, RelOk(snap));
    DroppedCount(snap.tags, TagOk(snap));
    DroppedCount(snap.notes, NoteOk(snap));
    DroppedCount(snap.values, ValueOk(snap));
  }

  /** The number reported as records is the number of rows the inventory then has. */
  lemma {:induction false} RecordsMeaning(snap: Snapshot, p: Plain)
    requires Importable(snap, p)
    ensures var inv := Imported(snap);
      Records(Cleaned(snap)) == |inv.entities| + |inv.nics| + |inv.ports| + |inv.relationships| + |inv.tags|
                                + |inv.notes| + |inv.defs| + |inv.values|
  {
    var c := Cleaned(snap);
    TableSize(c.entities);
    TableSize(c.nics);
    DistinctFinal(c.ports, c.nics);
    FinalSize(c.ports, c.nics);
    TableSize(FinalRows(c.ports, c.nics));
    TableSize(c.relationships);
    NormalTagsSize(c.tags);
    TableSize(NormalTags(c.tags));
    TableSize(c.notes);
    TableSize(c.defs);
    TableSize(c.values);
  }

  /** The log says that the inventory was imported, with the number of records and, where any, of skipped references. */
  lemma {:induction false} ImportEntryMeaning(records: nat, skipped: nat, now: string)
    ensures var e := ImportEntry(records, skipped, now);
      && e.typ == "" && e.id == 0 && e.name == "inventory" && e.action == "import" && e.createdAt == now
      && |e.changes| == (if skipped == 0 then 1 else 2)
      && e.changes[0].field == "records" && e.changes[0].now == Text.Itoa(records)
      && (skipped != 0 ==> e.changes[1].field == "dangling references skipped"
                           && e.changes[1].now == Text.Itoa(skipped))
  {
  }

  /**
    An attachment outlives an import exactly when the file has the entity it belongs
    to, or its type is none that the inventory knows; it is then as it was.
   */
  lemma {:induction false} AttachmentKeptExactly(snap: Snapshot, attachments: map<int, Attachment>, k: int)
    requires k in attachments
    ensures var kept := Reconciled(Imported(snap), attachments);
      && (k in kept <==> InFile(snap, attachments[k].owner) || !KnownType(attachments[k].owner.typ))
      && (k in kept ==> kept[k] == attachments[k])
  {
    InFileExactly(snap, attachments[k].owner);
    HasIsPresent(snap, attachments[k].owner);
    KnownTypes(attachments[k].owner.typ);
  }

  /** The seventeen types. */
  predicate KnownType(t: string) {
    || t == "host" || t == "service" || t == "network" || t == "domain" || t == "certificate" || t == "backup"
    || t == "hardware" || t == "subscription" || t == "account" || t == "site" || t == "location" || t == "rack"
    || t == "contact" || t == "vlan" || t == "reservation" || t == "nic" || t == "port"
  }

  lemma {:induction false} KnownTypes(t: string)
    ensures KnownType(t) <==> t in ENTITY_TYPES
  {
  }

  /** A file of a newer version is refused; among the others the version makes no difference. */
  lemma {:induction false} NewerRefused(snap: Snapshot, p: Plain, version: int)
    ensures snap.version > 1 ==> !Importable(snap, p)
    ensures snap.version <= 1 && version <= 1 ==> (Importable(snap.(version := version), p) <==> Importable(snap, p))
  {
    if snap.version <= 1 && version <= 1 {
      var t := snap.(version := version);
      KeptSame(snap.relationships, RelOk(t), RelOk(snap));
      KeptSame(snap.tags, TagOk(t), TagOk(snap));
      KeptSame(snap.notes, NoteOk(t), NoteOk(snap));
      KeptSame(snap.values, ValueOk(t), ValueOk(snap));
    }
  }

  /** A row that no form of the program would take refuses the file. */
  lemma {:induction false} BadRowRefused(snap: Snapshot, p: Plain, i: nat)
    ensures i < |snap.relationships| && BadRelationship(snap.relationships[i].val) ==> !Importable(snap, p)
    ensures i < |snap.tags| && BadTag(snap.tags[i].val) ==> !Importable(snap, p)
    ensures i < |snap.notes| && BadNote(snap.notes[i].val) ==> !Importable(snap, p)
    ensures i < |snap.values| && BadValue(snap.values[i].val) ==> !Importable(snap, p)
    ensures i < |snap.defs| && BadDef(snap.defs[i].val) ==> !Importable(snap, p)
    ensures i < |snap.nics| && snap.nics[i].val.hostId <= 0 ==> !Importable(snap, p)
  {
    if i < |snap.relationships| {
      ValidRelationshipExactly(snap.relationships[i].val);
    }
    if i < |snap.tags| {
      ValidTagExactly(snap.tags[i].val);
    }
    if i < |snap.notes| {
      ValidNoteExactly(snap.notes[i].val);
    }
    if i < |snap.values| {
      ValidValueExactly(snap.values[i].val);
    }
    if i < |snap.defs| {
      ValidDefExactly(snap.defs[i].val, p);
    }
  }

  /** An end of no known type or without a row, one entity at both ends, or no kind of relationship. */
  predicate BadRelationship(r: Relationship) {
    || !KnownType(r.from.typ) || !KnownType(r.to.typ) || r.from.id < 1 || r.to.id < 1
    || r.from == r.to || r.kind !in Impact.RELATIONSHIP_KINDS
  }

  /** An owner of no known type or without a row, or nothing but white space and one hash. */
  predicate BadTag(t: Tag) {
    !KnownType(t.owner.typ) || t.owner.id < 1 || NormalizeTag(t.name) == ""
  }

  predicate BadNote(n: Note) {
    || (n.kind != "info" && n.kind != "success" && n.kind != "warning" && n.kind != "incident")
    || Text.AllBlank(n.body)
  }

  predicate BadValue(v: FieldValue) {
    !KnownType(v.owner.typ) || v.owner.id < 1 || v.def < 1
  }

  /** An unknown type, or a name that is empty or has a character other than a-z, 0-9 and _. */
  predicate BadDef(d: FieldDef) {
    || !KnownType(d.typ) || |d.name| == 0
    || exists i :: 0 <= i < |d.name| && !('a' <= d.name[i] <= 'z' || '0' <= d.name[i] <= '9' || d.name[i] == '_')
  }

  lemma {:induction false} ValidRelationshipExactly(r: Relationship)
    ensures RelationshipValid(r) <==> !BadRelationship(r)
  {
    KnownTypes(r.from.typ);
    KnownTypes(r.to.typ);
    KindsListed(r.kind);
  }

  lemma {:induction false} KindsListed(kind: string)
    ensures kind in Impact.RELATIONSHIP_KINDS <==>
      kind in {"runs on", "connected to", "exposed via", "secured by",
               "backed up by", "depends on", "administered by", "owned by"}
  {
    var k := Impact.RELATIONSHIP_KINDS;
    assert k[0] == "runs on" && k[1] == "connected to" && k[2] == "exposed via" && k[3] == "secured by";
    assert k[4] == "backed up by" && k[5] == "depends on" && k[6] == "administered by" && k[7] == "owned by";
    if kind in k {
      var i :| 0 <= i < |k| && k[i] == kind;
      assert i == 0 || i == 1 || i == 2 || i == 3 || i == 4 || i == 5 || i == 6 || i == 7;
    }
  }

  lemma {:induction false} ValidTagExactly(t: Tag)
    ensures TagValid(t) <==> !BadTag(t)
  {
    KnownTypes(t.owner.typ);
  }

  lemma {:induction false} ValidNoteExactly(n: Note)
    ensures NoteValid(n) <==> !BadNote(n)
  {
    Text.NormalizeEmptyExactly(n.body);
  }

  lemma {:induction false} ValidValueExactly(v: FieldValue)
    ensures ValueValid(v) <==> !BadValue(v)
  {
    KnownTypes(v.owner.typ);
  }

  lemma {:induction false} ValidDefExactly(d: FieldDef, p: Plain)
    ensures DefCheck(p)(d) <==> !BadDef(d) && p.def(d.info)
  {
    KnownTypes(d.typ);
    if !Slug(d.name) && d.name != [] {
      var c :| c in d.name && !('a' <= c <= 'z' || '0' <= c <= '9' || c == '_');
      var i :| 0 <= i < |d.name| && d.name[i] == c;
      assert BadDef(d);
    }
    if i :| 0 <= i < |d.name| && !('a' <= d.name[i] <= 'z' || '0' <= d.name[i] <= '9' || d.name[i] == '_') {
      assert d.name[i] in d.name;
    }
  }

  /** Two definitions of one name for one type refuse the file. */
  lemma {:induction false} TwinDefsRefused(snap: Snapshot, p: Plain, i: nat, k: nat)
    requires i < k < |snap.defs|
    requires snap.defs[i].val.typ == snap.defs[k].val.typ && snap.defs[i].val.name == snap.defs[k].val.name
    ensures !Importable(snap, p)
  {
    assert DefKey(snap.defs[i].val).Some?;
  }

  /** So do two tags of one entity, kept, that normalize alike. */
  lemma {:induction false} TwinTagsRefused(snap: Snapshot, p: Plain, i: nat, k: nat)
    requires i < k < |Cleaned(snap).tags|
    requires Cleaned(snap).tags[i].val.owner == Cleaned(snap).tags[k].val.owner
    requires NormalizeTag(Cleaned(snap).tags[i].val.name) == NormalizeTag(Cleaned(snap).tags[k].val.name)
    ensures !Importable(snap, p)
  {
    NormalTagRow(Cleaned(snap).tags, i);
    NormalTagRow(Cleaned(snap).tags, k);
  }

  /** And two values, kept, of one field of one entity. */
  lemma {:induction false} TwinValuesRefused(snap: Snapshot, p: Plain, i: nat, k: nat)
    requires i < k < |Cleaned(snap).values|
    requires Cleaned(snap).values[i].val.owner == Cleaned(snap).values[k].val.owner
    requires Cleaned(snap).values[i].val.def == Cleaned(snap).values[k].val.def
    ensures !Importable(snap, p)
  {
    assert ValueKey(Cleaned(snap).values[i].val).Some?;
  }

  // ---- Export and the round trip ----

  /** `Export` lists every table, in whatever order its queries give. */
  ghost predicate ExportOf(snap: Snapshot, inv: Inventory) {
    && snap.version == 1
    && Lists(snap.entities, inv.entities) && Lists(snap.nics, inv.nics) && Lists(snap.ports, inv.ports)
    && Lists(snap.relationships, inv.relationships) && Lists(snap.tags, inv.tags) && Lists(snap.notes, inv.notes)
    && Lists(snap.defs, inv.defs) && Lists(snap.values, inv.values)
  }

  method ListRows<K(==), V>(table: map<K, V>) returns (rows: seq<Row<K, V>>)
    ensures Lists(rows, table)
  {
    rows := [];
    var left := table.Keys;
    while left != {}
      invariant left <= table.Keys
      invariant DistinctIds(rows) && Ids(rows) == table.Keys - left
      invariant forall i :: 0 <= i < |rows| ==> rows[i].id in table && rows[i].val == table[rows[i].id]
      decreases left
    {
      var k :| k in left;
      ListedOneMore(rows, Row(k, table[k]));
      rows := rows + [Row(k, table[k])];
      left := left - {k};
    }
    forall k | k in table ensures k in TableOf(rows) && TableOf(rows)[k] == table[k] {
      var i := TableRow(rows, k);
    }
  }

  lemma {:induction false} ListedOneMore<K, V>(rows: seq<Row<K, V>>, r: Row<K, V>)
    requires DistinctIds(rows) && r.id !in Ids(rows)
    ensures DistinctIds(rows + [r]) && Ids(rows + [r]) == Ids(rows) + {r.id}
  {
    assert (rows + [r])[..|rows|] == rows && (rows + [r])[..|rows| + 1] == rows + [r];
    OneMoreId(rows + [r], |rows|);
    forall i | 0 <= i < |rows| ensures rows[i].id != r.id {
      assert rows[i].id in Ids(rows);
    }
  }

  method Export(db: Database) returns (snap: Snapshot)
    ensures ExportOf(snap, db.inventory)
  {
    var inv := db.inventory;
    var entities := ListRows(inv.entities);
    var nics := ListRows(inv.nics);
    var ports := ListRows(inv.ports);
    var relationships := ListRows(inv.relationships);
    var tags := ListRows(inv.tags);
    var notes := ListRows(inv.notes);
    var defs := ListRows(inv.defs);
    var values := ListRows(inv.values);
    snap := Snapshot(1, entities, nics, ports, relationships, tags, notes, defs, values);
  }

  lemma {:induction false} ListedUnique<V, U>(rows: seq<Row<int, V>>, table: map<int, V>, key: V -> Option<U>)
    requires Lists(rows, table) && UniqueIndex(table, key)
    ensures UniqueKeys(rows, key)
  {
    forall i, k | 0 <= i < k < |rows| && key(rows[i].val).Some? ensures key(rows[i].val) != key(rows[k].val) {
      var a, b := rows[i].id, rows[k].id;
      assert key(table[a]) == key(rows[i].val) && key(table[b]) == key(rows[k].val);
    }
  }

  /** Every row of the table passes. */
  predicate AllRows<V>(table: map<int, V>, ok: V -> bool) {
    forall k :: k in table ==> ok(table[k])
  }

  lemma {:induction false} ListedAll<V>(rows: seq<Row<int, V>>, table: map<int, V>, ok: V -> bool)
    requires Lists(rows, table) && AllRows(table, ok)
    ensures All(rows, ok) && AllOk(rows, ok)
  {
    forall i | 0 <= i < |rows| ensures ok(rows[i].val) {
      var k := rows[i].id;
      assert ok(table[k]);
    }
  }

  /** The rows pass the checks of their payloads. */
  ghost predicate PlainOk(inv: Inventory, p: Plain) {
    && (forall r :: r in inv.entities ==> p.entity(r.typ, inv.entities[r]))
    && AllRows(inv.nics, NICCheck(p)) && AllRows(inv.ports, PortCheck(p)) && AllRows(inv.defs, DefCheck(p))
  }

  /** A tag as it is stored: its name was the normal form of something, and not empty. */
  predicate TagStored(t: Tag) {
    t.owner.typ in ENTITY_TYPES && t.owner.id > 0 && t.name != []
  }

  /**
    An inventory as imports and the program's own operations leave it: every row
    refers to rows that are there, links are answered, and the rows but for tag
    names and negative peers are valid and unique.
   */
  ghost predicate Kempt(inv: Inventory, p: Plain) {
    && Integrity(inv) && AllAnswered(inv.ports) && AllRows(inv.ports, PortOwned) && PlainOk(inv, p)
    && AllRows(inv.relationships, RelationshipValid) && AllRows(inv.tags, TagStored)
    && AllRows(inv.notes, NoteValid) && AllRows(inv.values, ValueValid)
    && UniqueIndex(inv.tags, TagKey) && UniqueIndex(inv.defs, DefKey) && UniqueIndex(inv.values, ValueKey)
  }

  predicate PeerNotNegative(v: Port) {
    v.peer >= 0
  }

  /** Normalizing the tag's name leaves something: it is more than white space and one hash. */
  predicate NameLasts(t: Tag) {
    !Bare(t.name, 1)
  }

  /** What the unique index sees of a tag once its name is normalized again. */
  function NormalKey(t: Tag): Option<(Ref, string)> {
    Some((t.owner, NormalizeTag(t.name)))
  }

  /** What an import asks of a kempt inventory's export. */
  ghost predicate Reimportable(inv: Inventory) {
    AllRows(inv.ports, PeerNotNegative) && AllRows(inv.tags, NameLasts) && UniqueIndex(inv.tags, NormalKey)
  }

  /** The tag's name is one that normalizing leaves alone. */
  predicate NormalTagName(t: Tag) {
    NormalName(t.name)
  }

  lemma {:induction false} ListedHas(snap: Snapshot, inv: Inventory, r: Ref)
    requires ExportOf(snap, inv)
    ensures Has(snap, r) <==> Present(inv, r)
  {
  }

  lemma {:induction false} NormalRows(rows: seq<Row<int, Tag>>)
    requires All(rows, NormalTagName)
    ensures NormalTags(rows) == rows
  {
    NormalTagsSize(rows);
    forall i | 0 <= i < |rows| ensures NormalTags(rows)[i] == rows[i] {
      NormalTagRow(rows, i);
      assert NormalTagName(rows[i].val);
      NormalNameExactly(rows[i].val.name);
    }
  }

  /** No row of an export is dropped. */
  lemma {:induction false} ExportIsClean(snap: Snapshot, inv: Inventory, p: Plain)
    requires ExportOf(snap, inv) && Kempt(inv, p)
    ensures Cleaned(snap) == snap
  {
    forall r ensures Has(snap, r) <==> Present(inv, r) {
      ListedHas(snap, inv, r);
    }
    ListedAll(snap.relationships, inv.relationships, RelOk(snap));
    ListedAll(snap.tags, inv.tags, TagOk(snap));
    ListedAll(snap.notes, inv.notes, NoteOk(snap));
    forall k | k in inv.values ensures ValueOk(snap)(inv.values[k]) {
      assert ValueRefersOk(inv, inv.values[k]);
      var i := TableRow(snap.defs, inv.values[k].def);
    }
    ListedAll(snap.values, inv.values, ValueOk(snap));
    KeptCount(snap.relationships, RelOk(snap));
    KeptCount(snap.tags, TagOk(snap));
    KeptCount(snap.notes, NoteOk(snap));
    KeptCount(snap.values, ValueOk(snap));
  }

  /** Validation accepts the rows of an export but for negative peers and tag names that normalize to nothing. */
  lemma {:induction false} ExportValidExactly(snap: Snapshot, inv: Inventory, p: Plain)
    requires ExportOf(snap, inv) && Kempt(inv, p)
    ensures Valid(snap, p) <==> AllRows(inv.ports, PeerNotNegative) && AllRows(inv.tags, NameLasts)
  {
    ListedAll(snap.relationships, inv.relationships, RelationshipValid);
    ListedAll(snap.notes, inv.notes, NoteValid);
    ListedAll(snap.values, inv.values, ValueValid);
    ListedAll(snap.defs, inv.defs, DefCheck(p));
    ListedAll(snap.nics, inv.nics, NICCheck(p));
    ListedAll(snap.ports, inv.ports, PortCheck(p));
    forall i | 0 <= i < |snap.entities| ensures p.entity(snap.entities[i].id.typ, snap.entities[i].val) {
      TableHolds(snap.entities, i);
    }
    ExportPortsValid(snap.ports, inv.ports);
    ExportTagsValid(snap.tags, inv.tags);
  }

  lemma {:induction false} ExportPortsValid(rows: seq<PortRow>, table: PortTable)
    requires Lists(rows, table) && AllAnswered(table) && AllRows(table, PortOwned)
    ensures PortsValid(rows) <==> AllRows(table, PeerNotNegative)
  {
    ListedAll(rows, table, PortOwned);
    forall i | 0 <= i < |rows| ensures PortValid(rows[i]) <==> PeerNotNegative(rows[i].val) {
      TableHolds(rows, i);
      assert Answered(table, rows[i].id) && PortOwned(rows[i].val);
    }
    if AllRows(table, PeerNotNegative) {
      ListedAll(rows, table, PeerNotNegative);
    }
    if PortsValid(rows) {
      forall i | 0 <= i < |rows| ensures PeerNotNegative(rows[i].val) {
        assert PortValid(rows[i]);
      }
      TableAll(rows, PeerNotNegative);
    }
  }

  lemma {:induction false} ExportTagsValid(rows: seq<Row<int, Tag>>, table: map<int, Tag>)
    requires Lists(rows, table) && AllRows(table, TagStored)
    ensures All(rows, TagValid) <==> AllRows(table, NameLasts)
  {
    ListedAll(rows, table, TagStored);
    forall i | 0 <= i < |rows| ensures TagValid(rows[i].val) <==> NameLasts(rows[i].val) {
      assert TagStored(rows[i].val);
      EmptyExactly(rows[i].val.name);
    }
    if AllRows(table, NameLasts) {
      ListedAll(rows, table, NameLasts);
    }
    if All(rows, TagValid) {
      TableAll(rows, NameLasts);
    }
  }

  /** The port rules change nothing in an export. */
  lemma {:induction false} ExportPorts(snap: Snapshot, inv: Inventory, p: Plain)
    requires ExportOf(snap, inv) && Kempt(inv, p)
    ensures PairedRows(snap.ports, |snap.ports|) == snap.ports && FinalRows(snap.ports, snap.nics) == snap.ports
    ensures PortsCleared(snap.ports, snap.nics) == 0
    ensures PortsValid(snap.ports) ==> PortsImportable(snap.ports, snap.nics)
  {
    AnsweredIsPaired(snap.ports);
    AttributedIsChecked(snap.ports, snap.nics);
    AnsweredIsUnique(inv.ports);
    ListedUnique(snap.ports, inv.ports, PeerKey);
  }

  /** The tag inserts go through exactly when no two tags of one owner normalize to one name. */
  lemma {:induction false} TagsInsertExactly(rows: seq<Row<int, Tag>>)
    requires DistinctIds(rows)
    ensures DistinctIds(NormalTags(rows))
    ensures UniqueKeys(NormalTags(rows), TagKey) <==> UniqueKeys(rows, NormalKey)
  {
    NormalTagsSize(rows);
    forall i | 0 <= i < |rows|
      ensures NormalTags(rows)[i].id == rows[i].id && TagKey(NormalTags(rows)[i].val) == NormalKey(rows[i].val)
    {
      NormalTagRow(rows, i);
    }
  }

  /**
    The import accepts an export of a kempt inventory, in whatever order, exactly when
    the inventory is reimportable.
   */
  lemma {:induction false} ExportAcceptedExactly(snap: Snapshot, inv: Inventory, p: Plain)
    requires ExportOf(snap, inv) && Kempt(inv, p)
    ensures Importable(snap, p) <==> Reimportable(inv)
  {
    ExportIsClean(snap, inv, p);
    ExportValidExactly(snap, inv, p);
    ExportPorts(snap, inv, p);
    TagsInsertExactly(snap.tags);
    ListedUnique(snap.defs, inv.defs, DefKey);
    ListedUnique(snap.values, inv.values, ValueKey);
    if UniqueIndex(inv.tags, NormalKey) {
      ListedUnique(snap.tags, inv.tags, NormalKey);
    }
    if UniqueKeys(snap.tags, NormalKey) {
      TableUnique(snap.tags, NormalKey);
    }
  }

  /** A tag whose name normalizing changes does not survive the round trip. */
  lemma {:induction false} ChangedTag(snap: Snapshot, inv: Inventory, p: Plain)
    requires ExportOf(snap, inv) && Kempt(inv, p) && Importable(snap, p) && Imported(snap).tags == inv.tags
    ensures AllRows(inv.tags, NormalTagName)
  {
    ExportIsClean(snap, inv, p);
    forall k | k in inv.tags ensures NormalTagName(inv.tags[k]) {
      var i := ImportedTag(snap, k);
      TableHolds(snap.tags, i);
      NormalNameExactly(inv.tags[k].name);
    }
  }

  /** Normal names last, and stay apart. */
  lemma {:induction false} NormalNamesLast(tags: map<int, Tag>)
    requires AllRows(tags, TagStored) && AllRows(tags, NormalTagName) && UniqueIndex(tags, TagKey)
    ensures AllRows(tags, NameLasts) && UniqueIndex(tags, NormalKey)
  {
    forall k | k in tags ensures NameLasts(tags[k]) && NormalKey(tags[k]) == TagKey(tags[k]) {
      assert TagStored(tags[k]) && NormalTagName(tags[k]);
      NormalNameExactly(tags[k].name);
      EmptyExactly(tags[k].name);
    }
  }

  /**
    The round trip.  Importing an export of a kempt inventory, whatever the order of
    its lists, skips nothing, and gives the same inventory exactly when no port names
    a negative peer and no tag name has an upper-case letter, white space at an end,
    or a leading hash.
   */
  lemma {:induction false} RoundTripExactly(snap: Snapshot, inv: Inventory, p: Plain)
    requires ExportOf(snap, inv) && Kempt(inv, p)
    ensures Importable(snap, p) && Imported(snap) == inv <==>
              AllRows(inv.ports, PeerNotNegative) && AllRows(inv.tags, NormalTagName)
    ensures Skipped(snap) == 0
  {
    ExportIsClean(snap, inv, p);
    ExportPorts(snap, inv, p);
    ExportAcceptedExactly(snap, inv, p);
    if AllRows(inv.tags, NormalTagName) {
      NormalNamesLast(inv.tags);
      ListedAll(snap.tags, inv.tags, NormalTagName);
      NormalRows(snap.tags);
    } else if Importable(snap, p) && Imported(snap) == inv {
      ChangedTag(snap, inv, p);
    }
  }

  // ---- Tags that the program itself adds ----

  /** `TagRepo.Add`: the normal form is stored, unless the entity has it. */
  ghost function TagAdded(inv: Inventory, id: int, t: Tag): Inventory {
    var n := Tag(t.owner, NormalizeTag(t.name));
    if exists k :: k in inv.tags && inv.tags[k] == n then inv else inv.(tags := inv.tags[id := n])
  }

  /** Adding a tag that validation accepts keeps an inventory kempt. */
  lemma {:induction false} AddTagKeepsKempt(inv: Inventory, id: int, t: Tag, p: Plain)
    requires Kempt(inv, p) && TagValid(t) && Present(inv, t.owner) && id !in inv.tags
    ensures Kempt(TagAdded(inv, id, t), p)
  {
    var n := Tag(t.owner, NormalizeTag(t.name));
    if TagAdded(inv, id, t) != inv {
      AddedUnique(inv.tags, id, n);
      AddedStored(inv.tags, id, n);
      AddedIntegrity(inv, id, n);
    }
  }

  lemma {:induction false} AddedIntegrity(inv: Inventory, id: int, n: Tag)
    requires Integrity(inv) && Present(inv, n.owner)
    ensures Integrity(inv.(tags := inv.tags[id := n]))
  {
    var after := inv.(tags := inv.tags[id := n]);
    forall r ensures Present(after, r) <==> Present(inv, r) {
    }
    forall k | k in inv.values ensures ValueRefersOk(after, inv.values[k]) {
      assert ValueRefersOk(inv, inv.values[k]);
    }
  }

  lemma {:induction false} AddedUnique(tags: map<int, Tag>, id: int, n: Tag)
    requires UniqueIndex(tags, TagKey) && forall k :: k in tags ==> tags[k] != n
    ensures UniqueIndex(tags[id := n], TagKey)
  {
    forall k | k in tags ensures TagKey(tags[k]) != TagKey(n) {
      assert tags[k] != n;
    }
  }

  lemma {:induction false} AddedStored(tags: map<int, Tag>, id: int, n: Tag)
    requires AllRows(tags, TagStored) && TagStored(n)
    ensures AllRows(tags[id := n], TagStored)
  {
  }

  /** A stored tag `#` makes every export refused. */
  lemma {:induction false} HashRefused(inv: Inventory, k: int, p: Plain, e: Snapshot)
    requires Kempt(inv, p) && ExportOf(e, inv) && k in inv.tags && inv.tags[k].name == "#"
    ensures !Importable(e, p)
  {
    ExportAcceptedExactly(e, inv, p);
    TwoBareHashes();
    assert !NameLasts(inv.tags[k]);
  }

  lemma {:induction false} AddedIsThere(inv: Inventory, id: int, t: Tag) returns (k: int)
    ensures k in TagAdded(inv, id, t).tags && TagAdded(inv, id, t).tags[k] == Tag(t.owner, NormalizeTag(t.name))
  {
    var n := Tag(t.owner, NormalizeTag(t.name));
    if j :| j in inv.tags && inv.tags[j] == n {
      k := j;
    } else {
      k := id;
    }
  }

  /** The tag `##` may be added; it is stored as `#`, and no export of the result is accepted. */
  lemma {:induction false} AddedHashSpoils(inv: Inventory, id: int, owner: Ref, p: Plain, e: Snapshot)
    requires Kempt(inv, p) && owner.typ in ENTITY_TYPES && owner.id > 0 && Present(inv, owner) && id !in inv.tags
    requires ExportOf(e, TagAdded(inv, id, Tag(owner, "##")))
    ensures TagValid(Tag(owner, "##")) && !Importable(e, p)
  {
    TwoBareHashes();
    AddTagKeepsKempt(inv, id, Tag(owner, "##"), p);
    var k := AddedIsThere(inv, id, Tag(owner, "##"));
    HashRefused(TagAdded(inv, id, Tag(owner, "##")), k, p, e);
  }

  // ---- What an import wrote, exported and imported again ----

  /** No port row with a negative id is cabled to a port of the file. */
  ghost predicate NoNegativeLink(rows: seq<PortRow>) {
    forall i :: 0 <= i < |rows| && Linked(rows, i) ==> rows[i].id >= 0
  }

  /** No kept tag's name is white space and at most two hashes. */
  ghost predicate TagsLastTwice(snap: Snapshot) {
    forall i :: 0 <= i < |snap.tags| && TagOk(snap)(snap.tags[i].val) ==> !Bare(snap.tags[i].val.name, 2)
  }

  /** What the unique index sees of a tag of the file once its name is normalized twice. */
  function TwiceKey(t: Tag): Option<(Ref, string)> {
    Some((t.owner, NormalizeTag(NormalizeTag(t.name))))
  }

  /** A row with a negative id leaves its id, which validation refuses, on the row it names. */
  lemma {:induction false} NegativeLink(rows: seq<PortRow>, k: nat) returns (j: nat)
    requires DistinctIds(rows) && PortsValid(rows) && Pairable(rows, |rows|) && k < |rows|
    requires Linked(rows, k) && rows[k].id < 0
    ensures j < |rows| && PeerAt(rows, j, |rows|) < 0
  {
    j := Find(rows, rows[k].val.peer);
    assert Names(rows, k, j) && PortValid(rows[j]);
    assert Agrees(rows, k, j);
    NamerUnique(rows, k, j, |rows|);
  }

  lemma {:induction false} FinalRow(ports: seq<PortRow>, nics: seq<NICRow>, i: nat)
    requires i < |ports| && DistinctIds(ports)
    ensures ports[i].id in TableOf(FinalRows(ports, nics))
    ensures TableOf(FinalRows(ports, nics))[ports[i].id] == Unattributed(nics, PairedRows(ports, |ports|)[i]).val
  {
    var rows := PairedRows(ports, |ports|);
    RowByRow(rows, nics);
    DistinctFinal(ports, nics);
    TableHolds(FinalRows(ports, nics), i);
    assert FinalRows(ports, nics)[i] == Unattributed(nics, rows[i]);
  }

  /** The ports written name no negative peer exactly when no negative id was cabled. */
  lemma {:induction false} PeersNotNegativeExactly(ports: seq<PortRow>, nics: seq<NICRow>)
    requires PortsImportable(ports, nics)
    ensures AllRows(TableOf(FinalRows(ports, nics)), PeerNotNegative) <==> NoNegativeLink(ports)
  {
    var t := TableOf(FinalRows(ports, nics));
    FinalIds(ports, nics);
    if NoNegativeLink(ports) {
      forall id | id in t ensures PeerNotNegative(t[id]) {
        var i :| 0 <= i < |ports| && ports[i].id == id;
        FinalRow(ports, nics, i);
        assert PortValid(ports[i]);
        if !Linked(ports, i) && Namer(ports, i, |ports|) != 0 {
          var k := NamerNames(ports, i, |ports|);
          assert Linked(ports, k);
        }
      }
    } else {
      var k :| 0 <= k < |ports| && Linked(ports, k) && ports[k].id < 0;
      var j := NegativeLink(ports, k);
      FinalRow(ports, nics, j);
      var id := ports[j].id;
      assert !PeerNotNegative(t[id]);
    }
  }

  /** The links that an import writes are answered. */
  lemma {:induction false} ImportedAnswered(ports: seq<PortRow>, nics: seq<NICRow>)
    requires PortsImportable(ports, nics)
    ensures AllAnswered(TableOf(FinalRows(ports, nics)))
  {
    TableUnique(FinalRows(ports, nics), PeerKey);
    CheckedIsAttributed(PairedRows(ports, |ports|), nics);
    assert UniquePeers(TableOf(FinalRows(ports, nics)));
    PairedAnsweredExactly(ports);
  }

  lemma {:induction false} ImportedOwned(ports: seq<PortRow>, nics: seq<NICRow>)
    requires PortsImportable(ports, nics)
    ensures AllRows(TableOf(FinalRows(ports, nics)), PortOwned)
  {
    var t := TableOf(FinalRows(ports, nics));
    FinalIds(ports, nics);
    forall id | id in t ensures PortOwned(t[id]) {
      var i :| 0 <= i < |ports| && ports[i].id == id;
      FinalRow(ports, nics, i);
      assert PortValid(ports[i]);
    }
  }

  lemma {:induction false} KeptAll<V>(rows: seq<Row<int, V>>, ok: V -> bool, valid: V -> bool)
    requires All(rows, valid)
    ensures AllRows(TableOf(Kept(rows, ok)), valid)
  {
    forall k | k in TableOf(Kept(rows, ok)) ensures valid(TableOf(Kept(rows, ok))[k]) {
      var i := TableRow(Kept(rows, ok), k);
      assert Kept(rows, ok)[i] in Kept(rows, ok);
      KeptMembers(rows, ok, Kept(rows, ok)[i]);
      var j :| 0 <= j < |rows| && rows[j] == Kept(rows, ok)[i];
      assert valid(rows[j].val);
    }
  }

  lemma {:induction false} TableAll<V>(rows: seq<Row<int, V>>, valid: V -> bool)
    requires All(rows, valid)
    ensures AllRows(TableOf(rows), valid)
  {
    forall k | k in TableOf(rows) ensures valid(TableOf(rows)[k]) {
      var i := TableRow(rows, k);
    }
  }

  lemma {:induction false} ImportedTagsStored(snap: Snapshot)
    requires All(snap.tags, TagValid)
    ensures AllRows(Imported(snap).tags, TagStored)
  {
    var tags := Imported(snap).tags;
    forall k | k in tags ensures TagStored(tags[k]) {
      var i := ImportedTag(snap, k);
      assert TagValid(snap.tags[i].val);
    }
  }

  /** The tags written last exactly when the names of the kept ones do twice. */
  lemma {:induction false} ImportedTagsLastExactly(snap: Snapshot)
    requires DistinctIds(NormalTags(Cleaned(snap).tags))
    ensures AllRows(Imported(snap).tags, NameLasts) <==> TagsLastTwice(snap)
  {
    var tags := Imported(snap).tags;
    if TagsLastTwice(snap) {
      forall k | k in tags ensures NameLasts(tags[k]) {
        var i := ImportedTag(snap, k);
        BareStep(snap.tags[i].val.name, 1);
      }
    } else {
      var i :| 0 <= i < |snap.tags| && TagOk(snap)(snap.tags[i].val) && Bare(snap.tags[i].val.name, 2);
      BareStep(snap.tags[i].val.name, 1);
      KeptTagHolds(snap, i);
      var k := snap.tags[i].id;
      assert !NameLasts(tags[k]);
    }
  }

  /** The tags written stay apart when normalized again exactly when the kept ones do when normalized twice. */
  lemma {:induction false} ImportedTagsApartExactly(snap: Snapshot)
    requires DistinctIds(NormalTags(Cleaned(snap).tags))
    ensures UniqueIndex(Imported(snap).tags, NormalKey) <==> UniqueKeys(Cleaned(snap).tags, TwiceKey)
  {
    var kept := Cleaned(snap).tags;
    var rows := NormalTags(kept);
    NormalTagsSize(kept);
    forall i | 0 <= i < |kept| ensures NormalKey(rows[i].val) == TwiceKey(kept[i].val) {
      NormalTagRow(kept, i);
    }
    if UniqueIndex(Imported(snap).tags, NormalKey) {
      ListedUnique(rows, Imported(snap).tags, NormalKey);
    }
    if UniqueKeys(rows, NormalKey) {
      TableUnique(rows, NormalKey);
    }
    SameKeys(rows, kept, NormalKey, TwiceKey);
  }

  lemma {:induction false} SameKeys<K, V, U>(a: seq<Row<K, V>>, b: seq<Row<K, V>>, f: V -> Option<U>, g: V -> Option<U>)
    requires |a| == |b| && forall i :: 0 <= i < |a| ==> f(a[i].val) == g(b[i].val)
    ensures UniqueKeys(a, f) <==> UniqueKeys(b, g)
  {
  }

  /** Payloads are written as they are. */
  lemma {:induction false} ImportedPlain(snap: Snapshot, p: Plain)
    requires Importable(snap, p)
    ensures PlainOk(Imported(snap), p)
  {
    var inv := Imported(snap);
    TableAll(snap.nics, NICCheck(p));
    TableAll(snap.defs, DefCheck(p));
    forall r | r in inv.entities ensures p.entity(r.typ, inv.entities[r]) {
      var i := TableRow(snap.entities, r);
    }
    FinalIds(snap.ports, snap.nics);
    forall id | id in inv.ports ensures PortCheck(p)(inv.ports[id]) {
      var i :| 0 <= i < |snap.ports| && snap.ports[i].id == id;
      FinalRow(snap.ports, snap.nics, i);
      assert PortCheck(p)(snap.ports[i].val);
    }
  }

  /** Whatever the file, what a successful import wrote is a kempt inventory. */
  lemma {:induction false} ImportedIsKempt(snap: Snapshot, p: Plain)
    requires Importable(snap, p)
    ensures Kempt(Imported(snap), p)
  {
    ImportedIsSound(snap, p);
    ImportedAnswered(snap.ports, snap.nics);
    ImportedOwned(snap.ports, snap.nics);
    ImportedTagsStored(snap);
    ImportedPlain(snap, p);
    KeptAll(snap.relationships, RelOk(snap), RelationshipValid);
    KeptAll(snap.notes, NoteOk(snap), NoteValid);
    KeptAll(snap.values, ValueOk(snap), ValueValid);
    TableUnique(NormalTags(Cleaned(snap).tags), TagKey);
    TableUnique(snap.defs, DefKey);
    TableUnique(Cleaned(snap).values, ValueKey);
  }

  /**
    Restoring a restore.  Every export of what a successful import wrote is itself
    accepted exactly when the first file cabled no port with a negative id, no kept
    tag's name was only white space and at most two hashes, and no two kept tags of
    one entity have names that normalizing twice makes equal.
   */
  lemma {:induction false} ReimportExactly(snap: Snapshot, e: Snapshot, p: Plain)
    requires Importable(snap, p) && ExportOf(e, Imported(snap))
    ensures Importable(e, p) <==>
              NoNegativeLink(snap.ports) && TagsLastTwice(snap) && UniqueKeys(Cleaned(snap).tags, TwiceKey)
  {
    ImportedIsKempt(snap, p);
    ExportAcceptedExactly(e, Imported(snap), p);
    PeersNotNegativeExactly(snap.ports, snap.nics);
    ImportedTagsLastExactly(snap);
    ImportedTagsApartExactly(snap);
  }

  /** No kept tag's normal form begins with a hash: the rest of a normal name it has by normalizing. */
  ghost predicate TagsSettle(snap: Snapshot) {
    forall i :: 0 <= i < |snap.tags| && TagOk(snap)(snap.tags[i].val) ==>
      NormalName(NormalizeTag(snap.tags[i].val.name))
  }

  /**
    And it gives the same inventory once more exactly when no negative id was cabled and
    the tags' normal forms are normal names.
   */
  lemma {:induction false} RestoreExactly(snap: Snapshot, e: Snapshot, p: Plain)
    requires Importable(snap, p) && ExportOf(e, Imported(snap))
    ensures Importable(e, p) && Imported(e) == Imported(snap) <==> NoNegativeLink(snap.ports) && TagsSettle(snap)
  {
    ImportedIsKempt(snap, p);
    RoundTripExactly(e, Imported(snap), p);
    PeersNotNegativeExactly(snap.ports, snap.nics);
    ImportedTagsNormalExactly(snap);
  }

  lemma {:induction false} ImportedTagsNormalExactly(snap: Snapshot)
    requires DistinctIds(NormalTags(Cleaned(snap).tags))
    ensures AllRows(Imported(snap).tags, NormalTagName) <==> TagsSettle(snap)
  {
    var tags := Imported(snap).tags;
    if TagsSettle(snap) {
      forall k | k in tags ensures NormalTagName(tags[k]) {
        var i := ImportedTag(snap, k);
      }
    } else {
      var i :| 0 <= i < |snap.tags| && TagOk(snap)(snap.tags[i].val)
               && !NormalName(NormalizeTag(snap.tags[i].val.name));
      KeptTagHolds(snap, i);
      var k := snap.tags[i].id;
      assert !NormalTagName(tags[k]);
    }
  }

  lemma {:induction false} AllRefused(snap: Snapshot, p: Plain)
    requires Importable(snap, p)
    requires !(NoNegativeLink(snap.ports) && TagsLastTwice(snap) && UniqueKeys(Cleaned(snap).tags, TwiceKey))
    ensures forall e :: ExportOf(e, Imported(snap)) ==> !Importable(e, p)
  {
    forall e | ExportOf(e, Imported(snap)) ensures !Importable(e, p) {
      ReimportExactly(snap, e, p);
    }
  }

  function EmptySnapshot(): Snapshot {
    Snapshot(1, [], [], [], [], [], [], [], [])
  }

  /** Port -1 cabled to port 2: the file is accepted, and no export of what it wrote is. */
  lemma {:induction false} NegativeIdSpoils(p: Plain) returns (snap: Snapshot)
    requires p.port("")
    ensures Importable(snap, p) && |snap.ports| == 2 && snap.ports[0].id == -1 && Linked(snap.ports, 0)
    ensures forall e :: ExportOf(e, Imported(snap)) ==> !Importable(e, p)
  {
    var a := Row(-1, Port("hardware", 1, 0, 2, ""));
    var b := Row(2, Port("hardware", 1, 0, 0, ""));
    snap := EmptySnapshot().(ports := [a, b]);
    CableAccepted(a, b);
    NothingElse(snap, p);
    AllRefused(snap, p);
  }

  /** A snapshot of valid ports alone is accepted with them. */
  lemma {:induction false} NothingElse(snap: Snapshot, p: Plain)
    requires snap == EmptySnapshot().(ports := snap.ports)
    requires PortsImportable(snap.ports, snap.nics) && All(snap.ports, PortCheck(p))
    ensures Importable(snap, p)
  {
    assert Cleaned(snap) == snap;
  }

  /** A cable from a port without NIC to a free one is accepted. */
  lemma {:induction false} CableAccepted(a: PortRow, b: PortRow)
    requires PortValid(a) && PortValid(b) && a.id != b.id && a.id != 0 && a.val.nic == 0 && b.val.nic == 0
    requires a.val.peer == b.id && b.id != 0 && b.val.peer == 0
    ensures PortsImportable([a, b], []) && Linked([a, b], 0)
  {
    var rows: seq<PortRow> := [a, b];
    OneCable(a, b);
    RowByRow(PairedRows(rows, 2), []);
    assert FinalRows(rows, [])[0] == a && FinalRows(rows, [])[1].val.peer == a.id;
    assert PeerKey(FinalRows(rows, [])[0].val) == Some(b.id) && PeerKey(FinalRows(rows, [])[1].val) == Some(a.id);
  }

  /** Tags on one host, with names that normalize to different ones, are accepted. */
  lemma {:induction false} TagsAccepted(snap: Snapshot, owner: Ref, p: Plain)
    requires owner == Impact.Ref("host", 1) && p.entity("host", "")
    requires snap == EmptySnapshot().(entities := [Row(owner, "")], tags := snap.tags)
    requires DistinctIds(snap.tags) && UniqueKeys(snap.tags, NormalKey)
    requires forall i :: 0 <= i < |snap.tags| ==>
      snap.tags[i].val.owner == owner && NormalizeTag(snap.tags[i].val.name) != []
    ensures Importable(snap, p) && Cleaned(snap) == snap
  {
    assert snap.entities[0].id in Ids(snap.entities);
    forall i | 0 <= i < |snap.tags| ensures TagOk(snap)(snap.tags[i].val) {
    }
    KeptCount(snap.tags, TagOk(snap));
    assert Cleaned(snap) == snap;
    TagsInsertExactly(snap.tags);
  }

  /** A tag of two hashes is accepted and stored as one hash, which no import accepts. */
  lemma {:induction false} TwoHashesSpoil(p: Plain) returns (snap: Snapshot)
    requires p.entity("host", "")
    ensures Importable(snap, p) && |snap.tags| == 1 && snap.tags[0].val.name == "##" && snap.ports == []
    ensures forall e :: ExportOf(e, Imported(snap)) ==> !Importable(e, p)
  {
    var owner := Impact.Ref("host", 1);
    snap := EmptySnapshot().(entities := [Row(owner, "")], tags := [Row(1, Tag(owner, "##"))]);
    TwoBareHashes();
    TagsAccepted(snap, owner, p);
    assert snap.entities[0].id in Ids(snap.entities) && TagOk(snap)(snap.tags[0].val);
    AllRefused(snap, p);
  }

  /**
    A normal name on one entity with and without two hashes before it: stored as two
    tags that the next import takes for one.
   */
  lemma {:induction false} HashedTwinSpoils(s: string, p: Plain) returns (snap: Snapshot)
    requires s != [] && NormalName(s) && p.entity("host", "")
    ensures Importable(snap, p) && snap.ports == [] && TagsLastTwice(snap)
    ensures |snap.tags| == 2 && snap.tags[0].val.name == "#" + ("#" + s) && snap.tags[1].val.name == s
    ensures forall e :: ExportOf(e, Imported(snap)) ==> !Importable(e, p)
  {
    var owner := Impact.Ref("host", 1);
    Twins(s);
    snap := TwinsSpoil(Tag(owner, "#" + ("#" + s)), Tag(owner, s), p);
  }

  /** Two tags on one host that normalizing keeps apart once and not twice. */
  lemma {:induction false} TwinsSpoil(x: Tag, y: Tag, p: Plain) returns (snap: Snapshot)
    requires x.owner == y.owner == Impact.Ref("host", 1) && p.entity("host", "")
    requires NormalKey(x) != NormalKey(y) && TwiceKey(x) == TwiceKey(y)
    requires !Bare(x.name, 2) && !Bare(y.name, 2) && NormalizeTag(x.name) != [] && NormalizeTag(y.name) != []
    ensures Importable(snap, p) && snap.ports == [] && TagsLastTwice(snap)
    ensures |snap.tags| == 2 && snap.tags[0].val == x && snap.tags[1].val == y
    ensures forall e :: ExportOf(e, Imported(snap)) ==> !Importable(e, p)
  {
    snap := EmptySnapshot().(entities := [Row(x.owner, "")], tags := [Row(1, x), Row(2, y)]);
    TagsAccepted(snap, x.owner, p);
    assert TwiceKey(snap.tags[0].val) == TwiceKey(snap.tags[1].val) && TwiceKey(x).Some?;
    AllRefused(snap, p);
  }
}
