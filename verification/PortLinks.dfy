/**
  The port rules of an import (`pairPortLinks` and `checkPortNICs` in
  `internal/store/portability.go`): a file's port rows are brought into the form
  the ports table keeps, or refused.
 */
module PortLinks {
  import opened Wrappers
  import opened Tables
  import opened Ports

  type PortRow = Row<int, Port>

  type NICRow = Row<int, NIC>

  // ---- Links of a file ----

  /** Row i names a port that the file has. */
  predicate Linked(rows: seq<PortRow>, i: nat)
    requires i < |rows|
  {
    rows[i].val.peer != 0 && Find(rows, rows[i].val.peer) >= 0
  }

  /** Row i names a port that the file does not have. */
  predicate Dangling(rows: seq<PortRow>, i: nat)
    requires i < |rows|
  {
    rows[i].val.peer != 0 && Find(rows, rows[i].val.peer) < 0
  }

  /** Row k names row i. */
  predicate Names(rows: seq<PortRow>, k: nat, i: nat)
    requires k < |rows| && i < |rows|
  {
    rows[k].val.peer != 0 && Find(rows, rows[k].val.peer) == i
  }

  /** The latest id other than 0 among the first n rows that name row i, 0 if none does. */
  function Namer(rows: seq<PortRow>, i: nat, n: nat): int
    requires i < |rows| && n <= |rows|
  {
    if n == 0 then 0
    else if Names(rows, n - 1, i) && rows[n - 1].id != 0 then rows[n - 1].id
    else Namer(rows, i, n - 1)
  }

  /** The peer of row i once the first n rows have been handled. */
  function PeerAt(rows: seq<PortRow>, i: nat, n: nat): int
    requires i < |rows| && n <= |rows|
  {
    if Linked(rows, i) || (Dangling(rows, i) && i >= n) then rows[i].val.peer else Namer(rows, i, n)
  }

  /** The row that row i names gives it no trouble when row i is handled. */
  predicate Agrees(rows: seq<PortRow>, i: nat, j: nat)
    requires i < |rows| && j < |rows|
  {
    PeerAt(rows, j, i) == 0 || PeerAt(rows, j, i) == rows[i].id
  }

  /** Every row that names a row of the file agrees with it. */
  ghost predicate Pairable(rows: seq<PortRow>, n: nat)
    requires n <= |rows|
  {
    forall i, j :: 0 <= i < n && 0 <= j < |rows| && Names(rows, i, j) ==> Agrees(rows, i, j)
  }

  function Paired(rows: seq<PortRow>, i: nat, n: nat): PortRow
    requires i < |rows| && n <= |rows|
  {
    Row(rows[i].id, rows[i].val.(peer := PeerAt(rows, i, n)))
  }

  function DanglingCount(rows: seq<PortRow>, n: nat): nat
    requires n <= |rows|
  {
    if n == 0 then 0 else DanglingCount(rows, n - 1) + (if Dangling(rows, n - 1) then 1 else 0)
  }

  /** Row i names a port, and no row of the file is that port. */
  ghost predicate NamesAbsent(rows: seq<PortRow>, i: nat) {
    i < |rows| && rows[i].val.peer != 0 && forall k :: 0 <= k < |rows| ==> rows[k].id != rows[i].val.peer
  }

  ghost function AbsentNamed(rows: seq<PortRow>, n: nat): set<nat> {
    set i: nat | i < n && NamesAbsent(rows, i)
  }

  lemma {:induction false} DanglingSize(rows: seq<PortRow>, n: nat)
    requires n <= |rows|
    ensures DanglingCount(rows, n) == |AbsentNamed(rows, n)|
  {
    if n > 0 {
      DanglingSize(rows, n - 1);
      assert Dangling(rows, n - 1) <==> NamesAbsent(rows, n - 1);
      assert AbsentNamed(rows, n) ==
        if NamesAbsent(rows, n - 1) then AbsentNamed(rows, n - 1) + {n - 1} else AbsentNamed(rows, n - 1);
    }
  }

  /** The links that are cleared and counted are those of the rows that name an absent port. */
  lemma {:induction false} DanglingCountMeaning(rows: seq<PortRow>)
    ensures DanglingCount(rows, |rows|) == |set i | 0 <= i < |rows| && NamesAbsent(rows, i)|
  {
    DanglingSize(rows, |rows|);
    assert AbsentNamed(rows, |rows|) == set i | 0 <= i < |rows| && NamesAbsent(rows, i);
  }

  /** The rows after the first n have been handled. */
  function PairedRows(rows: seq<PortRow>, n: nat): seq<PortRow>
    requires n <= |rows|
  {
    seq(|rows|, i requires 0 <= i < |rows| => Paired(rows, i, n))
  }

  method IndexRows(rows: seq<PortRow>) returns (index: map<int, nat>)
    ensures forall id :: id in index <==> Find(rows, id) >= 0
    ensures forall id :: id in index ==> index[id] == Find(rows, id)
  {
    index := map[];
    for i := 0 to |rows|
      invariant forall id :: id in index <==> Last(rows, id, i) >= 0
      invariant forall id :: id in index ==> index[id] == Last(rows, id, i)
    {
      index := index[rows[i].id := i];
    }
  }

  /** A dangling row that has been reached without failure was named by none before it. */
  lemma {:induction false} NobodyNamesDangling(rows: seq<PortRow>, i: nat, n: nat)
    requires n <= i < |rows| && Dangling(rows, i) && Pairable(rows, n)
    ensures Namer(rows, i, n) == 0
  {
    if n > 0 {
      NobodyNamesDangling(rows, i, n - 1);
    }
  }

  /** One turn of the loop changes the links as the loop's branches do. */
  lemma {:induction false} PairStep(rows: seq<PortRow>, i: nat, j: nat)
    requires i < |rows| && j < |rows| && Pairable(rows, i)
    ensures rows[i].val.peer == 0 ==> PeerAt(rows, j, i + 1) == PeerAt(rows, j, i)
    ensures Dangling(rows, i) ==> PeerAt(rows, j, i + 1) == if j == i then 0 else PeerAt(rows, j, i)
    ensures Linked(rows, i) && !Names(rows, i, j) ==> PeerAt(rows, j, i + 1) == PeerAt(rows, j, i)
    ensures Names(rows, i, j) && Agrees(rows, i, j) ==> PeerAt(rows, j, i + 1) == rows[i].id
  {
    if Dangling(rows, i) {
      NobodyNamesDangling(rows, i, i);
    }
    if Names(rows, i, j) && Dangling(rows, j) {
    }
  }

  lemma {:induction false} PairStart(rows: seq<PortRow>)
    ensures PairedRows(rows, 0) == rows
  {
  }

  /** A row with no peer: nothing changes. */
  lemma {:induction false} TurnUnlinked(rows: seq<PortRow>, i: nat)
    requires i < |rows| && Pairable(rows, i) && rows[i].val.peer == 0
    ensures PairedRows(rows, i + 1) == PairedRows(rows, i) && Pairable(rows, i + 1)
  {
    forall j | 0 <= j < |rows| ensures Paired(rows, j, i + 1) == Paired(rows, j, i) {
      PairStep(rows, i, j);
    }
  }

  /** A dangling row: its link is cleared. */
  lemma {:induction false} TurnDangling(rows: seq<PortRow>, i: nat)
    requires i < |rows| && Pairable(rows, i) && Dangling(rows, i)
    ensures PairedRows(rows, i + 1) == PairedRows(rows, i)[i := Row(rows[i].id, rows[i].val.(peer := 0))]
    ensures Pairable(rows, i + 1)
  {
    forall j | 0 <= j < |rows| ensures j != i ==> Paired(rows, j, i + 1) == Paired(rows, j, i) {
      PairStep(rows, i, j);
    }
    PairStep(rows, i, i);
  }

  /** A row that names row j: j names it back. */
  lemma {:induction false} TurnLinked(rows: seq<PortRow>, i: nat, j: nat)
    requires i < |rows| && j < |rows| && Pairable(rows, i) && Names(rows, i, j) && Agrees(rows, i, j)
    ensures PairedRows(rows, i + 1) == PairedRows(rows, i)[j := Row(rows[j].id, rows[j].val.(peer := rows[i].id))]
    ensures Pairable(rows, i + 1)
  {
    forall k | 0 <= k < |rows| ensures k != j ==> Paired(rows, k, i + 1) == Paired(rows, k, i) {
      PairStep(rows, i, k);
    }
    PairStep(rows, i, j);
  }

  /** The id a row was completed with is that of an earlier row naming it. */
  lemma {:induction false} NamerNames(rows: seq<PortRow>, i: nat, n: nat) returns (k: nat)
    requires i < |rows| && n <= |rows| && Namer(rows, i, n) != 0
    ensures k < n && Names(rows, k, i) && rows[k].id == Namer(rows, i, n)
  {
    k := n - 1;
    if !(Names(rows, n - 1, i) && rows[n - 1].id != 0) {
      k := NamerNames(rows, i, n - 1);
    }
  }

  /** A row that was completed agrees with the row it was completed with, when ids are distinct. */
  lemma {:induction false} TurnCompleted(rows: seq<PortRow>, i: nat)
    requires i < |rows| && DistinctIds(rows) && Pairable(rows, i) && rows[i].val.peer == 0 && PeerAt(rows, i, i) != 0
    ensures var j := Find(rows, PeerAt(rows, i, i)); j >= 0 && PeerAt(rows, j, i) == rows[i].id
  {
    var k := NamerNames(rows, i, i);
    var j := Find(rows, rows[k].id);
    assert k == j;
  }

  /** The link of row i when its turn comes. */
  lemma {:induction false} AtTurn(rows: seq<PortRow>, i: nat)
    requires i < |rows|
    ensures rows[i].val.peer != 0 ==> PeerAt(rows, i, i) == rows[i].val.peer
  {
  }

  ghost predicate KeepIds(a: seq<PortRow>, b: seq<PortRow>) {
    |a| == |b| && forall i :: 0 <= i < |a| ==> a[i].id == b[i].id
  }

  /** The rows agree with the specification after n turns. */
  ghost predicate OnTrack(rows: seq<PortRow>, out: seq<PortRow>, n: nat)
    requires n <= |rows|
  {
    DistinctIds(rows) && Pairable(rows, n) && out == PairedRows(rows, n)
  }

  method CopyRows(rows: seq<PortRow>) returns (out: array<PortRow>)
    ensures fresh(out) && out[..] == rows
    ensures KeepIds(rows, out[..]) && (DistinctIds(rows) ==> OnTrack(rows, out[..], 0))
  {
    out := new PortRow[|rows|](i requires 0 <= i < |rows| => rows[i]);
    assert out[..] == rows;
    PairStart(rows);
  }

  /** One turn of the loop of `pairPortLinks`. */
  method PairTurn(ghost rows: seq<PortRow>, out: array<PortRow>, index: map<int, nat>, i: nat)
    returns (ok: bool, dropped: bool)
    requires i < |rows| && KeepIds(rows, out[..])
    requires forall id :: id in index <==> Find(rows, id) >= 0
    requires forall id :: id in index ==> index[id] == Find(rows, id)
    modifies out
    ensures KeepIds(rows, out[..])
    ensures OnTrack(rows, old(out[..]), i) ==> (ok <==> Pairable(rows, i + 1))
    ensures OnTrack(rows, old(out[..]), i) && ok ==> OnTrack(rows, out[..], i + 1) && (dropped <==> Dangling(rows, i))
  {
    ghost var on := OnTrack(rows, out[..], i);
    ghost var was := out[..];
    var p := out[i];
    ok, dropped := true, false;
    if on {
      AtTurn(rows, i);
      assert was[i] == Paired(rows, i, i);
      if rows[i].val.peer == 0 {
        TurnUnlinked(rows, i);
        if p.val.peer != 0 {
          TurnCompleted(rows, i);
        }
      }
    }
    if p.val.peer == 0 {
      return;
    }
    if p.val.peer !in index {
      if on {
        TurnDangling(rows, i);
      }
      out[i] := Row(p.id, p.val.(peer := 0));
      assert out[..] == was[i := out[i]];
      dropped := true;
      return;
    }
    var j := index[p.val.peer];
    var peer := out[j];
    assert on ==> peer == Paired(rows, j, i);
    if peer.val.peer == p.id {
      if on && rows[i].val.peer != 0 {
        TurnLinked(rows, i, j);
        assert out[..] == was[j := peer];
      }
    } else if peer.val.peer == 0 {
      if on {
        TurnLinked(rows, i, j);
      }
      out[j] := Row(peer.id, peer.val.(peer := p.id));
      assert out[..] == was[j := out[j]];
    } else {
      assert on ==> Names(rows, i, j) && !Agrees(rows, i, j);
      ok := false;
    }
  }

  /**
    `pairPortLinks`: on rows with distinct ids it succeeds exactly when they are
    pairable, with every link stored on both ends and the dangling ones cleared
    and counted.  It never changes an id.
   */
  method PairPortLinks(rows: seq<PortRow>) returns (r: Result<seq<PortRow>, int>, cleared: nat)
    ensures r.Ok? ==> KeepIds(rows, r.value)
    ensures DistinctIds(rows) ==> (r.Ok? <==> Pairable(rows, |rows|))
    ensures DistinctIds(rows) && r.Ok? ==> r.value == PairedRows(rows, |rows|) && cleared == DanglingCount(rows, |rows|)
  {
    var out := CopyRows(rows);
    var index := IndexRows(rows);
    cleared := 0;
    for i := 0 to |rows|
      invariant KeepIds(rows, out[..])
      invariant DistinctIds(rows) ==> OnTrack(rows, out[..], i) && cleared == DanglingCount(rows, i)
    {
      var ok, dropped := PairTurn(rows, out, index, i);
      if !ok {
        PairableShrinks(rows, i + 1, |rows|);
        return Err(out[i].id), cleared;
      }
      if dropped {
        cleared := cleared + 1;
      }
    }
    return Ok(out[..]), cleared;
  }

  lemma {:induction false} PairableShrinks(rows: seq<PortRow>, m: nat, n: nat)
    requires m <= n <= |rows|
    ensures Pairable(rows, n) ==> Pairable(rows, m)
  {
  }

  // ---- When a file is pairable, and what pairing gives ----

  /**
    The condition in the file's own terms: the row named names back; or it names
    nothing, or nothing present and stands earlier, and no earlier row with an id
    other than 0 names it.
   */
  predicate Fits(rows: seq<PortRow>, i: nat, j: nat)
    requires i < |rows| && j < |rows|
  {
    || (rows[i].id != 0 && rows[j].val.peer == rows[i].id)
    || (&& (rows[j].val.peer == 0 || (Dangling(rows, j) && j < i))
        && forall k :: 0 <= k < i && Names(rows, k, j) ==> rows[k].id == 0)
  }

  lemma {:induction false} NamerNone(rows: seq<PortRow>, j: nat, n: nat)
    requires j < |rows| && n <= |rows|
    ensures Namer(rows, j, n) == 0 <==> forall k :: 0 <= k < n && Names(rows, k, j) ==> rows[k].id == 0
  {
    if n > 0 {
      NamerNone(rows, j, n - 1);
    }
  }

  lemma {:induction false} AgreesMeaning(rows: seq<PortRow>, i: nat, j: nat)
    requires DistinctIds(rows) && i < |rows| && j < |rows| && Names(rows, i, j)
    ensures Agrees(rows, i, j) <==> Fits(rows, i, j)
  {
    NamerNone(rows, j, i);
    if Namer(rows, j, i) != 0 {
      var k := NamerNames(rows, j, i);
      assert rows[k].id != rows[i].id;
    }
  }

  /** Exactly which files `pairPortLinks` accepts. */
  lemma {:induction false} PairableMeaning(rows: seq<PortRow>)
    requires DistinctIds(rows)
    ensures Pairable(rows, |rows|) <==>
              forall i, j :: 0 <= i < |rows| && 0 <= j < |rows| && Names(rows, i, j) ==> Fits(rows, i, j)
  {
    forall i, j | 0 <= i < |rows| && 0 <= j < |rows| && Names(rows, i, j)
      ensures Agrees(rows, i, j) <==> Fits(rows, i, j)
    {
      AgreesMeaning(rows, i, j);
    }
  }

  /** The part of it that is not about links. */
  predicate PortOwned(v: Port) {
    v.ownerType in {"host", "hardware"} && v.ownerId > 0 && v.nic >= 0 && (v.nic != 0 ==> v.ownerType == "host")
  }

  /** What validation asks of a port row (its name and MAC aside). */
  predicate PortValid(r: PortRow) {
    PortOwned(r.val) && r.val.peer >= 0 && (r.id != 0 ==> r.val.peer != r.id)
  }

  predicate PortsValid(rows: seq<PortRow>) {
    forall i :: 0 <= i < |rows| ==> PortValid(rows[i])
  }

  /** An attributed port belongs to a host. */
  predicate NICOfHost(p: Port) {
    p.nic != 0 ==> p.ownerType == "host"
  }

  ghost predicate NICsOfHosts(rows: seq<PortRow>) {
    forall i :: 0 <= i < |rows| ==> NICOfHost(rows[i].val)
  }

  /** No port with id 0 is cabled to a port of the file. */
  ghost predicate NoLinkFromZero(rows: seq<PortRow>) {
    forall i :: 0 <= i < |rows| && rows[i].id == 0 ==> !Linked(rows, i)
  }

  /** The row that row i of the paired file names, if any, names it back. */
  ghost predicate RowAnswered(rows: seq<PortRow>, i: nat)
    requires i < |rows|
  {
    PeerAt(rows, i, |rows|) != 0 ==> exists j :: 0 <= j < |rows| && Answers(rows, i, j)
  }

  predicate Answers(rows: seq<PortRow>, i: nat, j: nat)
    requires i < |rows| && j < |rows|
  {
    j != i && rows[j].id == PeerAt(rows, i, |rows|) && PeerAt(rows, j, |rows|) == rows[i].id
  }

  /** A later namer of a row that an earlier one completed is refused: the completion is unique. */
  lemma {:induction false} NamerUnique(rows: seq<PortRow>, k: nat, j: nat, n: nat)
    requires DistinctIds(rows) && k < n <= |rows| && j < |rows|
    requires Pairable(rows, |rows|) && Names(rows, k, j) && rows[k].id != 0 && !Linked(rows, j)
    ensures Namer(rows, j, n) == rows[k].id
  {
    if k < n - 1 {
      NamerUnique(rows, k, j, n - 1);
      if Names(rows, n - 1, j) {
        assert Agrees(rows, n - 1, j);
        assert rows[n - 1].id != rows[k].id;
      }
    }
  }

  /**
    The far end of a link of the file names the near end after pairing; with port 0 at
    the near end, if nothing else names it.
   */
  lemma {:induction false} LinkedAnswered(rows: seq<PortRow>, i: nat)
    requires DistinctIds(rows) && PortsValid(rows) && Pairable(rows, |rows|) && i < |rows| && Linked(rows, i)
    requires rows[i].id == 0 ==> Namer(rows, Find(rows, rows[i].val.peer), |rows|) == 0
    ensures RowAnswered(rows, i)
  {
    var j := Find(rows, rows[i].val.peer);
    assert Names(rows, i, j) && PortValid(rows[i]);
    assert Agrees(rows, i, j);
    if Linked(rows, j) {
      assert PeerAt(rows, j, |rows|) == rows[j].val.peer;
    } else if rows[i].id != 0 {
      NamerUnique(rows, i, j, |rows|);
    }
    assert Answers(rows, i, j);
  }

  /** A completed row is answered by the row it was completed with, and is not port 0. */
  lemma {:induction false} CompletedAnswered(rows: seq<PortRow>, i: nat)
    requires DistinctIds(rows) && PortsValid(rows) && Pairable(rows, |rows|)
    requires i < |rows| && !Linked(rows, i) && Namer(rows, i, |rows|) != 0
    ensures RowAnswered(rows, i) && rows[i].id != 0
  {
    var k := NamerNames(rows, i, |rows|);
    assert Linked(rows, k);
    assert rows[k].val.peer == rows[i].id;
    assert PeerAt(rows, k, |rows|) == rows[i].id;
    assert PortValid(rows[k]);
    assert Answers(rows, i, k);
  }

  /** After pairing, links are answered exactly when no two rows name one peer, as the unique index asks. */
  lemma {:induction false} PairedAnsweredExactly(rows: seq<PortRow>)
    requires DistinctIds(rows) && PortsValid(rows) && Pairable(rows, |rows|)
    ensures AllAnswered(TableOf(PairedRows(rows, |rows|))) <==> UniquePeers(TableOf(PairedRows(rows, |rows|)))
  {
    var t := TableOf(PairedRows(rows, |rows|));
    if UniquePeers(t) {
      forall i | 0 <= i < |rows| && rows[i].id == 0 && Linked(rows, i)
        ensures Namer(rows, Find(rows, rows[i].val.peer), |rows|) == 0
      {
        OnlyZeroNames(rows, i);
      }
      RowsAnswered(rows);
    } else if AllAnswered(t) {
      AnsweredIsUnique(t);
    }
  }

  /** With unique peers, no other row names what port 0 names. */
  lemma {:induction false} OnlyZeroNames(rows: seq<PortRow>, i: nat)
    requires DistinctIds(rows) && UniquePeers(TableOf(PairedRows(rows, |rows|)))
    requires i < |rows| && rows[i].id == 0 && Linked(rows, i)
    ensures Namer(rows, Find(rows, rows[i].val.peer), |rows|) == 0
  {
    var out := PairedRows(rows, |rows|);
    var j := Find(rows, rows[i].val.peer);
    if Namer(rows, j, |rows|) != 0 {
      var k := NamerNames(rows, j, |rows|);
      TableHolds(out, i);
      TableHolds(out, k);
    }
  }

  lemma {:induction false} RowsAnswered(rows: seq<PortRow>)
    requires DistinctIds(rows) && PortsValid(rows) && Pairable(rows, |rows|)
    requires forall i :: 0 <= i < |rows| && rows[i].id == 0 && Linked(rows, i) ==>
      Namer(rows, Find(rows, rows[i].val.peer), |rows|) == 0
    ensures AllAnswered(TableOf(PairedRows(rows, |rows|)))
  {
    forall i | 0 <= i < |rows| ensures RowAnswered(rows, i) {
      if Linked(rows, i) {
        LinkedAnswered(rows, i);
      } else if Namer(rows, i, |rows|) != 0 {
        CompletedAnswered(rows, i);
      }
    }
    RowsToTable(rows);
  }

  lemma {:induction false} RowsToTable(rows: seq<PortRow>)
    requires DistinctIds(rows) && forall i :: 0 <= i < |rows| ==> RowAnswered(rows, i)
    ensures AllAnswered(TableOf(PairedRows(rows, |rows|)))
  {
    var out := PairedRows(rows, |rows|);
    var t := TableOf(out);
    forall id | id in t ensures Answered(t, id) {
      var i := TableRow(out, id);
      TableHolds(out, i);
      assert RowAnswered(rows, i);
      if t[id].peer != 0 {
        var j :| 0 <= j < |rows| && Answers(rows, i, j);
        TableHolds(out, j);
      }
    }
  }

  /**
    After pairing the links are a symmetric matching exactly when no port with id 0
    is cabled to a port of the file: 0 stands for no peer, so nothing can name that
    port back.
   */
  lemma {:induction false} PairedMatchesExactly(rows: seq<PortRow>)
    requires DistinctIds(rows) && PortsValid(rows) && Pairable(rows, |rows|)
    ensures Matching(TableOf(PairedRows(rows, |rows|))) <==> NoLinkFromZero(rows)
  {
    MatchingMeaning(TableOf(PairedRows(rows, |rows|)));
    if NoLinkFromZero(rows) {
      RowsAnswered(rows);
    }
    ZeroCabledExactly(rows);
  }

  lemma {:induction false} ZeroPeer(rows: seq<PortRow>, i: nat)
    requires DistinctIds(rows) && PortsValid(rows) && Pairable(rows, |rows|) && i < |rows| && rows[i].id == 0
    ensures PeerAt(rows, i, |rows|) != 0 <==> Linked(rows, i)
  {
    if !Linked(rows, i) && Namer(rows, i, |rows|) != 0 {
      CompletedAnswered(rows, i);
    }
  }

  lemma {:induction false} ZeroCabledExactly(rows: seq<PortRow>)
    requires DistinctIds(rows) && PortsValid(rows) && Pairable(rows, |rows|)
    ensures var t := TableOf(PairedRows(rows, |rows|)); (0 in t ==> t[0].peer == 0) <==> NoLinkFromZero(rows)
  {
    var out := PairedRows(rows, |rows|);
    var t := TableOf(out);
    if 0 in t && t[0].peer != 0 {
      var i := TableRow(out, 0);
      ZeroPeer(rows, i);
    } else {
      forall i | 0 <= i < |rows| && rows[i].id == 0 ensures !Linked(rows, i) {
        TableHolds(out, i);
        ZeroPeer(rows, i);
      }
    }
  }

  /** Every link whose target is in the file survives; a row gains a link only from a row that names it. */
  lemma {:induction false} LinksSurvive(rows: seq<PortRow>, i: nat)
    requires i < |rows|
    ensures Linked(rows, i) ==> PairedRows(rows, |rows|)[i] == rows[i]
    ensures var p := PairedRows(rows, |rows|)[i].val.peer;
            p != rows[i].val.peer && p != 0 ==> exists k :: 0 <= k < |rows| && Names(rows, k, i) && rows[k].id == p
    ensures PairedRows(rows, |rows|)[i].val.(peer := 0) == rows[i].val.(peer := 0)
  {
    if !Linked(rows, i) && Namer(rows, i, |rows|) != 0 {
      var k := NamerNames(rows, i, |rows|);
    }
  }

  /** Rows of a table whose links are answered are accepted and come back unchanged, with nothing cleared. */
  lemma {:induction false} AnsweredIsPaired(rows: seq<PortRow>)
    requires DistinctIds(rows) && AllAnswered(TableOf(rows))
    ensures Pairable(rows, |rows|) && PairedRows(rows, |rows|) == rows && DanglingCount(rows, |rows|) == 0
  {
    forall i | 0 <= i < |rows| ensures rows[i].val.peer != 0 ==> Linked(rows, i) {
      if rows[i].val.peer != 0 {
        AnsweredRow(rows, i);
      }
    }
    forall j, n: nat | 0 <= j < |rows| && n <= |rows| && rows[j].val.peer == 0 ensures Namer(rows, j, n) == 0 {
      NobodyCompletes(rows, j, n);
    }
    forall i, j | 0 <= i < |rows| && 0 <= j < |rows| && Names(rows, i, j) ensures Agrees(rows, i, j) {
      AnsweredRow(rows, i);
    }
    DanglingNoneExactly(rows, |rows|);
  }

  /** A row without a peer is named by port 0 at most. */
  lemma {:induction false} NobodyCompletes(rows: seq<PortRow>, j: nat, n: nat)
    requires DistinctIds(rows) && AllAnswered(TableOf(rows)) && j < |rows| && n <= |rows| && rows[j].val.peer == 0
    ensures Namer(rows, j, n) == 0
  {
    if Namer(rows, j, n) != 0 {
      var k := NamerNames(rows, j, n);
      AnsweredRow(rows, k);
    }
  }

  lemma {:induction false} AnsweredRow(rows: seq<PortRow>, i: nat)
    requires DistinctIds(rows) && AllAnswered(TableOf(rows)) && i < |rows| && rows[i].val.peer != 0
    ensures Linked(rows, i)
    ensures rows[Find(rows, rows[i].val.peer)].val.peer == rows[i].id
  {
    var t := TableOf(rows);
    TableHolds(rows, i);
    assert Answered(t, rows[i].id);
    var j := TableRow(rows, rows[i].val.peer);
    TableHolds(rows, j);
  }

  /** So are the rows of a matching, none of which cables port 0. */
  lemma {:induction false} MatchingIsPaired(rows: seq<PortRow>)
    requires DistinctIds(rows) && Matching(TableOf(rows))
    ensures Pairable(rows, |rows|) && PairedRows(rows, |rows|) == rows && DanglingCount(rows, |rows|) == 0
    ensures NoLinkFromZero(rows)
  {
    MatchingMeaning(TableOf(rows));
    AnsweredIsPaired(rows);
    forall i | 0 <= i < |rows| && rows[i].id == 0 ensures !Linked(rows, i) {
      TableHolds(rows, i);
    }
  }

  lemma {:induction false} DanglingNoneExactly(rows: seq<PortRow>, n: nat)
    requires n <= |rows|
    ensures DanglingCount(rows, n) == 0 <==> forall i :: 0 <= i < n ==> !Dangling(rows, i)
  {
    if n > 0 {
      DanglingNoneExactly(rows, n - 1);
    }
  }

  /** One cable between two rows, given at one end. */
  lemma {:induction false} OneCable(a: PortRow, b: PortRow)
    requires a.id != b.id && a.val.peer == b.id && b.id != 0 && b.val.peer == 0
    ensures DistinctIds([a, b]) && Pairable([a, b], 2) && Linked([a, b], 0)
    ensures a.id != 0 ==> PairedRows([a, b], 2) == [a, Row(b.id, b.val.(peer := a.id))]
  {
    var rows := [a, b];
    FindTwo(a, b, b.id);
    assert Names(rows, 0, 1) && !Linked(rows, 1) && !Dangling(rows, 1);
    assert Namer(rows, 1, 0) == 0;
    assert Namer(rows, 1, 1) == a.id && Namer(rows, 1, 2) == a.id;
  }

  /** Port 0 cabled to a free port: the file is accepted, and the other end does not name port 0. */
  lemma {:induction false} ZeroCabled(a: PortRow, b: PortRow)
    requires PortValid(a) && PortValid(b) && a.id == 0 && a.val.peer == b.id && b.id != 0 && b.val.peer == 0
    ensures Pairable([a, b], 2) && !Matching(TableOf(PairedRows([a, b], 2)))
  {
    OneCable(a, b);
    PairedMatchesExactly([a, b]);
  }

  /**
    The order of the rows matters: port 1 names port 2, which names a port the
    file does not have.  Listed first, port 1 is refused; listed second, the cable is made.
   */
  lemma {:induction false} OrderMatters(a: PortRow, b: PortRow)
    requires a.id == 1 && a.val.peer == 2 && b.id == 2 && b.val.peer == 9
    ensures !Pairable([a, b], 2)
    ensures Pairable([b, a], 2) && PairedRows([b, a], 2) == [Row(2, b.val.(peer := 1)), a]
  {
    var ab, ba := [a, b], [b, a];
    FindTwo(a, b, 2);
    FindTwo(a, b, 9);
    FindTwo(b, a, 2);
    FindTwo(b, a, 9);
    assert Find(ab, 2) == 1 && Find(ab, 9) == -1;
    assert Names(ab, 0, 1) && Dangling(ab, 1) && !Agrees(ab, 0, 1);
    assert Find(ba, 2) == 0 && Find(ba, 9) == -1;
    assert Dangling(ba, 0) && Linked(ba, 1) && Names(ba, 1, 0);
    assert Namer(ba, 0, 0) == 0 && Namer(ba, 0, 1) == 0 && Namer(ba, 0, 2) == 1;
  }

  lemma {:induction false} FindTwo(a: PortRow, b: PortRow, id: int)
    ensures Find([a, b], id) == if b.id == id then 1 else if a.id == id then 0 else -1
  {
    assert Last([a, b], id, 1) == if a.id == id then 0 else Last([a, b], id, 0);
  }

  // ---- checkPortNICs ----

  /** The host of the NIC an id means in the file. */
  function HostOf(nics: seq<NICRow>, id: int): Option<int> {
    var j := Find(nics, id);
    if j >= 0 then Some(nics[j].val.hostId) else None
  }

  /** The port is attributed to a NIC of the file on another host. */
  predicate WrongHost(nics: seq<NICRow>, p: Port) {
    p.nic != 0 && HostOf(nics, p.nic).Some? && HostOf(nics, p.nic).value != p.ownerId
  }

  predicate MissingNIC(nics: seq<NICRow>, p: Port) {
    p.nic != 0 && HostOf(nics, p.nic).None?
  }

  function Unattributed(nics: seq<NICRow>, r: PortRow): PortRow {
    if MissingNIC(nics, r.val) then Row(r.id, r.val.(nic := 0)) else r
  }

  function CheckedRows(rows: seq<PortRow>, nics: seq<NICRow>): seq<PortRow> {
    if rows == [] then [] else CheckedRows(rows[..|rows| - 1], nics) + [Unattributed(nics, rows[|rows| - 1])]
  }

  function MissingCount(rows: seq<PortRow>, nics: seq<NICRow>): nat {
    if rows == [] then 0
    else MissingCount(rows[..|rows| - 1], nics) + (if MissingNIC(nics, rows[|rows| - 1].val) then 1 else 0)
  }

  /** The port is attributed to a NIC, and no row of the file is that NIC. */
  ghost predicate AttributedAbsent(p: Port, nics: seq<NICRow>) {
    p.nic != 0 && forall k :: 0 <= k < |nics| ==> nics[k].id != p.nic
  }

  lemma {:induction false} MissingExactly(p: Port, nics: seq<NICRow>)
    ensures MissingNIC(nics, p) <==> AttributedAbsent(p, nics)
  {
  }

  /** The attributions that are cleared and counted are those to an absent NIC. */
  lemma {:induction false} MissingCountMeaning(rows: seq<PortRow>, nics: seq<NICRow>)
    ensures MissingCount(rows, nics) == |set i | 0 <= i < |rows| && AttributedAbsent(rows[i].val, nics)|
  {
    if rows != [] {
      var n := |rows| - 1;
      var front := set i | 0 <= i < n && AttributedAbsent(rows[..n][i].val, nics);
      MissingCountMeaning(rows[..n], nics);
      MissingExactly(rows[n].val, nics);
      assert (set i | 0 <= i < |rows| && AttributedAbsent(rows[i].val, nics)) ==
        if AttributedAbsent(rows[n].val, nics) then front + {n} else front;
    }
  }

  ghost predicate HostsAgree(rows: seq<PortRow>, nics: seq<NICRow>) {
    forall i :: 0 <= i < |rows| ==> !WrongHost(nics, rows[i].val)
  }

  method IndexHosts(nics: seq<NICRow>) returns (hostOf: map<int, int>)
    ensures forall id :: id in hostOf <==> HostOf(nics, id).Some?
    ensures forall id :: id in hostOf ==> hostOf[id] == HostOf(nics, id).value
  {
    hostOf := map[];
    for i := 0 to |nics|
      invariant forall id :: id in hostOf <==> Last(nics, id, i) >= 0
      invariant forall id :: id in hostOf ==> hostOf[id] == nics[Last(nics, id, i)].val.hostId
    {
      hostOf := hostOf[nics[i].id := nics[i].val.hostId];
    }
  }

  /** `checkPortNICs`: rewrites the rows in place; fails exactly when a port names another host's NIC. */
  method CheckPortNICs(rows: array<PortRow>, nics: seq<NICRow>) returns (ok: bool, cleared: nat)
    modifies rows
    ensures ok <==> HostsAgree(old(rows[..]), nics)
    ensures ok ==> rows[..] == CheckedRows(old(rows[..]), nics) && cleared == MissingCount(old(rows[..]), nics)
  {
    var hostOf := IndexHosts(nics);
    ghost var was := rows[..];
    cleared := 0;
    for i := 0 to rows.Length
      invariant rows[..i] == CheckedRows(was[..i], nics) && rows[i..] == was[i..]
      invariant cleared == MissingCount(was[..i], nics)
      invariant HostsAgree(was[..i], nics)
    {
      assert was[..i + 1][..i] == was[..i];
      var p := rows[i];
      assert p == was[i] by { assert rows[i..][0] == was[i..][0]; }
      ghost var before := rows[..i];
      if p.val.nic != 0 {
        if p.val.nic !in hostOf {
          rows[i] := Row(p.id, p.val.(nic := 0));
          cleared := cleared + 1;
        } else if hostOf[p.val.nic] != p.val.ownerId {
          return false, cleared;
        }
      }
      assert rows[..i] == before;
      assert rows[..i + 1] == rows[..i] + [rows[i]];
      assert rows[i + 1..] == was[i + 1..];
    }
    assert was[..rows.Length] == was && rows[..rows.Length] == rows[..];
    return true, cleared;
  }

  /** A row loses its attribution exactly when the NIC is absent, and nothing else. */
  lemma {:induction false} CheckedKeeps(rows: seq<PortRow>, nics: seq<NICRow>, i: nat)
    requires i < |rows|
    ensures |CheckedRows(rows, nics)| == |rows|
    ensures var (now, was) := (CheckedRows(rows, nics)[i], rows[i]);
      && now.id == was.id && now.val.(nic := was.val.nic) == was.val
      && now.val.nic == if AttributedAbsent(was.val, nics) then 0 else was.val.nic
  {
    CheckedRow(rows, nics, i);
    MissingExactly(rows[i].val, nics);
  }

  lemma {:induction false} CheckedRow(rows: seq<PortRow>, nics: seq<NICRow>, i: nat)
    requires i < |rows|
    ensures |CheckedRows(rows, nics)| == |rows| && CheckedRows(rows, nics)[i] == Unattributed(nics, rows[i])
  {
    var n := |rows| - 1;
    if i < n {
      CheckedRow(rows[..n], nics, i);
    } else if n > 0 {
      CheckedRow(rows[..n], nics, 0);
    }
  }

  /** Every attribution left names a NIC of the file on the host that owns the port, and no link changes. */
  lemma {:induction false} CheckedIsAttributed(rows: seq<PortRow>, nics: seq<NICRow>)
    requires DistinctIds(rows) && DistinctIds(nics) && NICsOfHosts(rows) && HostsAgree(rows, nics)
    ensures Attributed(TableOf(CheckedRows(rows, nics)), TableOf(nics))
    ensures DistinctIds(CheckedRows(rows, nics))
    ensures Matching(TableOf(CheckedRows(rows, nics))) <==> Matching(TableOf(rows))
    ensures AllAnswered(TableOf(CheckedRows(rows, nics))) <==> AllAnswered(TableOf(rows))
    ensures UniquePeers(TableOf(CheckedRows(rows, nics))) <==> UniquePeers(TableOf(rows))
  {
    var out := CheckedRows(rows, nics);
    RowByRow(rows, nics);
    forall i, k | 0 <= i < k < |out| ensures out[i].id != out[k].id {
      assert out[i] == Unattributed(nics, rows[i]) && out[k] == Unattributed(nics, rows[k]);
    }
    AttributedRows(rows, nics, out);
    CheckedPeers(rows, nics, out);
    SamePeers(TableOf(rows), TableOf(out));
  }

  lemma {:induction false} SamePeers(a: PortTable, b: PortTable)
    requires a.Keys == b.Keys && forall k :: k in a ==> a[k].peer == b[k].peer
    ensures Matching(a) <==> Matching(b)
    ensures AllAnswered(a) <==> AllAnswered(b)
    ensures UniquePeers(a) <==> UniquePeers(b)
  {
    forall k | k in a ensures LinkOk(a, k) <==> LinkOk(b, k) {
    }
    forall k | k in a ensures Answered(a, k) <==> Answered(b, k) {
    }
  }

  lemma {:induction false} RowByRow(rows: seq<PortRow>, nics: seq<NICRow>)
    ensures |CheckedRows(rows, nics)| == |rows|
    ensures forall i :: 0 <= i < |rows| ==> CheckedRows(rows, nics)[i] == Unattributed(nics, rows[i])
  {
    if rows != [] {
      CheckedRow(rows, nics, 0);
    }
    forall i | 0 <= i < |rows| ensures CheckedRows(rows, nics)[i] == Unattributed(nics, rows[i]) {
      CheckedRow(rows, nics, i);
    }
  }

  lemma {:induction false} CheckedPeers(rows: seq<PortRow>, nics: seq<NICRow>, out: seq<PortRow>)
    requires |out| == |rows| && forall i :: 0 <= i < |rows| ==> out[i] == Unattributed(nics, rows[i])
    requires DistinctIds(rows) && DistinctIds(out)
    ensures TableOf(rows).Keys == TableOf(out).Keys
    ensures forall k :: k in TableOf(rows) ==> TableOf(rows)[k].peer == TableOf(out)[k].peer
  {
    forall i | 0 <= i < |rows| ensures out[i].id == rows[i].id && out[i].val.peer == rows[i].val.peer {
      assert out[i] == Unattributed(nics, rows[i]);
    }
    SameIds(rows, out);
    forall k | k in TableOf(rows) ensures TableOf(rows)[k].peer == TableOf(out)[k].peer {
      SamePeer(rows, out, k);
    }
  }

  lemma {:induction false} SameIds(rows: seq<PortRow>, out: seq<PortRow>)
    requires |out| == |rows| && forall i :: 0 <= i < |rows| ==> out[i].id == rows[i].id
    ensures Ids(rows) == Ids(out)
  {
  }

  lemma {:induction false} SamePeer(rows: seq<PortRow>, out: seq<PortRow>, k: int)
    requires |out| == |rows| && DistinctIds(rows) && DistinctIds(out) && k in TableOf(rows)
    requires forall i :: 0 <= i < |rows| ==> out[i].id == rows[i].id && out[i].val.peer == rows[i].val.peer
    ensures k in TableOf(out) && TableOf(rows)[k].peer == TableOf(out)[k].peer
  {
    var i := TableRow(rows, k);
    TableHolds(out, i);
  }

  lemma {:induction false} AttributedRows(rows: seq<PortRow>, nics: seq<NICRow>, out: seq<PortRow>)
    requires |out| == |rows| && forall i :: 0 <= i < |rows| ==> out[i] == Unattributed(nics, rows[i])
    requires DistinctIds(rows) && DistinctIds(nics) && NICsOfHosts(rows) && HostsAgree(rows, nics)
    ensures Attributed(TableOf(out), TableOf(nics))
  {
    var t := TableOf(out);
    forall id | id in t ensures NICFits(TableOf(nics), t[id]) {
      var i := TableRow(out, id);
      assert NICOfHost(rows[i].val) && !WrongHost(nics, rows[i].val);
      if t[id].nic != 0 {
        var j := Find(nics, t[id].nic);
        TableHolds(nics, j);
      }
    }
  }

  /** Rows of tables that fit are accepted and come back unchanged, with nothing cleared. */
  lemma {:induction false} AttributedIsChecked(rows: seq<PortRow>, nics: seq<NICRow>)
    requires DistinctIds(rows) && DistinctIds(nics) && Attributed(TableOf(rows), TableOf(nics))
    ensures HostsAgree(rows, nics) && CheckedRows(rows, nics) == rows && MissingCount(rows, nics) == 0
  {
    forall i | 0 <= i < |rows| ensures !WrongHost(nics, rows[i].val) && !MissingNIC(nics, rows[i].val) {
      TableHolds(rows, i);
      assert NICFits(TableOf(nics), rows[i].val);
      if rows[i].val.nic != 0 {
        var j := TableRow(nics, rows[i].val.nic);
        TableHolds(nics, j);
      }
    }
    NoneMissing(rows, nics);
  }

  lemma {:induction false} NoneMissing(rows: seq<PortRow>, nics: seq<NICRow>)
    requires forall i :: 0 <= i < |rows| ==> !MissingNIC(nics, rows[i].val)
    ensures CheckedRows(rows, nics) == rows && MissingCount(rows, nics) == 0
  {
    if rows != [] {
      NoneMissing(rows[..|rows| - 1], nics);
    }
  }

  lemma {:induction false} MissingNoneExactly(rows: seq<PortRow>, nics: seq<NICRow>)
    ensures MissingCount(rows, nics) == 0 <==> forall i :: 0 <= i < |rows| ==> !MissingNIC(nics, rows[i].val)
  {
    if rows != [] {
      var n := |rows| - 1;
      MissingNoneExactly(rows[..n], nics);
      assert forall i :: 0 <= i < n ==> rows[..n][i] == rows[i];
    }
  }
}
