/** The operational store's back half: a batch retires the current rows of the overlay it replaces, then
    is inserted. */
module Writer {
  import opened Seqs
  import opened Opstore

  type Table = map<nat, Cto>

  datatype Audit = Audit(at: int, filename: string, source: string, count: nat, uri: Option<string>)

  datatype Db = Db(rows: Table, audit: seq<Audit>)

  // --- Specification ---

  predicate Belongs(row: Cto, filename: string, source: string) {
    row.filename == Some(filename) && row.kmzSource == Some(source)
  }

  /** `WHERE parent_kmz_filename = f AND parent_kmz_source = s AND valid_to IS NULL` */
  function Current(rows: Table, filename: string, source: string): set<nat> {
    set uid | uid in rows && Belongs(rows[uid], filename, source) && rows[uid].validTo.None?
  }

  function Retire(rows: Table, filename: string, source: string, at: int): Table {
    map uid | uid in rows ::
      if uid in Current(rows, filename, source) then rows[uid].(validTo := Some(at)) else rows[uid]
  }

  function Supersede(db: Db, filename: string, source: string, at: int, uri: Option<string>): Db {
    var count := |Current(db.rows, filename, source)|;
    Db(Retire(db.rows, filename, source, at),
       if count > 0 then db.audit + [Audit(at, filename, source, count, uri)] else db.audit)
  }

  /** `INSERT ... ON CONFLICT (uid) DO NOTHING`, row by row. */
  function Insert(rows: Table, ctos: seq<Cto>): Table {
    if ctos == [] then rows
    else
      var c := ctos[|ctos| - 1];
      var before := Insert(rows, ctos[..|ctos| - 1]);
      if c.uid in before then before else before[c.uid := c]
  }

  predicate Supersedes(c: Cto) {
    Truthy(c.filename) && Truthy(c.kmzSource)
  }

  function WriteBatch(db: Db, ctos: seq<Cto>): Db {
    if ctos == [] then db
    else
      var sample := ctos[0];
      var db' := if Supersedes(sample)
                 then Supersede(db, sample.filename.value, sample.kmzSource.value, sample.receivedAt, sample.kmzUri)
                 else db;
      Db(Insert(db'.rows, ctos), db'.audit)
  }

  // --- The database connection ---

  class Connection {
    var rows: Table
    var audit: seq<Audit>

    constructor ()
      ensures rows == map[] && audit == []
    {
      rows, audit := map[], [];
    }

    /** supersede_prior */
    method SupersedePrior(filename: string, source: string, at: int, uri: Option<string>) returns (count: nat)
      modifies this
      ensures Db(rows, audit) == Supersede(Db(old(rows), old(audit)), filename, source, at, uri)
      ensures count == |Current(old(rows), filename, source)|
    {
      var matching := set uid | uid in rows && Belongs(rows[uid], filename, source) && rows[uid].validTo.None?;
      assert matching == Current(rows, filename, source);
      rows := map uid | uid in rows :: if uid in matching then rows[uid].(validTo := Some(at)) else rows[uid];
      assert rows == Retire(old(rows), filename, source, at);
      count := |matching|;
      if count > 0 {
        audit := audit + [Audit(at, filename, source, count, uri)];
      }
    }

    /** insert_ctos */
    method InsertCtos(ctos: seq<Cto>) returns (inserted: nat)
      modifies this`rows
      ensures rows == Insert(old(rows), ctos)
      ensures inserted == |rows| - |old(rows)|
    {
      inserted := 0;
      for i := 0 to |ctos|
        invariant rows == Insert(old(rows), ctos[..i])
        invariant inserted == |rows| - |old(rows)|
      {
        assert ctos[..i + 1][..i] == ctos[..i];
        var c := ctos[i];
        if c.uid !in rows {
          assert |rows[c.uid := c]| == |rows| + 1 by { InsertSize(rows, c); }
          rows := rows[c.uid := c];
          inserted := inserted + 1;
        }
      }
      assert ctos[..|ctos|] == ctos;
    }

    /** write_ctos_with_supersession */
    method WriteCtosWithSupersession(ctos: seq<Cto>) returns (inserted: nat, superseded: nat)
      modifies this
      ensures Db(rows, audit) == WriteBatch(Db(old(rows), old(audit)), ctos)
      ensures inserted == |rows| - |old(rows)|
      ensures superseded == if ctos != [] && Supersedes(ctos[0])
                            then |Current(old(rows), ctos[0].filename.value, ctos[0].kmzSource.value)| else 0
    {
      if ctos == [] {
        return 0, 0;
      }
      var sample := ctos[0];
      superseded := 0;
      if Truthy(sample.filename) && Truthy(sample.kmzSource) {
        superseded := SupersedePrior(sample.filename.value, sample.kmzSource.value, sample.receivedAt, sample.kmzUri);
        RetireKeepsUids(old(rows), sample.filename.value, sample.kmzSource.value, sample.receivedAt);
      }
      inserted := InsertCtos(ctos);
    }
  }

  lemma {:induction false} InsertSize(rows: Table, c: Cto)
    requires c.uid !in rows
    ensures |rows[c.uid := c]| == |rows| + 1
  {
    assert rows[c.uid := c].Keys == rows.Keys + {c.uid};
  }

  lemma {:induction false} RetireKeepsUids(rows: Table, filename: string, source: string, at: int)
    ensures Retire(rows, filename, source, at).Keys == rows.Keys
    ensures |Retire(rows, filename, source, at)| == |rows|
  {
    assert |rows.Keys| == |rows|;
    assert |Retire(rows, filename, source, at).Keys| == |Retire(rows, filename, source, at)|;
  }

  lemma {:induction false} RetireIs(rows: Table, filename: string, source: string, at: int)
    ensures var retired := Retire(rows, filename, source, at);
            && Current(retired, filename, source) == {}
            && (forall uid | uid in Current(rows, filename, source) ::
                  uid in retired && retired[uid] == rows[uid].(validTo := Some(at)))
            && (forall uid | uid in rows && uid !in Current(rows, filename, source) ::
                  uid in retired && retired[uid] == rows[uid])
  {
  }

  // --- What one batch does ---

  function Uids(ctos: seq<Cto>): set<nat> {
    set c | c in ctos :: c.uid
  }

  /** Of several objects with one new uid the first is stored. */
  lemma {:induction false} InsertsFirst(rows: Table, ctos: seq<Cto>, i: nat)
    requires i < |ctos| && ctos[i].uid !in rows && forall j | 0 <= j < i :: ctos[j].uid != ctos[i].uid
    ensures ctos[i].uid in Insert(rows, ctos) && Insert(rows, ctos)[ctos[i].uid] == ctos[i]
    decreases |ctos|
  {
    var n := |ctos| - 1;
    if i < n {
      assert ctos[..n][i] == ctos[i];
      InsertsFirst(rows, ctos[..n], i);
    } else {
      InsertIs(rows, ctos[..n]);
      assert forall c | c in ctos[..n] :: exists j :: 0 <= j < n && ctos[j] == c;
    }
  }

  /** Inserting keeps every row there is and adds an object of each new uid. */
  lemma {:induction false} InsertIs(rows: Table, ctos: seq<Cto>)
    ensures Insert(rows, ctos).Keys == rows.Keys + Uids(ctos)
    ensures forall uid | uid in rows :: Insert(rows, ctos)[uid] == rows[uid]
    ensures forall uid | uid in Uids(ctos) - rows.Keys ::
              Insert(rows, ctos)[uid] in ctos && Insert(rows, ctos)[uid].uid == uid
    decreases |ctos|
  {
    if ctos != [] {
      var n := |ctos| - 1;
      var front := ctos[..n];
      InsertIs(rows, front);
      assert ctos == front + [ctos[n]];
      assert Uids(ctos) == Uids(front) + {ctos[n].uid};
    }
  }

  /** All of one overlay from one channel, none of it yet retired. */
  predicate OverlayBatch(ctos: seq<Cto>, filename: string, source: string) {
    && ctos != [] && filename != "" && source != ""
    && forall c | c in ctos :: Belongs(c, filename, source) && c.validTo.None?
  }

  /** After an overlay batch, the current rows of its overlay are exactly its objects that were not in the table
      before, every other current row of that overlay is retired at the batch's time, and rows of other
      overlays, and the stream's, are as they were. */
  lemma {:induction false} OverlayReplaced(db: Db, ctos: seq<Cto>, filename: string, source: string)
    requires OverlayBatch(ctos, filename, source)
    ensures var db' := WriteBatch(db, ctos);
            && Current(db'.rows, filename, source) == Uids(ctos) - db.rows.Keys
            && (forall uid | uid in Current(db.rows, filename, source) ::
                  uid in db'.rows && db'.rows[uid] == db.rows[uid].(validTo := Some(ctos[0].receivedAt)))
            && (forall uid | uid in db.rows && uid !in Current(db.rows, filename, source) ::
                  uid in db'.rows && db'.rows[uid] == db.rows[uid])
            && db'.rows.Keys == db.rows.Keys + Uids(ctos)
  {
    hide Insert, Retire, Current, Uids;
    assert ctos[0] in ctos;
    var at := ctos[0].receivedAt;
    var retired := Retire(db.rows, filename, source, at);
    RetireKeepsUids(db.rows, filename, source, at);
    RetireIs(db.rows, filename, source, at);
    assert WriteBatch(db, ctos).rows == Insert(retired, ctos);
    assert forall uid | uid in Current(db.rows, filename, source) :: uid in retired;
    InsertIs(retired, ctos);
    CurrentAfterInsert(retired, ctos, filename, source);
  }

  predicate FromOverlay(ctos: seq<Cto>, filename: string, source: string) {
    && ctos != [] && source != ""
    && forall c | c in ctos :: ComesFrom(c, Overlay(filename, Some(source))) && c.validTo == None
  }

  lemma {:induction false} CurrentIs(rows: Table, filename: string, source: string)
    requires filename != ""
    ensures Current(rows, filename, source) ==
            set uid | uid in rows && rows[uid].validTo == None && ComesFrom(rows[uid], Overlay(filename, Some(source)))
  {
  }

  lemma {:induction false} IsOverlayBatch(ctos: seq<Cto>, filename: string, source: string)
    requires FromOverlay(ctos, filename, source)
    ensures OverlayBatch(ctos, filename, source) && filename != "" && ctos[0] in ctos
    ensures Uids(ctos) == set c | c in ctos :: c.uid
  {
    assert ctos[0] in ctos;
  }

  /** An overlay's batch told on the rows: every row that was there stays, and gets an end exactly if it is of the same
      overlay and had none; and the objects with new uids are added. */
  lemma {:induction false} OverlayWritten(db: Db, ctos: seq<Cto>, filename: string, source: string)
    requires FromOverlay(ctos, filename, source)
    ensures var db' := WriteBatch(db, ctos);
            && db'.rows.Keys == db.rows.Keys + (set c | c in ctos :: c.uid)
            && (forall uid | uid in db.rows :: db'.rows[uid] ==
                  if ComesFrom(db.rows[uid], Overlay(filename, Some(source))) && db.rows[uid].validTo == None
                  then db.rows[uid].(validTo := Some(ctos[0].receivedAt)) else db.rows[uid])
            && (forall uid | uid in db'.rows && uid !in db.rows :: db'.rows[uid] in ctos && db'.rows[uid].uid == uid)
  {
    hide Insert, Retire, Uids, Current, ComesFrom, OverlayBatch, FromOverlay, Belongs;
    IsOverlayBatch(ctos, filename, source);
    CurrentIs(db.rows, filename, source);
    OverlayReplaced(db, ctos, filename, source);
    AddedFromBatch(db, ctos);
  }

  lemma {:induction false} AddedFromBatch(db: Db, ctos: seq<Cto>)
    ensures var rows' := WriteBatch(db, ctos).rows;
            forall uid | uid in rows' && uid !in db.rows :: rows'[uid] in ctos && rows'[uid].uid == uid
  {
    hide Insert, Retire;
    if ctos != [] && Supersedes(ctos[0]) {
      var c := ctos[0];
      RetireKeepsUids(db.rows, c.filename.value, c.kmzSource.value, c.receivedAt);
      InsertIs(Retire(db.rows, c.filename.value, c.kmzSource.value, c.receivedAt), ctos);
    } else {
      InsertIs(db.rows, ctos);
    }
  }

  /** And the log gets one entry with the number of rows it ended, if there are any. */
  lemma {:induction false} OverlayLogged(db: Db, ctos: seq<Cto>, filename: string, source: string)
    requires FromOverlay(ctos, filename, source)
    ensures var n := |set uid | uid in db.rows && db.rows[uid].validTo == None
                                && ComesFrom(db.rows[uid], Overlay(filename, Some(source)))|;
            WriteBatch(db, ctos).audit == db.audit +
            if n == 0 then [] else [Audit(ctos[0].receivedAt, filename, source, n, ctos[0].kmzUri)]
  {
    hide Insert, Retire, Current;
    IsOverlayBatch(ctos, filename, source);
    CurrentIs(db.rows, filename, source);
    assert ctos[0] in ctos;
  }

  lemma {:induction false} CurrentAfterInsert(rows: Table, ctos: seq<Cto>, filename: string, source: string)
    requires OverlayBatch(ctos, filename, source) && Current(rows, filename, source) == {}
    ensures Current(Insert(rows, ctos), filename, source) == Uids(ctos) - rows.Keys
  {
    hide Insert;
    InsertIs(rows, ctos);
    var rows' := Insert(rows, ctos);
    forall uid
      ensures uid in Current(rows', filename, source) <==> uid in Uids(ctos) - rows.Keys
    {
      assert uid in rows ==> uid !in Current(rows, filename, source);
      assert uid in Uids(ctos) - rows.Keys ==> rows'[uid] in ctos;
    }
  }

  /** The current rows of the overlay are the batch, exactly if none of its uids had been stored before: a
      redelivered object is retired by its own batch and not inserted again. */
  lemma {:induction false} CurrentIsBatchIffFresh(db: Db, ctos: seq<Cto>, filename: string, source: string)
    requires OverlayBatch(ctos, filename, source)
    ensures Current(WriteBatch(db, ctos).rows, filename, source) == Uids(ctos) <==> Uids(ctos) !! db.rows.Keys
  {
    hide WriteBatch, Current, Uids;
    OverlayReplaced(db, ctos, filename, source);
    var uids := Uids(ctos);
    if uids - db.rows.Keys == uids {
      assert forall uid | uid in uids :: uid in uids - db.rows.Keys;
    }
    if uids !! db.rows.Keys {
      assert uids - db.rows.Keys == uids;
    }
  }

  function WriteAll(db: Db, batches: seq<seq<Cto>>): Db {
    if batches == [] then db else WriteBatch(WriteAll(db, batches[..|batches| - 1]), batches[|batches| - 1])
  }

  function UidsOfAll(batches: seq<seq<Cto>>): set<nat> {
    if batches == [] then {} else UidsOfAll(batches[..|batches| - 1]) + Uids(batches[|batches| - 1])
  }

  /** One ingest of an overlay, flushed in batches: no uid is stored before or comes twice. */
  predicate FreshIngest(db: Db, batches: seq<seq<Cto>>, filename: string, source: string) {
    batches == [] ||
    var before := batches[..|batches| - 1];
    var last := batches[|batches| - 1];
    && FreshIngest(db, before, filename, source)
    && OverlayBatch(last, filename, source) && Uids(last) !! db.rows.Keys + UidsOfAll(before)
  }

  lemma {:induction false} WriteAllUids(db: Db, batches: seq<seq<Cto>>, filename: string, source: string)
    requires FreshIngest(db, batches, filename, source)
    ensures WriteAll(db, batches).rows.Keys == db.rows.Keys + UidsOfAll(batches)
  {
    hide WriteBatch, Current, Uids, OverlayBatch;
    if batches != [] {
      var n := |batches| - 1;
      WriteAllUids(db, batches[..n], filename, source);
      OverlayReplaced(WriteAll(db, batches[..n]), batches[n], filename, source);
    }
  }

  /** An ingest supersedes itself: only its last batch stays current, so the current rows are the whole ingest exactly
      if it was flushed in one batch. */
  lemma {:induction false} IngestSupersedesItself(db: Db, batches: seq<seq<Cto>>, filename: string, source: string)
    requires batches != [] && FreshIngest(db, batches, filename, source)
    ensures var current := Current(WriteAll(db, batches).rows, filename, source);
            && current == Uids(batches[|batches| - 1])
            && (current == UidsOfAll(batches) <==> |batches| == 1)
  {
    hide WriteBatch, Current, Uids, OverlayBatch;
    var n := |batches| - 1;
    var db' := WriteAll(db, batches[..n]);
    WriteAllUids(db, batches[..n], filename, source);
    CurrentIsBatchIffFresh(db', batches[n], filename, source);
    if n > 0 {
      var uid := SomeUid(batches[n - 1], filename, source);
      assert batches[..n][n - 1] == batches[n - 1];
      assert uid in UidsOfAll(batches[..n]);
    }
  }

  lemma {:induction false} SomeUid(ctos: seq<Cto>, filename: string, source: string) returns (uid: nat)
    requires OverlayBatch(ctos, filename, source)
    ensures uid in Uids(ctos)
  {
    uid := ctos[0].uid;
  }

  /** The objects of the earlier batches are stored, and retired. */
  lemma {:induction false} EarlierBatchesRetired(db: Db, batches: seq<seq<Cto>>, filename: string, source: string,
      uid: nat)
    requires batches != [] && FreshIngest(db, batches, filename, source)
    requires uid in UidsOfAll(batches) - Uids(batches[|batches| - 1])
    ensures var rows := WriteAll(db, batches).rows;
            uid in rows && Belongs(rows[uid], filename, source) && rows[uid].validTo.Some?
    decreases |batches|
  {
    hide WriteBatch, Current, Uids, Belongs, OverlayBatch;
    var n := |batches| - 1;
    var front := batches[..n];
    var db' := WriteAll(db, front);
    OverlayReplaced(db', batches[n], filename, source);
    assert front != [];
    IngestSupersedesItself(db, front, filename, source);
    if uid in Uids(front[n - 1]) {
      CurrentBelongs(db'.rows, filename, source, uid);
    } else {
      EarlierBatchesRetired(db, front, filename, source, uid);
      RetiredNotCurrent(db'.rows, filename, source, uid);
    }
  }

  lemma {:induction false} CurrentBelongs(rows: Table, filename: string, source: string, uid: nat)
    requires uid in Current(rows, filename, source)
    ensures uid in rows && Belongs(rows[uid], filename, source)
    ensures forall at :: Belongs(rows[uid].(validTo := Some(at)), filename, source)
  {
  }

  lemma {:induction false} RetiredNotCurrent(rows: Table, filename: string, source: string, uid: nat)
    requires uid in rows && rows[uid].validTo.Some?
    ensures uid !in Current(rows, filename, source)
  {
  }

  /** A batch without an overlay only inserts. */
  lemma {:induction false} StreamBatchInserts(db: Db, ctos: seq<Cto>)
    requires ctos != [] && (ctos[0].filename in [None, Some("")] || ctos[0].kmzSource in [None, Some("")])
    ensures WriteBatch(db, ctos) == Db(Insert(db.rows, ctos), db.audit)
    ensures forall uid | uid in db.rows ::
              uid in WriteBatch(db, ctos).rows && WriteBatch(db, ctos).rows[uid] == db.rows[uid]
  {
    InsertIs(db.rows, ctos);
  }

  // --- A transaction that ends after others have come in between ---

  /** The rows that the UPDATE of a batch finds when it starts. */
  function Snapshot(rows: Table, ctos: seq<Cto>): set<nat> {
    if ctos != [] && Supersedes(ctos[0]) then Current(rows, ctos[0].filename.value, ctos[0].kmzSource.value) else {}
  }

  /** What it still changes of them: a row that another transaction has retired meanwhile is looked at again and left.
      */
  function StillCurrent(rows: Table, found: set<nat>): set<nat> {
    set uid | uid in rows && uid in found && rows[uid].validTo.None?
  }

  function RetireFound(rows: Table, found: set<nat>, at: int): Table {
    map uid | uid in rows :: if uid in StillCurrent(rows, found) then rows[uid].(validTo := Some(at)) else rows[uid]
  }

  /** A batch commits whose UPDATE had found these rows. */
  function CommitBatch(db: Db, ctos: seq<Cto>, found: set<nat>): Db {
    if ctos == [] then db
    else
      var c := ctos[0];
      var count := |StillCurrent(db.rows, found)|;
      Db(Insert(RetireFound(db.rows, found, c.receivedAt), ctos),
         if Supersedes(c) && count > 0
         then db.audit + [Audit(c.receivedAt, c.filename.value, c.kmzSource.value, count, c.kmzUri)] else db.audit)
  }

  /** With nothing in between this is the plain write of the batch. */
  lemma {:induction false} CommitAtOnce(db: Db, ctos: seq<Cto>)
    ensures CommitBatch(db, ctos, Snapshot(db.rows, ctos)) == WriteBatch(db, ctos)
  {
    hide Insert;
    if ctos != [] {
      var c := ctos[0];
      var found := Snapshot(db.rows, ctos);
      assert StillCurrent(db.rows, found) == found;
      if Supersedes(c) {
        assert RetireFound(db.rows, found, c.receivedAt) ==
               Retire(db.rows, c.filename.value, c.kmzSource.value, c.receivedAt);
      } else {
        assert RetireFound(db.rows, found, c.receivedAt) == db.rows;
      }
    }
  }

  predicate RowsOf(rows: Table, uids: set<nat>, filename: string, source: string) {
    forall uid | uid in uids :: uid in rows && Belongs(rows[uid], filename, source)
  }

  lemma {:induction false} RetireFoundIs(rows: Table, found: set<nat>, at: int)
    ensures RetireFound(rows, found, at).Keys == rows.Keys
    ensures forall uid | uid in StillCurrent(rows, found) ::
              RetireFound(rows, found, at)[uid] == rows[uid].(validTo := Some(at))
    ensures forall uid | uid in rows && uid !in StillCurrent(rows, found) ::
              RetireFound(rows, found, at)[uid] == rows[uid]
  {
  }

  /** The overlay's rows after such a commit: what was current and had not been found stays current. */
  lemma {:induction false} FoundReplaced(db: Db, ctos: seq<Cto>, found: set<nat>, filename: string, source: string)
    requires OverlayBatch(ctos, filename, source) && RowsOf(db.rows, found, filename, source)
    ensures var db' := CommitBatch(db, ctos, found);
            var current := Current(db.rows, filename, source);
            && Current(db'.rows, filename, source) == (current - found) + (Uids(ctos) - db.rows.Keys)
            && (forall uid | uid in current * found ::
                  uid in db'.rows && db'.rows[uid] == db.rows[uid].(validTo := Some(ctos[0].receivedAt)))
            && (forall uid | uid in db.rows && uid !in current * found ::
                  uid in db'.rows && db'.rows[uid] == db.rows[uid])
            && db'.rows.Keys == db.rows.Keys + Uids(ctos)
  {
    hide Insert, RetireFound, Uids;
    var at := ctos[0].receivedAt;
    var retired := RetireFound(db.rows, found, at);
    RetireFoundIs(db.rows, found, at);
    InsertIs(retired, ctos);
    var rows' := CommitBatch(db, ctos, found).rows;
    assert rows' == Insert(retired, ctos);
    forall uid
      ensures uid in Current(db.rows, filename, source) * found <==> uid in StillCurrent(db.rows, found)
    {
    }
    forall uid
      ensures uid in Current(rows', filename, source) <==>
              uid in (Current(db.rows, filename, source) - found) + (Uids(ctos) - db.rows.Keys)
    {
      if uid in db.rows {
        assert rows'[uid] == retired[uid];
      } else if uid in Uids(ctos) {
        assert uid in Uids(ctos) - retired.Keys;
        assert rows'[uid] in ctos;
      }
    }
  }

  /** And the log gets one entry with the number of rows that were retired, if there were any. */
  lemma {:induction false} FoundLogged(db: Db, ctos: seq<Cto>, found: set<nat>, filename: string, source: string)
    requires OverlayBatch(ctos, filename, source) && RowsOf(db.rows, found, filename, source)
    ensures var n := |Current(db.rows, filename, source) * found|;
            CommitBatch(db, ctos, found).audit == db.audit +
            if n == 0 then [] else [Audit(ctos[0].receivedAt, filename, source, n, ctos[0].kmzUri)]
  {
    hide Insert, RetireFound, Uids;
    assert ctos[0] in ctos;
    assert StillCurrent(db.rows, found) == Current(db.rows, filename, source) * found;
  }

  /** An overlay that neither the batch nor the rows found belong to. */
  lemma {:induction false} CommitElsewhere(db: Db, ctos: seq<Cto>, found: set<nat>, filename: string, source: string)
    requires forall c | c in ctos :: !Belongs(c, filename, source)
    requires forall uid | uid in found && uid in db.rows :: !Belongs(db.rows[uid], filename, source)
    ensures var db' := CommitBatch(db, ctos, found);
            && Current(db'.rows, filename, source) == Current(db.rows, filename, source)
            && Retired(db'.rows, filename, source) == Retired(db.rows, filename, source)
  {
    hide Insert, RetireFound, Uids;
    if ctos != [] {
      var at := ctos[0].receivedAt;
      var retired := RetireFound(db.rows, found, at);
      RetireFoundIs(db.rows, found, at);
      InsertIs(retired, ctos);
      var rows' := Insert(retired, ctos);
      forall uid | uid in rows'
        ensures Belongs(rows'[uid], filename, source) <==> uid in db.rows && Belongs(db.rows[uid], filename, source)
        ensures uid in db.rows && Belongs(db.rows[uid], filename, source) ==> rows'[uid] == db.rows[uid]
      {
        if uid !in db.rows {
          assert uid in Uids(ctos) - retired.Keys;
          assert rows'[uid] in ctos;
        }
      }
    }
  }

  lemma {:induction false} CommitGrows(db: Db, ctos: seq<Cto>, found: set<nat>)
    ensures Grows(db.rows, CommitBatch(db, ctos, found).rows)
    ensures db.audit <= CommitBatch(db, ctos, found).audit
    ensures CommitBatch(db, ctos, found).rows.Keys == db.rows.Keys + Uids(ctos)
  {
    hide Insert, RetireFound;
    if ctos != [] {
      RetireFoundIs(db.rows, found, ctos[0].receivedAt);
      InsertIs(RetireFound(db.rows, found, ctos[0].receivedAt), ctos);
    }
  }

  // --- Runs ---

  /** The database after a sequence of committed batches; a failed transaction commits nothing. */
  function Committed(batches: seq<seq<Cto>>): Db {
    if batches == [] then Db(map[], [])
    else WriteBatch(Committed(batches[..|batches| - 1]), batches[|batches| - 1])
  }

  /** A later state of the same row: nothing changed, or its unset valid_to was set once. */
  predicate Succeeds(before: Cto, after: Cto) {
    after == before || (before.validTo.None? && after.validTo.Some? && after == before.(validTo := after.validTo))
  }

  ghost predicate Grows(a: Table, b: Table) {
    forall uid | uid in a :: uid in b && Succeeds(a[uid], b[uid])
  }

  lemma {:induction false} WriteGrows(db: Db, ctos: seq<Cto>)
    ensures Grows(db.rows, WriteBatch(db, ctos).rows)
    ensures db.audit <= WriteBatch(db, ctos).audit
  {
    hide Insert;
    if ctos != [] {
      var c := ctos[0];
      InsertIs(db.rows, ctos);
      if Supersedes(c) {
        InsertIs(Retire(db.rows, c.filename.value, c.kmzSource.value, c.receivedAt), ctos);
      }
    }
  }

  /** Over any run, rows are never removed, nothing but valid_to ever changes in a row, and that only once, from
      unset to set; the audit log only grows. */
  lemma {:induction false} RowsOnlyRetire(batches: seq<seq<Cto>>, i: nat, j: nat)
    requires i <= j <= |batches|
    ensures Grows(Committed(batches[..i]).rows, Committed(batches[..j]).rows)
    ensures Committed(batches[..i]).audit <= Committed(batches[..j]).audit
    decreases j - i
  {
    if i < j {
      RowsOnlyRetire(batches, i, j - 1);
      assert batches[..j][..j - 1] == batches[..j - 1];
      hide WriteBatch, Committed;
      WriteGrows(Committed(batches[..j - 1]), batches[j - 1]);
      assert Committed(batches[..j]) == WriteBatch(Committed(batches[..j - 1]), batches[j - 1]) by {
        CommittedSnoc(batches, j);
      }
    }
  }

  lemma {:induction false} CommittedSnoc(batches: seq<seq<Cto>>, j: nat)
    requires 0 < j <= |batches|
    ensures Committed(batches[..j]) == WriteBatch(Committed(batches[..j - 1]), batches[j - 1])
  {
    assert batches[..j][..j - 1] == batches[..j - 1];
  }

  /** The sum of the superseded counts recorded for one overlay. */
  function AuditedFor(audit: seq<Audit>, filename: string, source: string): nat {
    if audit == [] then 0
    else
      var last := audit[|audit| - 1];
      AuditedFor(audit[..|audit| - 1], filename, source)
      + if last.filename == filename && last.source == source then last.count else 0
  }

  function Retired(rows: Table, filename: string, source: string): set<nat> {
    set uid | uid in rows && Belongs(rows[uid], filename, source) && rows[uid].validTo.Some?
  }

  /** Objects of this overlay are delivered without an end of validity, as the KMZ parser builds them. */
  predicate DeliveredCurrent(batches: seq<seq<Cto>>, filename: string, source: string) {
    forall b | b in batches :: forall c | c in b :: Belongs(c, filename, source) ==> c.validTo.None?
  }

  lemma {:induction false} AuditMatchesRetired(batches: seq<seq<Cto>>, filename: string, source: string)
    requires DeliveredCurrent(batches, filename, source)
    ensures AuditedFor(Committed(batches).audit, filename, source) ==
            |Retired(Committed(batches).rows, filename, source)|
    decreases |batches|
  {
    if batches == [] {
      assert Retired(map[], filename, source) == {};
    } else {
      var n := |batches| - 1;
      assert forall b | b in batches[..n] :: b in batches;
      AuditMatchesRetired(batches[..n], filename, source);
      hide WriteBatch, Committed;
      CommittedSnoc(batches, n + 1);
      assert batches[..n + 1] == batches;
      assert batches[n] in batches;
      WriteCountsRetired(Committed(batches[..n]), batches[n], filename, source);
    }
  }

  /** One batch retires as many rows of an overlay as it records. */
  lemma {:induction false} WriteCountsRetired(db: Db, ctos: seq<Cto>, filename: string, source: string)
    requires forall c | c in ctos :: Belongs(c, filename, source) ==> c.validTo.None?
    ensures var db' := WriteBatch(db, ctos);
            |Retired(db'.rows, filename, source)| - |Retired(db.rows, filename, source)|
            == AuditedFor(db'.audit, filename, source) - AuditedFor(db.audit, filename, source)
  {
    hide Insert, Retire, AuditedFor;
    if ctos != [] {
      var c := ctos[0];
      if Supersedes(c) {
        var f, s := c.filename.value, c.kmzSource.value;
        SupersedeCounts(db, f, s, c.receivedAt, c.kmzUri, filename, source);
        InsertRetiresNothing(Retire(db.rows, f, s, c.receivedAt), ctos, filename, source);
      } else {
        InsertRetiresNothing(db.rows, ctos, filename, source);
      }
    }
  }

  lemma {:induction false} InsertRetiresNothing(rows: Table, ctos: seq<Cto>, filename: string, source: string)
    requires forall c | c in ctos :: Belongs(c, filename, source) ==> c.validTo.None?
    ensures Retired(Insert(rows, ctos), filename, source) == Retired(rows, filename, source)
  {
    hide Insert;
    InsertIs(rows, ctos);
    var rows' := Insert(rows, ctos);
    forall uid
      ensures uid in Retired(rows', filename, source) <==> uid in Retired(rows, filename, source)
    {
      if uid in rows' && uid !in rows {
        assert uid in Uids(ctos) - rows.Keys;
      }
    }
  }

  lemma {:induction false} SupersedeCounts(db: Db, f: string, s: string, at: int, uri: Option<string>, filename: string,
      source: string)
    ensures var db' := Supersede(db, f, s, at, uri);
            |Retired(db'.rows, filename, source)| - |Retired(db.rows, filename, source)|
            == AuditedFor(db'.audit, filename, source) - AuditedFor(db.audit, filename, source)
  {
    hide Retired, Retire, Current, AuditedFor;
    RetireCounts(db.rows, f, s, at, filename, source);
    AuditedSnoc(db.audit, Audit(at, f, s, |Current(db.rows, f, s)|, uri), filename, source);
  }

  lemma {:induction false} RetireCounts(rows: Table, f: string, s: string, at: int, filename: string, source: string)
    ensures |Retired(Retire(rows, f, s, at), filename, source)| ==
            |Retired(rows, filename, source)| + if f == filename && s == source then |Current(rows, f, s)| else 0
  {
    var before, now := Retired(rows, filename, source), Current(rows, f, s);
    var after := Retired(Retire(rows, f, s, at), filename, source);
    if f == filename && s == source {
      assert after == before + now && before !! now;
    } else {
      assert after == before;
    }
  }

  lemma {:induction false} AuditedSnoc(audit: seq<Audit>, a: Audit, filename: string, source: string)
    ensures AuditedFor(audit + [a], filename, source) ==
            AuditedFor(audit, filename, source) + if a.filename == filename && a.source == source then a.count else 0
  {
    assert (audit + [a])[..|audit|] == audit;
  }
}
