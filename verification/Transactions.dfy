/** Writing transactions that may overlap: each finds the rows it will retire when it starts, and takes effect when it
    commits. What is current afterwards depends on who committed in between. */
module Transactions {
  import opened Opstore
  import opened Seqs
  import opened Writer

  /** An open transaction: its batch, the rows its UPDATE found, how many transactions had committed before it
      started, and its turn among those that have started. */
  datatype Transaction = Transaction(ctos: seq<Cto>, found: set<nat>, since: nat, turn: nat)

  /** The contents of one buffer: not empty, of one overlay without an end of validity, or of no overlay. */
  predicate Proper(ctos: seq<Cto>) {
    && ctos != []
    && forall c | c in ctos ::
         && Supersedes(c) == Supersedes(ctos[0])
         && (Supersedes(c) ==>
               c.filename == ctos[0].filename && c.kmzSource == ctos[0].kmzSource && c.validTo.None?)
  }

  predicate SameOverlay(a: seq<Cto>, b: seq<Cto>) {
    && a != [] && b != [] && Supersedes(a[0]) && Supersedes(b[0])
    && a[0].filename == b[0].filename && a[0].kmzSource == b[0].kmzSource
  }

  /** The current rows of a batch's overlay. */
  function CurrentFor(rows: Table, ctos: seq<Cto>): set<nat>
    requires ctos != [] && Supersedes(ctos[0])
  {
    Current(rows, ctos[0].filename.value, ctos[0].kmzSource.value)
  }

  predicate Distinct(history: seq<seq<Cto>>) {
    forall a, b | 0 <= a < b < |history| :: Uids(history[a]) !! Uids(history[b])
  }

  /** No batch of this overlay has committed since the transaction started. */
  predicate Alone(history: seq<seq<Cto>>, t: Transaction) {
    forall a | 0 <= t.since <= a < |history| :: !SameOverlay(history[a], t.ctos)
  }

  // --- What is kept ---

  ghost predicate Stored(db: Db, history: seq<seq<Cto>>) {
    forall uid :: uid in db.rows <==> exists a :: 0 <= a < |history| && uid in Uids(history[a])
  }

  predicate FoundBefore(history: seq<seq<Cto>>, uid: nat, since: nat) {
    exists a :: 0 <= a < |history| && a < since && uid in Uids(history[a])
  }

  /** What an open transaction has found are rows of its overlay, stored before it started; they are all the current
      ones as long as it stays alone. */
  ghost predicate TxOk(db: Db, history: seq<seq<Cto>>, t: Transaction) {
    && Proper(t.ctos) && t.since <= |history|
    && (forall uid | uid in t.found :: FoundBefore(history, uid, t.since))
    && (Supersedes(t.ctos[0]) ==>
          && RowsOf(db.rows, t.found, t.ctos[0].filename.value, t.ctos[0].kmzSource.value)
          && (Alone(history, t) ==> CurrentFor(db.rows, t.ctos) <= t.found))
    && (!Supersedes(t.ctos[0]) ==> t.found == {})
  }

  /** The last batch of an overlay to commit is current. */
  ghost predicate LastIsCurrent(db: Db, history: seq<seq<Cto>>) {
    forall a | 0 <= a < |history| && IsLast(history, a) :: Uids(history[a]) <= CurrentFor(db.rows, history[a])
  }

  predicate IsLast(history: seq<seq<Cto>>, a: nat)
    requires a < |history|
  {
    && history[a] != [] && Supersedes(history[a][0])
    && forall b | a < b < |history| :: !SameOverlay(history[b], history[a])
  }

  // --- Starting and committing ---

  lemma {:induction false} StartOk(db: Db, history: seq<seq<Cto>>, ctos: seq<Cto>, turn: nat)
    requires Proper(ctos) && Stored(db, history)
    ensures TxOk(db, history, Transaction(ctos, Snapshot(db.rows, ctos), |history|, turn))
  {
    hide Uids;
    var found := Snapshot(db.rows, ctos);
    forall uid | uid in found
      ensures FoundBefore(history, uid, |history|)
    {
      assert uid in db.rows;
      var a :| 0 <= a < |history| && uid in Uids(history[a]);
    }
  }

  lemma {:induction false} ProperIsOverlay(ctos: seq<Cto>)
    requires Proper(ctos)
    ensures Supersedes(ctos[0]) ==> OverlayBatch(ctos, ctos[0].filename.value, ctos[0].kmzSource.value)
  {
    assert ctos[0] in ctos;
  }

  /** Another overlay, or none: its batch leaves this one alone. */
  lemma {:induction false} CommitOther(db: Db, history: seq<seq<Cto>>, t: Transaction, filename: string, source: string)
    requires TxOk(db, history, t) && filename != "" && source != ""
    requires !(Supersedes(t.ctos[0]) && t.ctos[0].filename == Some(filename) && t.ctos[0].kmzSource == Some(source))
    ensures var db' := CommitBatch(db, t.ctos, t.found);
            && Current(db'.rows, filename, source) == Current(db.rows, filename, source)
            && Retired(db'.rows, filename, source) == Retired(db.rows, filename, source)
  {
    hide Current, Retired, CommitBatch, Uids;
    forall c | c in t.ctos
      ensures !Belongs(c, filename, source)
    {
      assert Belongs(c, filename, source) ==> Supersedes(c);
    }
    CommitElsewhere(db, t.ctos, t.found, filename, source);
  }

  lemma {:induction false} CommitKeepsStored(db: Db, history: seq<seq<Cto>>, t: Transaction)
    requires Stored(db, history)
    ensures Stored(CommitBatch(db, t.ctos, t.found), history + [t.ctos])
  {
    hide CommitBatch, Uids;
    CommitGrows(db, t.ctos, t.found);
    var history' := history + [t.ctos];
    assert history'[|history|] == t.ctos;
    forall uid
      ensures uid in db.rows.Keys + Uids(t.ctos) <==> exists a :: 0 <= a < |history'| && uid in Uids(history'[a])
    {
      if uid in db.rows {
        var a :| 0 <= a < |history| && uid in Uids(history[a]);
        assert history'[a] == history[a];
      }
      if a :| 0 <= a < |history'| && uid in Uids(history'[a]) {
        if a < |history| {
          assert uid in Uids(history[a]);
        }
      }
    }
  }

  lemma {:induction false} CommitKeepsTx(db: Db, history: seq<seq<Cto>>, t: Transaction, u: Transaction)
    requires TxOk(db, history, t) && TxOk(db, history, u)
    ensures TxOk(CommitBatch(db, t.ctos, t.found), history + [t.ctos], u)
  {
    hide CommitBatch, Uids, Current;
    var db', history' := CommitBatch(db, t.ctos, t.found), history + [t.ctos];
    CommitGrows(db, t.ctos, t.found);
    forall uid | uid in u.found
      ensures FoundBefore(history', uid, u.since)
    {
      var a :| 0 <= a < |history| && a < u.since && uid in Uids(history[a]);
      assert history'[a] == history[a];
    }
    if Supersedes(u.ctos[0]) && Alone(history', u) {
      assert history'[|history|] == t.ctos;
      assert forall a | 0 <= a < |history| :: history'[a] == history[a];
      var f, s := u.ctos[0].filename.value, u.ctos[0].kmzSource.value;
      CommitOther(db, history, t, f, s);
    }
  }

  lemma {:induction false} CommitKeepsLast(db: Db, history: seq<seq<Cto>>, t: Transaction)
    requires TxOk(db, history, t) && Stored(db, history) && LastIsCurrent(db, history)
    requires Distinct(history + [t.ctos])
    ensures LastIsCurrent(CommitBatch(db, t.ctos, t.found), history + [t.ctos])
  {
    hide CommitBatch, Uids, Proper, Current, TxOk;
    var db', history' := CommitBatch(db, t.ctos, t.found), history + [t.ctos];
    var n := |history|;
    assert history'[n] == t.ctos;
    TxProper(db, history, t);
    forall a | 0 <= a < |history'| && IsLast(history', a)
      ensures Uids(history'[a]) <= CurrentFor(db'.rows, history'[a])
    {
      if a == n {
        CommittedIsCurrent(db, history, t);
      } else {
        assert history'[a] == history[a] && !SameOverlay(history'[n], history'[a]);
        assert IsLast(history, a) by {
          assert forall b | a < b < n :: history'[b] == history[b];
        }
        CommitOther(db, history, t, history[a][0].filename.value, history[a][0].kmzSource.value);
      }
    }
  }

  lemma {:induction false} TxProper(db: Db, history: seq<seq<Cto>>, t: Transaction)
    requires TxOk(db, history, t)
    ensures Proper(t.ctos) && t.ctos != []
  {
  }

  lemma {:induction false} FreshUids(db: Db, history: seq<seq<Cto>>, ctos: seq<Cto>)
    requires Stored(db, history) && Distinct(history + [ctos])
    ensures Uids(ctos) !! db.rows.Keys
  {
    hide Uids;
    var history' := history + [ctos];
    forall uid | uid in db.rows
      ensures uid !in Uids(ctos)
    {
      var a :| 0 <= a < |history| && uid in Uids(history[a]);
      assert history'[a] == history[a] && history'[|history|] == ctos;
    }
  }

  /** What a transaction of an overlay commits is current, besides what was current and it had not found. */
  lemma {:induction false} CommittedIsCurrent(db: Db, history: seq<seq<Cto>>, t: Transaction)
    requires TxOk(db, history, t) && Stored(db, history) && Distinct(history + [t.ctos])
    requires Proper(t.ctos) && Supersedes(t.ctos[0])
    ensures CurrentFor(CommitBatch(db, t.ctos, t.found).rows, t.ctos) ==
            (CurrentFor(db.rows, t.ctos) - t.found) + Uids(t.ctos)
  {
    hide CommitBatch, Uids, Proper, Current, Distinct, Stored;
    ProperIsOverlay(t.ctos);
    FreshUids(db, history, t.ctos);
    FoundReplaced(db, t.ctos, t.found, t.ctos[0].filename.value, t.ctos[0].kmzSource.value);
    assert Uids(t.ctos) - db.rows.Keys == Uids(t.ctos);
  }

  /** When a batch of an overlay commits, the current rows become exactly the batch if and only if no other batch of
      that overlay has committed since it started. */
  lemma {:induction false} CurrentIsBatchIffAlone(db: Db, history: seq<seq<Cto>>, t: Transaction)
    requires TxOk(db, history, t) && Stored(db, history) && LastIsCurrent(db, history)
    requires Distinct(history + [t.ctos]) && Proper(t.ctos) && Supersedes(t.ctos[0])
    ensures CurrentFor(CommitBatch(db, t.ctos, t.found).rows, t.ctos) == Uids(t.ctos) <==> Alone(history, t)
  {
    hide CommitBatch, Uids, Proper, Current, LastIsCurrent;
    CommittedIsCurrent(db, history, t);
    if !Alone(history, t) {
      var b := LastSince(history, t);
      var uid := OtherCurrent(db, history, t, b);
    }
  }

  /** An object of the batch that came in between: current, not found, and not in the batch that commits now. */
  lemma {:induction false} OtherCurrent(db: Db, history: seq<seq<Cto>>, t: Transaction, b: nat) returns (uid: nat)
    requires TxOk(db, history, t) && LastIsCurrent(db, history) && Distinct(history + [t.ctos])
    requires Proper(t.ctos) && t.since <= b < |history| && SameOverlay(history[b], t.ctos) && IsLast(history, b)
    ensures uid in CurrentFor(db.rows, t.ctos) - t.found && uid !in Uids(t.ctos)
  {
    hide Current, Proper;
    var history' := history + [t.ctos];
    uid := history[b][0].uid;
    assert history[b][0] in history[b];
    assert uid in Uids(history[b]);
    assert history'[b] == history[b] && history'[|history|] == t.ctos;
    NotFoundBefore(history, t.ctos, b, uid, t.since);
  }

  lemma {:induction false} NotFoundBefore(history: seq<seq<Cto>>, next: seq<Cto>, b: nat, uid: nat, since: nat)
    requires Distinct(history + [next]) && since <= b < |history| && uid in Uids(history[b])
    ensures !FoundBefore(history, uid, since)
  {
    hide Uids;
    var history' := history + [next];
    forall a | 0 <= a < since
      ensures uid !in Uids(history[a])
    {
      assert history'[a] == history[a] && history'[b] == history[b];
    }
  }

  /** Each commit records as many rows of an overlay as it retires. */
  lemma {:induction false} CommitCountsRetired(db: Db, history: seq<seq<Cto>>, t: Transaction, filename: string,
      source: string)
    requires TxOk(db, history, t) && filename != "" && source != ""
    ensures var db' := CommitBatch(db, t.ctos, t.found);
            |Retired(db'.rows, filename, source)| - |Retired(db.rows, filename, source)|
            == AuditedFor(db'.audit, filename, source) - AuditedFor(db.audit, filename, source)
  {
    hide AuditedFor, Uids, Insert, RetireFound;
    var c := t.ctos[0];
    var still := StillCurrent(db.rows, t.found);
    var db' := CommitBatch(db, t.ctos, t.found);
    if Supersedes(c) {
      var entry := Audit(c.receivedAt, c.filename.value, c.kmzSource.value, |still|, c.kmzUri);
      AuditedSnoc(db.audit, entry, filename, source);
      if c.filename == Some(filename) && c.kmzSource == Some(source) {
        RetiredByCommit(db, t.ctos, t.found, filename, source);
      } else {
        CommitOther(db, history, t, filename, source);
      }
    } else {
      CommitOther(db, history, t, filename, source);
    }
  }

  lemma {:induction false} RetiredByCommit(db: Db, ctos: seq<Cto>, found: set<nat>, filename: string, source: string)
    requires Proper(ctos) && Supersedes(ctos[0]) && Belongs(ctos[0], filename, source)
    requires RowsOf(db.rows, found, filename, source)
    ensures |Retired(CommitBatch(db, ctos, found).rows, filename, source)| ==
            |Retired(db.rows, filename, source)| + |StillCurrent(db.rows, found)|
  {
    hide CommitBatch, Uids;
    ProperIsOverlay(ctos);
    FoundReplaced(db, ctos, found, filename, source);
    var rows' := CommitBatch(db, ctos, found).rows;
    var before, now := Retired(db.rows, filename, source), StillCurrent(db.rows, found);
    assert now == Current(db.rows, filename, source) * found;
    forall uid
      ensures uid in Retired(rows', filename, source) <==> uid in before + now
    {
      if uid in rows' && uid !in db.rows {
        NewRowsCurrent(db, ctos, found, filename, source, uid);
      }
    }
    assert before !! now;
    assert Retired(rows', filename, source) == before + now;
  }

  lemma {:induction false} NewRowsCurrent(db: Db, ctos: seq<Cto>, found: set<nat>, filename: string, source: string,
      uid: nat)
    requires OverlayBatch(ctos, filename, source) && RowsOf(db.rows, found, filename, source)
    requires uid in CommitBatch(db, ctos, found).rows && uid !in db.rows
    ensures CommitBatch(db, ctos, found).rows[uid].validTo.None?
  {
    hide CommitBatch;
    FoundReplaced(db, ctos, found, filename, source);
    assert uid in Uids(ctos) - db.rows.Keys;
    assert uid in Current(CommitBatch(db, ctos, found).rows, filename, source);
  }

  // --- The last to commit ---

  lemma {:induction false} LastSince(history: seq<seq<Cto>>, t: Transaction) returns (b: nat)
    requires !Alone(history, t)
    ensures t.since <= b < |history| && SameOverlay(history[b], t.ctos) && IsLast(history, b)
  {
    var a :| 0 <= t.since <= a < |history| && SameOverlay(history[a], t.ctos);
    b := |history| - 1;
    while !SameOverlay(history[b], t.ctos)
      invariant a <= b < |history|
      invariant forall c | b < c < |history| :: !SameOverlay(history[c], t.ctos)
      decreases b
    {
      b := b - 1;
    }
  }
}
