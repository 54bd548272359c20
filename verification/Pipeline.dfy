/** Both halves of the operational store together: what the table holds when overlays stream through the buffers while
    batches are being written, by transactions that may overlap. */
module Pipeline {
  import opened Seqs
  import opened Opstore
  import opened OpstoreRuns
  import opened Transactions
  import opened Writer

  /** The front half; the database; which batches have been committed and what was in them, in commit order; and the
      open transactions, by batch. */
  datatype System = System(
    front: State,
    db: Db,
    committed: seq<nat>,
    history: seq<seq<Cto>>,
    open: map<nat, Transaction>,
    begun: nat)

  /** A step of the front half, or of a batch's transaction: its UPDATE, its commit, or its failure. The writing
      thread of a batch whose flush was cancelled goes on, while later batches are written. */
  datatype Event = Front(step: Step) | Begin(index: nat) | Commit(index: nat) | Fail(index: nat)

  const START := System(INITIAL, Db(map[], []), [], [], map[], 0)

  predicate BeingWritten(s: System, index: nat) {
    index < |s.front.batches| && (s.front.batches[index].fate.InFlight? || s.front.batches[index].fate.Cancelled?)
  }

  predicate MayBegin(s: System, index: nat) {
    BeingWritten(s, index) && index !in s.committed && index !in s.open
  }

  /** An UPDATE waits for the rows that an earlier transaction has locked. */
  predicate Unlocked(s: System, index: nat)
    requires index in s.open
  {
    forall j | j in s.open && s.open[j].turn < s.open[index].turn :: s.open[j].found !! s.open[index].found
  }

  predicate MayCommit(s: System, index: nat) {
    BeingWritten(s, index) && index in s.open && Unlocked(s, index)
  }

  function Advance(s: System, ev: Event): System {
    match ev
    case Front(step) => if step.EndBatch? then s else s.(front := Next(s.front, step))
    case Begin(index) =>
      if MayBegin(s, index) then
        var ctos := s.front.batches[index].ctos;
        s.(open := s.open[index := Transaction(ctos, Snapshot(s.db.rows, ctos), |s.history|, s.begun)],
           begun := s.begun + 1)
      else s
    case Commit(index) =>
      if MayCommit(s, index) then
        var t := s.open[index];
        System(End(s.front, index, true), CommitBatch(s.db, t.ctos, t.found), s.committed + [index],
               s.history + [t.ctos], s.open - {index}, s.begun)
      else s
    case Fail(index) => s.(front := End(s.front, index, false), open := s.open - {index})
  }

  function Reached(events: seq<Event>): System {
    if events == [] then START else Advance(Reached(events[..|events| - 1]), events[|events| - 1])
  }

  // --- Distinct uids ---

  /** Every message carries its own uid. */
  predicate DistinctUids(arrivals: seq<Arrival>) {
    forall i, j | 0 <= i < j < |arrivals| :: arrivals[i].cto.uid != arrivals[j].cto.uid
  }

  lemma {:induction false} BatchInAll(batches: seq<Batch>, i: nat)
    requires i < |batches|
    ensures multiset(batches[i].ctos) <= InBatches(batches)
    decreases |batches|
  {
    if i < |batches| - 1 {
      BatchInAll(batches[..|batches| - 1], i);
    }
  }

  lemma {:induction false} TwoBatchesInAll(batches: seq<Batch>, i: nat, j: nat)
    requires i < j < |batches|
    ensures multiset(batches[i].ctos) + multiset(batches[j].ctos) <= InBatches(batches)
    decreases |batches|
  {
    var n := |batches| - 1;
    if j < n {
      assert batches[..n][i] == batches[i] && batches[..n][j] == batches[j];
      TwoBatchesInAll(batches[..n], i, j);
    } else {
      assert batches[..n][i] == batches[i];
      BatchInAll(batches[..n], i);
    }
  }

  lemma {:induction false} ArrivedOnce(arrivals: seq<Arrival>, c: Cto)
    requires DistinctUids(arrivals)
    ensures multiset(Ctos(arrivals))[c] <= 1
    decreases |arrivals|
  {
    if arrivals != [] {
      var n := |arrivals| - 1;
      ArrivedOnce(arrivals[..n], c);
      var cs := Ctos(arrivals[..n]);
      assert multiset(Ctos(arrivals)) == multiset(cs) + multiset{arrivals[n].cto};
      assert forall i | 0 <= i < n :: cs[i] == arrivals[i].cto && arrivals[i].cto.uid != arrivals[n].cto.uid;
      assert arrivals[n].cto !in cs;
    }
  }

  lemma {:induction false} TwoBatchesArrived(s: State, i: nat, j: nat)
    requires Inv(s) && i < |s.batches| && j < |s.batches| && i != j
    ensures multiset(s.batches[i].ctos) + multiset(s.batches[j].ctos) <= multiset(Ctos(s.arrivals))
  {
    if i < j {
      TwoBatchesInAll(s.batches, i, j);
    } else {
      TwoBatchesInAll(s.batches, j, i);
    }
  }

  lemma {:induction false} BatchesDisjoint(s: State, i: nat, j: nat)
    requires Inv(s) && DistinctUids(s.arrivals) && i < |s.batches| && j < |s.batches| && i != j
    ensures Uids(s.batches[i].ctos) !! Uids(s.batches[j].ctos)
  {
    hide Inv, DistinctUids, Ctos;
    TwoBatchesArrived(s, i, j);
    forall c, d | c in s.batches[i].ctos && d in s.batches[j].ctos
      ensures c.uid != d.uid
    {
      DifferentArrivals(s.arrivals, multiset(s.batches[i].ctos), multiset(s.batches[j].ctos), c, d);
    }
  }

  lemma {:induction false} DifferentArrivals(arrivals: seq<Arrival>, bi: multiset<Cto>, bj: multiset<Cto>, c: Cto,
      d: Cto)
    requires DistinctUids(arrivals) && bi + bj <= multiset(Ctos(arrivals)) && c in bi && d in bj
    ensures c.uid != d.uid
  {
    hide Ctos;
    var all := Ctos(arrivals);
    assert c in multiset(all) && d in multiset(all);
    ArrivedOnce(arrivals, c);
    assert bi[c] + bj[c] <= multiset(all)[c] <= 1;
    assert c != d;
    var k :| 0 <= k < |all| && all[k] == c;
    var l :| 0 <= l < |all| && all[l] == d;
    assert k < l || l < k;
  }

  // --- What batches contain ---

  /** Valid messages name their delivery channel properly, and overlay objects arrive without an end of validity. */
  predicate WellDelivered(arrivals: seq<Arrival>) {
    forall a | a in arrivals :: ChannelName(a.cto.kmzSource) && (Truthy(a.cto.filename) ==> a.cto.validTo.None?)
  }

  lemma {:induction false} ArrivedChecked(s: State, i: nat, c: Cto)
    requires Inv(s) && WellDelivered(s.arrivals) && i < |s.batches| && c in s.batches[i].ctos
    ensures ChannelName(c.kmzSource) && (Truthy(c.filename) ==> c.validTo.None?)
  {
    BatchInAll(s.batches, i);
    var all := Ctos(s.arrivals);
    assert c in multiset(s.batches[i].ctos);
    assert c in multiset(all);
    var k :| 0 <= k < |all| && all[k] == c;
    assert s.arrivals[k] in s.arrivals;
  }

  lemma {:induction false} BatchIsProper(s: State, i: nat)
    requires Inv(s) && WellDelivered(s.arrivals) && i < |s.batches|
    ensures Proper(s.batches[i].ctos)
  {
    hide KeyOf;
    var ctos := s.batches[i].ctos;
    assert Homogeneous(s.batches[i]);
    assert ctos[0] in ctos;
    forall c | c in ctos
      ensures Supersedes(c) == Supersedes(ctos[0])
      ensures Supersedes(c) ==>
                c.filename == ctos[0].filename && c.kmzSource == ctos[0].kmzSource && c.validTo.None?
    {
      ArrivedChecked(s, i, c);
      ArrivedChecked(s, i, ctos[0]);
      KeyDeterminesOrigin(c, ctos[0]);
    }
  }

  /** Steps append batches and change fates, never a batch's contents. */
  lemma {:induction false} BatchesStay(s: State, step: Step, k: nat)
    requires k < |s.batches|
    ensures k < |Next(s, step).batches| && Next(s, step).batches[k].ctos == s.batches[k].ctos
  {
  }

  lemma {:induction false} EndKeeps(s: State, index: nat, ok: bool)
    requires Inv(s)
    ensures var s' := End(s, index, ok);
            && Inv(s') && s'.arrivals == s.arrivals && |s'.batches| == |s.batches|
            && forall k | 0 <= k < |s.batches| :: s'.batches[k].ctos == s.batches[k].ctos
  {
    hide Inv;
    if index < |s.batches| && s.batches[index].fate.InFlight? {
      EndKeepsInv(s, index, if ok then Written else Failed);
    }
  }

  // --- What every run keeps ---

  ghost predicate Recorded(s: System) {
    && |s.committed| == |s.history|
    && (forall a | 0 <= a < |s.committed| ::
          s.committed[a] < |s.front.batches| && s.history[a] == s.front.batches[s.committed[a]].ctos)
    && (forall a, b | 0 <= a < b < |s.committed| :: s.committed[a] != s.committed[b])
    && (forall i | i in s.open ::
          i < |s.front.batches| && s.open[i].ctos == s.front.batches[i].ctos && i !in s.committed)
  }

  ghost predicate Consistent(s: System) {
    && Stored(s.db, s.history)
    && (forall i | i in s.open :: TxOk(s.db, s.history, s.open[i]))
    && (DistinctUids(s.front.arrivals) ==> LastIsCurrent(s.db, s.history))
  }

  ghost predicate Kept(s: System) {
    Inv(s.front) && Recorded(s) && Consistent(s)
  }

  lemma {:induction false} HistoryDistinct(s: System, index: nat)
    requires Inv(s.front) && Recorded(s) && DistinctUids(s.front.arrivals)
    requires index < |s.front.batches| && index !in s.committed
    ensures Distinct(s.history + [s.front.batches[index].ctos])
  {
    hide Inv, DistinctUids, Uids;
    var history' := s.history + [s.front.batches[index].ctos];
    var all := s.committed + [index];
    forall a, b | 0 <= a < b < |history'|
      ensures Uids(history'[a]) !! Uids(history'[b])
    {
      assert history'[a] == s.front.batches[all[a]].ctos && history'[b] == s.front.batches[all[b]].ctos;
      BatchesDisjoint(s.front, all[a], all[b]);
    }
  }

  lemma {:induction false} FrontKeeps(s: System, step: Step)
    requires Kept(s) && !step.EndBatch?
    ensures Kept(Advance(s, Front(step)))
  {
    hide Inv, Next, Stored, TxOk, LastIsCurrent, DistinctUids;
    NextKeepsInv(s.front, step);
    ArrivalsGrow(s.front, step);
    EarlierDistinct(s.front.arrivals, Next(s.front, step).arrivals);
    forall k | 0 <= k < |s.front.batches|
      ensures k < |Next(s.front, step).batches| && Next(s.front, step).batches[k].ctos == s.front.batches[k].ctos
    {
      BatchesStay(s.front, step, k);
    }
  }

  lemma {:induction false} ArrivalsGrow(s: State, step: Step)
    ensures s.arrivals <= Next(s, step).arrivals
  {
  }

  lemma {:induction false} EarlierDistinct(arrivals: seq<Arrival>, more: seq<Arrival>)
    requires arrivals <= more
    ensures DistinctUids(more) ==> DistinctUids(arrivals)
    ensures WellDelivered(more) ==> WellDelivered(arrivals)
  {
    assert forall i | 0 <= i < |arrivals| :: arrivals[i] == more[i];
    assert forall a | a in arrivals :: a in more;
  }

  lemma {:induction false} BeginKeeps(s: System, index: nat)
    requires Kept(s) && WellDelivered(s.front.arrivals) && MayBegin(s, index)
    ensures Kept(Advance(s, Begin(index)))
  {
    hide Inv, Stored, TxOk, LastIsCurrent, DistinctUids, WellDelivered, Snapshot;
    BatchIsProper(s.front, index);
    StartOk(s.db, s.history, s.front.batches[index].ctos, s.begun);
  }

  lemma {:induction false} CommitKeeps(s: System, index: nat)
    requires Kept(s) && MayCommit(s, index)
    ensures Kept(Advance(s, Commit(index)))
  {
    hide Inv, Stored, TxOk, LastIsCurrent, DistinctUids, CommitBatch, End, Distinct;
    var t := s.open[index];
    EndKeeps(s.front, index, true);
    CommitKeepsStored(s.db, s.history, t);
    forall i | i in s.open && i != index
      ensures TxOk(CommitBatch(s.db, t.ctos, t.found), s.history + [t.ctos], s.open[i])
    {
      CommitKeepsTx(s.db, s.history, t, s.open[i]);
    }
    if DistinctUids(s.front.arrivals) {
      HistoryDistinct(s, index);
      CommitKeepsLast(s.db, s.history, t);
    }
  }

  lemma {:induction false} FailKeeps(s: System, index: nat)
    requires Kept(s)
    ensures Kept(Advance(s, Fail(index)))
  {
    hide Inv, Stored, TxOk, LastIsCurrent, DistinctUids, End;
    EndKeeps(s.front, index, false);
  }

  lemma {:induction false} AdvanceKeeps(s: System, ev: Event)
    requires Kept(s) && WellDelivered(s.front.arrivals)
    ensures Kept(Advance(s, ev))
  {
    hide Kept, WellDelivered;
    match ev
    case Front(step) => if !step.EndBatch? { FrontKeeps(s, step); }
    case Begin(index) => if MayBegin(s, index) { BeginKeeps(s, index); }
    case Commit(index) => if MayCommit(s, index) { CommitKeeps(s, index); }
    case Fail(index) => FailKeeps(s, index);
  }

  lemma {:induction false} AdvanceArrivals(s: System, ev: Event)
    ensures s.front.arrivals <= Advance(s, ev).front.arrivals
  {
    hide CommitBatch, Snapshot;
    if ev.Front? {
      ArrivalsGrow(s.front, ev.step);
    }
  }

  lemma {:induction false} ReachedKeeps(events: seq<Event>)
    requires WellDelivered(Reached(events).front.arrivals)
    ensures Kept(Reached(events))
  {
    hide Kept, Advance, WellDelivered;
    if events == [] {
      StartKept();
    } else {
      var before := Reached(events[..|events| - 1]);
      AdvanceArrivals(before, events[|events| - 1]);
      EarlierDistinct(before.front.arrivals, Reached(events).front.arrivals);
      ReachedKeeps(events[..|events| - 1]);
      AdvanceKeeps(before, events[|events| - 1]);
    }
  }

  lemma {:induction false} StartKept()
    ensures Kept(START)
  {
    hide Inv;
    RunKeepsInv([]);
    assert Run([]) == INITIAL;
  }

  // --- The theorem ---

  lemma {:induction false} ReachedSnoc(events: seq<Event>, ev: Event)
    ensures Reached(events + [ev]) == Advance(Reached(events), ev)
  {
    assert (events + [ev])[..|events|] == events;
  }

  /** In every run, with messages arriving between any two steps, flushes in progress, failed and cancelled ones, and
      transactions that overlap: when a batch of an overlay commits, its new objects become current, and of the rows
      that were current those are retired that it had found when it started; every other row is left as it was. With
      distinct uids the current rows of the overlay are then exactly the batch if and only if no other batch of that
      overlay has committed since it started. */
  lemma {:induction false} CommittedOverlayIsCurrent(events: seq<Event>, index: nat)
    requires MayCommit(Reached(events), index)
    requires WellDelivered(Reached(events).front.arrivals)
    ensures var s := Reached(events);
            var s' := Reached(events + [Commit(index)]);
            var t := s.open[index];
            && t.ctos == s.front.batches[index].ctos && t.ctos != []
            && (Supersedes(t.ctos[0]) ==>
                  var before, after := CurrentFor(s.db.rows, t.ctos), CurrentFor(s'.db.rows, t.ctos);
                  && after == (before - t.found) + (Uids(t.ctos) - s.db.rows.Keys)
                  && (Alone(s.history, t) ==> after == Uids(t.ctos) - s.db.rows.Keys)
                  && (DistinctUids(s.front.arrivals) ==> (after == Uids(t.ctos) <==> Alone(s.history, t)))
                  && (forall uid | uid in before * t.found ::
                        uid in s'.db.rows
                        && s'.db.rows[uid] == s.db.rows[uid].(validTo := Some(t.ctos[0].receivedAt)))
                  && (forall uid | uid in s.db.rows && uid !in before * t.found ::
                        uid in s'.db.rows && s'.db.rows[uid] == s.db.rows[uid]))
            && (!Supersedes(t.ctos[0]) ==>
                  forall uid | uid in s.db.rows :: uid in s'.db.rows && s'.db.rows[uid] == s.db.rows[uid])
  {
    hide Inv, Current, CommitBatch, Stored, LastIsCurrent, DistinctUids, WellDelivered, Uids, Distinct, Advance;
    var s := Reached(events);
    ReachedKeeps(events);
    ReachedSnoc(events, Commit(index));
    var t := s.open[index];
    CommitWrites(s, index);
    assert TxOk(s.db, s.history, t);
    if Supersedes(t.ctos[0]) {
      ProperIsOverlay(t.ctos);
      FoundReplaced(s.db, t.ctos, t.found, t.ctos[0].filename.value, t.ctos[0].kmzSource.value);
      if DistinctUids(s.front.arrivals) {
        HistoryDistinct(s, index);
        CurrentIsBatchIffAlone(s.db, s.history, t);
      }
    } else {
      OnlyInserts(s.db, t.ctos);
    }
  }

  lemma {:induction false} CommitWrites(s: System, index: nat)
    requires MayCommit(s, index)
    ensures Advance(s, Commit(index)).db == CommitBatch(s.db, s.open[index].ctos, s.open[index].found)
  {
    hide CommitBatch, End;
  }

  lemma {:induction false} OnlyInserts(db: Db, ctos: seq<Cto>)
    requires ctos != [] && !Supersedes(ctos[0])
    ensures forall uid | uid in db.rows ::
              uid in CommitBatch(db, ctos, {}).rows && CommitBatch(db, ctos, {}).rows[uid] == db.rows[uid]
  {
    hide WriteBatch, CommitBatch;
    CommitAtOnce(db, ctos);
    StreamBatchInserts(db, ctos);
  }

  // --- Rows and audit over runs ---

  lemma {:induction false} AdvanceGrows(s: System, ev: Event)
    ensures Grows(s.db.rows, Advance(s, ev).db.rows)
    ensures s.db.audit <= Advance(s, ev).db.audit
  {
    hide CommitBatch, End, Next, Snapshot;
    if ev.Commit? && MayCommit(s, ev.index) {
      CommitGrows(s.db, s.open[ev.index].ctos, s.open[ev.index].found);
    }
  }

  /** However transactions overlap, rows are never removed and change only once, from current to retired. */
  lemma {:induction false} RunOnlyRetires(events: seq<Event>, i: nat, j: nat)
    requires i <= j <= |events|
    ensures Grows(Reached(events[..i]).db.rows, Reached(events[..j]).db.rows)
    ensures Reached(events[..i]).db.audit <= Reached(events[..j]).db.audit
    decreases j - i
  {
    hide Advance, Reached;
    if i < j {
      RunOnlyRetires(events, i, j - 1);
      assert events[..j] == events[..j - 1] + [events[j - 1]];
      ReachedSnoc(events[..j - 1], events[j - 1]);
      AdvanceGrows(Reached(events[..j - 1]), events[j - 1]);
    }
  }

  /** And the superseded counts recorded for an overlay sum to the number of its retired rows. */
  lemma {:induction false} RunAuditsRetired(events: seq<Event>, filename: string, source: string)
    requires WellDelivered(Reached(events).front.arrivals) && filename != "" && source != ""
    ensures AuditedFor(Reached(events).db.audit, filename, source) ==
            |Retired(Reached(events).db.rows, filename, source)|
  {
    if events == [] {
      NothingAudited(filename, source);
    } else {
      hide Advance, WellDelivered, AuditedFor, Retired, Reached, Kept;
      var before := Reached(events[..|events| - 1]);
      var ev := events[|events| - 1];
      ReachedSnoc(events[..|events| - 1], ev);
      assert events == events[..|events| - 1] + [ev];
      AdvanceArrivals(before, ev);
      EarlierDistinct(before.front.arrivals, Reached(events).front.arrivals);
      RunAuditsRetired(events[..|events| - 1], filename, source);
      ReachedKeeps(events[..|events| - 1]);
      AdvanceAudits(before, ev, filename, source);
    }
  }

  lemma {:induction false} NothingAudited(filename: string, source: string)
    ensures AuditedFor([], filename, source) == |Retired(map[], filename, source)|
  {
    assert Retired(map[], filename, source) == {};
  }

  lemma {:induction false} AdvanceAudits(s: System, ev: Event, filename: string, source: string)
    requires Kept(s) && filename != "" && source != ""
    ensures var db' := Advance(s, ev).db;
            |Retired(db'.rows, filename, source)| - |Retired(s.db.rows, filename, source)|
            == AuditedFor(db'.audit, filename, source) - AuditedFor(s.db.audit, filename, source)
  {
    hide CommitBatch, End, Next, Snapshot, Retired, AuditedFor, Inv, Stored, TxOk;
    if ev.Commit? && MayCommit(s, ev.index) {
      CommitCountsRetired(s.db, s.history, s.open[ev.index], filename, source);
    }
  }

  // --- Two transactions that overlap ---

  /** The first flush of an overlay is cancelled while it is being written, and the next batch starts before it
      commits. */
  function Overlap(c: Cto, d: Cto): seq<Event> {
    [Front(OnMessage(Valid(c), 0.0)), Front(TakeBatch(KeyOf(c))), Begin(0), Front(CancelBatch(0)),
     Front(OnMessage(Valid(d), 1.0)), Front(TakeBatch(KeyOf(d))), Begin(1), Commit(0), Commit(1)]
  }

  /** The system when both have begun. */
  function BothOpen(c: Cto, d: Cto): System {
    System(State(2, 0, 0, map[], map[], [Arrival(c, 0.0), Arrival(d, 1.0)], 0,
                 [Batch(KeyOf(c), [c], Cancelled), Batch(KeyOf(d), [d], InFlight)]),
           Db(map[], []), [], [],
           map[0 := Transaction([c], {}, 0, 0), 1 := Transaction([d], {}, 0, 1)], 2)
  }

  /** A message comes and is taken at once, when nothing is buffered. */
  lemma {:induction false} ReceiveAndTake(s: System, c: Cto, now: real)
    requires s.front.buffer == map[] && s.front.startedAt == map[]
    ensures Advance(Advance(s, Front(OnMessage(Valid(c), now))), Front(TakeBatch(KeyOf(c)))) ==
            s.(front := s.front.(received := s.front.received + 1,
                                 arrivals := s.front.arrivals + [Arrival(c, now)],
                                 batches := s.front.batches + [Batch(KeyOf(c), [c], InFlight)]))
  {
    hide KeyOf;
    var k := KeyOf(c);
    var s' := Advance(s, Front(OnMessage(Valid(c), now)));
    assert [] + [c] == [c];
    assert s'.front.buffer == map[k := [c]] && s'.front.startedAt == map[k := now];
    assert map[k := [c]] - {k} == map[] && map[k := now] - {k} == map[];
  }

  lemma {:induction false} NothingFound(ctos: seq<Cto>)
    ensures Snapshot(map[], ctos) == {}
  {
  }

  lemma {:induction false} ReachBothOpen(c: Cto, d: Cto)
    ensures Reached(Overlap(c, d)[..7]) == BothOpen(c, d)
  {
    hide KeyOf, Reached, Snapshot;
    var all := Overlap(c, d);
    assert all[..1] == [] + [all[0]] && all[..2] == all[..1] + [all[1]] && all[..3] == all[..2] + [all[2]];
    assert all[..4] == all[..3] + [all[3]] && all[..5] == all[..4] + [all[4]];
    assert all[..6] == all[..5] + [all[5]] && all[..7] == all[..6] + [all[6]];
    NothingFound([c]);
    NothingFound([d]);
    assert Reached([]) == START by { ReachedNothing(); }
    ReachedSnoc([], all[0]);
    ReachedSnoc(all[..1], all[1]);
    ReceiveAndTake(START, c, 0.0);
    var s2 := Reached(all[..2]);
    assert s2 == START.(front := State(1, 0, 0, map[], map[], [Arrival(c, 0.0)], 0, [Batch(KeyOf(c), [c], InFlight)]));
    ReachedSnoc(all[..2], all[2]);
    ReachedSnoc(all[..3], all[3]);
    var s4 := Reached(all[..4]);
    assert s4 == System(State(1, 0, 0, map[], map[], [Arrival(c, 0.0)], 0, [Batch(KeyOf(c), [c], Cancelled)]),
                        Db(map[], []), [], [], map[0 := Transaction([c], {}, 0, 0)], 1);
    ReachedSnoc(all[..4], all[4]);
    ReachedSnoc(all[..5], all[5]);
    ReceiveAndTake(s4, d, 1.0);
    ReachedSnoc(all[..6], all[6]);
  }

  lemma {:induction false} ReachedNothing()
    ensures Reached([]) == START
  {
  }

  /** Each UPDATE misses the other's rows, so both batches stay current. */
  lemma {:induction false} OverlapKeepsBoth(c: Cto, d: Cto)
    requires Supersedes(c) && SameOverlay([c], [d]) && c.validTo.None? && d.validTo.None? && c.uid != d.uid
    ensures CurrentFor(Reached(Overlap(c, d)).db.rows, [d]) == {c.uid, d.uid}
  {
    hide KeyOf, Reached, CommitBatch, Current;
    var all := Overlap(c, d);
    var f, src := d.filename.value, d.kmzSource.value;
    ReachBothOpen(c, d);
    var s7 := BothOpen(c, d);
    assert all[..8] == all[..7] + [all[7]] && all == all[..8] + [all[8]];
    ReachedSnoc(all[..7], all[7]);
    ReachedSnoc(all[..8], all[8]);
    var s8 := Reached(all[..8]);
    assert s8.db == CommitBatch(Db(map[], []), [c], {});
    assert s8.open == map[1 := Transaction([d], {}, 0, 1)];
    assert Reached(all).db == CommitBatch(s8.db, [d], {});
    BothCommitted(c, d, f, src);
  }

  lemma {:induction false} BothCommitted(c: Cto, d: Cto, filename: string, source: string)
    requires OverlayBatch([c], filename, source) && OverlayBatch([d], filename, source) && c.uid != d.uid
    ensures var db := CommitBatch(CommitBatch(Db(map[], []), [c], {}), [d], {});
            Current(db.rows, filename, source) == {c.uid, d.uid}
  {
    hide CommitBatch;
    var db := Db(map[], []);
    FoundReplaced(db, [c], {}, filename, source);
    FoundReplaced(CommitBatch(db, [c], {}), [d], {}, filename, source);
    assert Uids([c]) == {c.uid} && Uids([d]) == {d.uid};
    assert Current(map[], filename, source) == {};
  }
}
