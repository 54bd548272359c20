/** What every run of the operational store's buffering keeps, with messages arriving while batches are
    being written. */
module OpstoreRuns {
  import opened Opstore

  // --- Views of the history ---

  /** The valid messages of one key, in arrival order. */
  function ForKey(arrivals: seq<Arrival>, key: string): seq<Arrival> {
    if arrivals == [] then []
    else
      var last := arrivals[|arrivals| - 1];
      ForKey(arrivals[..|arrivals| - 1], key) + if KeyOf(last.cto) == key then [last] else []
  }

  /** The batches taken for one key, joined in the order they were taken. */
  function Taken(batches: seq<Batch>, key: string): seq<Cto> {
    if batches == [] then []
    else
      var last := batches[|batches| - 1];
      Taken(batches[..|batches| - 1], key) + if last.key == key then last.ctos else []
  }

  function Queue(s: State, key: string): seq<Cto> {
    if key in s.buffer then s.buffer[key] else []
  }

  function Ctos(arrivals: seq<Arrival>): (cs: seq<Cto>)
    ensures |cs| == |arrivals|
    ensures forall i | 0 <= i < |cs| :: cs[i] == arrivals[i].cto
  {
    if arrivals == [] then [] else Ctos(arrivals[..|arrivals| - 1]) + [arrivals[|arrivals| - 1].cto]
  }

  /** How many messages are in batches that met the given fate. */
  function SizeOf(batches: seq<Batch>, fate: Fate): nat {
    if batches == [] then 0
    else
      var last := batches[|batches| - 1];
      SizeOf(batches[..|batches| - 1], fate) + if last.fate == fate then |last.ctos| else 0
  }

  function InBatches(batches: seq<Batch>): multiset<Cto> {
    if batches == [] then multiset{}
    else InBatches(batches[..|batches| - 1]) + multiset(batches[|batches| - 1].ctos)
  }

  ghost function InBuffers(buffer: map<string, seq<Cto>>): multiset<Cto>
    decreases |buffer|
  {
    if buffer == map[] then multiset{}
    else
      var key :| key in buffer;
      multiset(buffer[key]) + InBuffers(buffer - {key})
  }

  // --- The invariant ---

  ghost predicate PerKey(s: State, key: string) {
    var mine := ForKey(s.arrivals, key);
    && Taken(s.batches, key) + Queue(s, key) == Ctos(mine)
    && (key in s.buffer <==> key in s.startedAt)
    && (key in s.buffer ==> s.buffer[key] != [])
    && (key in s.buffer && |Taken(s.batches, key)| < |mine| ==> s.startedAt[key] == mine[|Taken(s.batches, key)|].at)
  }

  predicate Homogeneous(b: Batch) {
    b.ctos != [] && forall c | c in b.ctos :: KeyOf(c) == b.key
  }

  ghost predicate Inv(s: State) {
    && (forall key :: PerKey(s, key))
    && (forall b | b in s.batches :: Homogeneous(b))
    && (forall key | key in s.buffer :: forall c | c in s.buffer[key] :: KeyOf(c) == key)
    && s.received == s.invalid + |s.arrivals|
    && s.written == SizeOf(s.batches, Written)
    && s.failed == s.invalid + SizeOf(s.batches, Failed)
    && multiset(Ctos(s.arrivals)) == InBatches(s.batches) + InBuffers(s.buffer)
  }

  // --- Sums over the buffers ---

  /** Any key may be split off. */
  lemma {:induction false} SplitOff(buffer: map<string, seq<Cto>>, key: string)
    requires key in buffer
    ensures InBuffers(buffer) == multiset(buffer[key]) + InBuffers(buffer - {key})
    decreases |buffer|
  {
    var k :| k in buffer && InBuffers(buffer) == multiset(buffer[k]) + InBuffers(buffer - {k});
    if k != key {
      SplitOff(buffer - {k}, key);
      SplitOff(buffer - {key}, k);
      assert buffer - {k} - {key} == buffer - {key} - {k};
    }
  }

  lemma {:induction false} BuffersAfterAppend(buffer: map<string, seq<Cto>>, key: string, c: Cto)
    ensures var queue := if key in buffer then buffer[key] else [];
            InBuffers(buffer[key := queue + [c]]) == InBuffers(buffer) + multiset{c}
  {
    hide InBuffers;
    var queue := if key in buffer then buffer[key] else [];
    var buffer' := buffer[key := queue + [c]];
    SplitOff(buffer', key);
    assert buffer' - {key} == buffer - {key};
    if key in buffer {
      SplitOff(buffer, key);
    } else {
      assert buffer - {key} == buffer;
      assert multiset(queue) == multiset{};
    }
    assert multiset(queue + [c]) == multiset(queue) + multiset{c};
  }

  lemma {:induction false} BuffersAfterTake(buffer: map<string, seq<Cto>>, key: string)
    ensures var queue := if key in buffer then buffer[key] else [];
            InBuffers(buffer) == multiset(queue) + InBuffers(buffer - {key})
  {
    if key in buffer {
      SplitOff(buffer, key);
    } else {
      assert buffer - {key} == buffer;
    }
  }

  // --- Changing the fate of a batch ---

  lemma {:induction false} FateChange(batches: seq<Batch>, i: nat, fate: Fate, f: Fate)
    requires i < |batches| && batches[i].fate.InFlight? && !fate.InFlight?
    ensures var batches' := batches[i := batches[i].(fate := fate)];
            && SizeOf(batches', f) == SizeOf(batches, f) + (if f == fate then |batches[i].ctos| else 0)
                                      - (if f.InFlight? then |batches[i].ctos| else 0)
            && SizeOf(batches, InFlight) >= |batches[i].ctos|
            && InBatches(batches') == InBatches(batches)
    decreases |batches|
  {
    var n := |batches| - 1;
    var batches' := batches[i := batches[i].(fate := fate)];
    if i < n {
      FateChange(batches[..n], i, fate, f);
      assert batches'[..n] == batches[..n][i := batches[i].(fate := fate)];
    } else {
      assert batches'[..n] == batches[..n];
    }
  }

  lemma {:induction false} FateChangeTaken(batches: seq<Batch>, i: nat, fate: Fate, key: string)
    requires i < |batches|
    ensures Taken(batches[i := batches[i].(fate := fate)], key) == Taken(batches, key)
    decreases |batches|
  {
    var n := |batches| - 1;
    var batches' := batches[i := batches[i].(fate := fate)];
    if i < n {
      FateChangeTaken(batches[..n], i, fate, key);
      assert batches'[..n] == batches[..n][i := batches[i].(fate := fate)];
    } else {
      assert batches'[..n] == batches[..n];
    }
  }

  // --- Every step keeps the invariant ---

  lemma {:induction false} ReceiveKeepsInv(s: State, msg: Message, now: real)
    requires Inv(s)
    ensures Inv(Receive(s, msg, now))
  {
    hide PerKey, InBuffers, InBatches, SizeOf, ForKey, Taken, KeyOf, Ctos;
    var s' := Receive(s, msg, now);
    if msg.Valid? {
      var c := msg.cto;
      forall key
        ensures PerKey(s', key)
      {
        ReceivePerKey(s, c, now, key);
      }
      BuffersAfterAppend(s.buffer, KeyOf(c), c);
      CtosSnoc(s.arrivals, Arrival(c, now));
      assert multiset(Ctos(s'.arrivals)) == multiset(Ctos(s.arrivals)) + multiset{c};
    } else {
      forall key
        ensures PerKey(s', key)
      {
        InvalidPerKey(s, key, now);
      }
    }
  }

  lemma {:induction false} InvalidPerKey(s: State, key: string, now: real)
    requires PerKey(s, key)
    ensures PerKey(Receive(s, Invalid, now), key)
  {
  }

  lemma {:induction false} ForKeySnoc(arrivals: seq<Arrival>, a: Arrival, key: string)
    ensures ForKey(arrivals + [a], key) == ForKey(arrivals, key) + if KeyOf(a.cto) == key then [a] else []
  {
    assert (arrivals + [a])[..|arrivals|] == arrivals;
  }

  lemma {:induction false} CtosSnoc(arrivals: seq<Arrival>, a: Arrival)
    ensures Ctos(arrivals + [a]) == Ctos(arrivals) + [a.cto]
  {
    assert (arrivals + [a])[..|arrivals|] == arrivals;
  }

  lemma {:induction false} ReceivePerKey(s: State, c: Cto, now: real, key: string)
    requires PerKey(s, key)
    ensures PerKey(Receive(s, Valid(c), now), key)
  {
    hide Taken, KeyOf, ForKey, Ctos;
    var s' := Receive(s, Valid(c), now);
    var a := Arrival(c, now);
    var mine, taken := ForKey(s.arrivals, key), Taken(s.batches, key);
    ForKeySnoc(s.arrivals, a, key);
    if KeyOf(c) == key {
      CtosSnoc(mine, a);
      assert Queue(s', key) == Queue(s, key) + [c];
      assert taken + Queue(s', key) == (taken + Queue(s, key)) + [c];
      assert |Ctos(mine)| == |mine|;
    } else {
      assert mine + [] == mine;
      assert Queue(s', key) == Queue(s, key);
    }
  }

  lemma {:induction false} TakeKeepsInv(s: State, key: string)
    requires Inv(s)
    ensures Inv(Take(s, key))
  {
    hide PerKey, InBuffers, SizeOf, ForKey, Taken, KeyOf, Ctos;
    var s' := Take(s, key);
    var queue := Queue(s, key);
    BuffersAfterTake(s.buffer, key);
    assert s'.batches[..|s.batches|] == s.batches;
    TakeSizes(s, key);
    forall k
      ensures PerKey(s', k)
    {
      TakePerKey(s, key, k);
    }
    forall b | b in s'.batches
      ensures Homogeneous(b)
    {
      if b !in s.batches {
        assert b == Batch(key, queue, InFlight);
      }
    }
  }

  lemma {:induction false} TakeSizes(s: State, key: string)
    ensures SizeOf(Take(s, key).batches, Written) == SizeOf(s.batches, Written)
    ensures SizeOf(Take(s, key).batches, Failed) == SizeOf(s.batches, Failed)
  {
    assert Take(s, key).batches[..|s.batches|] == s.batches;
  }

  lemma {:induction false} TakePerKey(s: State, key: string, k: string)
    requires PerKey(s, k)
    ensures PerKey(Take(s, key), k)
  {
    hide Ctos, ForKey, Taken;
    var s' := Take(s, key);
    assert Queue(s', k) == if k == key then [] else Queue(s, k);
    if Queue(s, key) != [] {
      TakenSnoc(s.batches, Batch(key, Queue(s, key), InFlight), k);
    }
    assert Taken(s'.batches, k) == Taken(s.batches, k) + if k == key then Queue(s, key) else [];
  }

  lemma {:induction false} TakenSnoc(batches: seq<Batch>, b: Batch, key: string)
    ensures Taken(batches + [b], key) == Taken(batches, key) + if b.key == key then b.ctos else []
  {
    assert (batches + [b])[..|batches|] == batches;
  }

  lemma {:induction false} EndKeepsInv(s: State, index: nat, fate: Fate)
    requires Inv(s) && index < |s.batches| && s.batches[index].fate.InFlight? && !fate.InFlight?
    ensures Inv(match fate
                case Written => End(s, index, true)
                case Failed => End(s, index, false)
                case _ => Cancel(s, index))
  {
    hide PerKey, InBuffers, SizeOf, ForKey, Taken, Ctos, InBatches;
    var batches' := s.batches[index := s.batches[index].(fate := fate)];
    var s' := match fate
              case Written => End(s, index, true)
              case Failed => End(s, index, false)
              case _ => Cancel(s, index);
    assert s'.batches == batches';
    FateChange(s.batches, index, fate, Written);
    FateChange(s.batches, index, fate, Failed);
    forall key
      ensures PerKey(s', key)
    {
      FateChangeTaken(s.batches, index, fate, key);
      SameTakenSamePerKey(s, s', key);
    }
    forall b | b in batches'
      ensures Homogeneous(b)
    {
      assert Homogeneous(s.batches[index]);
      if b !in s.batches {
        assert b == batches'[index];
      }
    }
  }

  lemma {:induction false} SameTakenSamePerKey(s: State, s': State, key: string)
    requires PerKey(s, key) && Taken(s'.batches, key) == Taken(s.batches, key)
    requires s'.arrivals == s.arrivals && s'.buffer == s.buffer && s'.startedAt == s.startedAt
    ensures PerKey(s', key)
  {
  }

  lemma {:induction false} NextKeepsInv(s: State, step: Step)
    requires Inv(s)
    ensures Inv(Next(s, step))
  {
    hide Inv, Receive, Take;
    match step
    case OnMessage(msg, now) => ReceiveKeepsInv(s, msg, now);
    case TakeBatch(key) => TakeKeepsInv(s, key);
    case EndBatch(index, ok) =>
      if index < |s.batches| && s.batches[index].fate.InFlight? {
        EndKeepsInv(s, index, if ok then Written else Failed);
      }
    case CancelBatch(index) =>
      if index < |s.batches| && s.batches[index].fate.InFlight? {
        EndKeepsInv(s, index, Cancelled);
      }
  }

  lemma {:induction false} RunKeepsInv(steps: seq<Step>)
    ensures Inv(Run(steps))
  {
    if steps == [] {
      assert forall key :: PerKey(INITIAL, key);
      assert multiset(Ctos([])) == multiset{};
    } else {
      hide Inv, Next;
      RunKeepsInv(steps[..|steps| - 1]);
      NextKeepsInv(Run(steps[..|steps| - 1]), steps[|steps| - 1]);
    }
  }

  // --- The laws ---

  /** For each key, in every run: the batches in flush order followed by the buffer are exactly the valid
      messages of that key in arrival order; only non-empty queues exist, each with a start time, which is
      the arrival time of its oldest message. */
  lemma {:induction false} NothingLostOrReordered(steps: seq<Step>, key: string)
    ensures var s := Run(steps);
            && Taken(s.batches, key) + Queue(s, key) == Ctos(ForKey(s.arrivals, key))
            && s.startedAt.Keys == s.buffer.Keys
            && (key in s.buffer ==>
                  && s.buffer[key] != []
                  && |Taken(s.batches, key)| < |ForKey(s.arrivals, key)|
                  && s.startedAt[key] == ForKey(s.arrivals, key)[|Taken(s.batches, key)|].at)
  {
    RunKeepsInv(steps);
    var s := Run(steps);
    assert PerKey(s, key);
    forall k
      ensures k in s.startedAt.Keys <==> k in s.buffer.Keys
    {
      assert PerKey(s, k);
    }
  }

  /** The valid messages among the steps, with the times at which they came. */
  function Messages(steps: seq<Step>): seq<Arrival> {
    if steps == [] then []
    else
      var last := steps[|steps| - 1];
      Messages(steps[..|steps| - 1]) +
      if last.OnMessage? && last.msg.Valid? then [Arrival(last.msg.cto, last.now)] else []
  }

  function Refused(steps: seq<Step>): nat {
    if steps == [] then 0
    else
      var last := steps[|steps| - 1];
      Refused(steps[..|steps| - 1]) + if last.OnMessage? && last.msg.Invalid? then 1 else 0
  }

  /** No message goes unnoticed: the arrivals of a run are its valid messages in order, and the others are counted. */
  lemma {:induction false} HistoryIs(steps: seq<Step>)
    ensures var s := Run(steps);
            && s.arrivals == Messages(steps) && s.invalid == Refused(steps)
            && s.received == |Messages(steps)| + Refused(steps)
  {
    if steps != [] {
      hide KeyOf, Take, End, Cancel;
      HistoryIs(steps[..|steps| - 1]);
      OtherStepsKeepHistory(Run(steps[..|steps| - 1]), steps[|steps| - 1]);
    }
  }

  lemma {:induction false} OtherStepsKeepHistory(s: State, step: Step)
    ensures !step.OnMessage? ==>
              var s' := Next(s, step);
              s'.arrivals == s.arrivals && s'.invalid == s.invalid && s'.received == s.received
  {
  }

  /** A batch, once taken, keeps its key and objects, and its fate is settled by the first step that ends it. */
  lemma {:induction false} FateSettledOnce(s: State, step: Step, i: nat)
    requires i < |s.batches|
    ensures var before, after := s.batches[i], Next(s, step).batches;
            && |s.batches| <= |after| && after[i].key == before.key && after[i].ctos == before.ctos
            && after[i].fate ==
               if before.fate != InFlight then before.fate
               else if step == EndBatch(i, true) then Written
               else if step == EndBatch(i, false) then Failed
               else if step == CancelBatch(i) then Cancelled
               else InFlight
  {
    hide KeyOf;
  }

  lemma {:induction false} SizesAddUp(batches: seq<Batch>)
    ensures |InBatches(batches)| == SizeOf(batches, InFlight) + SizeOf(batches, Written)
                                    + SizeOf(batches, Failed) + SizeOf(batches, Cancelled)
  {
    if batches != [] {
      SizesAddUp(batches[..|batches| - 1]);
    }
  }

  /** Every received message is counted once: written, failed, still buffered, in flight, or in a batch whose
      flush was cancelled. */
  lemma {:induction false} EveryMessageAccountedFor(steps: seq<Step>)
    ensures var s := Run(steps);
            && s.received == s.written + s.failed + |InBuffers(s.buffer)|
                             + SizeOf(s.batches, InFlight) + SizeOf(s.batches, Cancelled)
            && s.written == SizeOf(s.batches, Written)
            && s.failed == Refused(steps) + SizeOf(s.batches, Failed)
  {
    HistoryIs(steps);
    RunKeepsInv(steps);
    var s := Run(steps);
    SizesAddUp(s.batches);
    assert |multiset(Ctos(s.arrivals))| == |s.arrivals|;
  }

  /** A flush takes everything that has arrived for the key, and the next message opens a new window. */
  lemma {:induction false} FlushTakesAll(steps: seq<Step>, key: string)
    ensures var s := Run(steps + [TakeBatch(key)]);
            && Taken(s.batches, key) == Ctos(ForKey(s.arrivals, key))
            && key !in s.buffer && key !in s.startedAt
  {
    var all := steps + [TakeBatch(key)];
    assert all[..|steps|] == steps;
    NothingLostOrReordered(all, key);
  }

  /** A key is ready exactly when its oldest buffered message has waited for the whole window. */
  lemma {:induction false} ReadyMeansWindowOver(steps: seq<Step>, now: real, key: string)
    ensures var s := Run(steps);
            var mine := ForKey(s.arrivals, key);
            var taken := |Taken(s.batches, key)|;
            key in ReadyKeys(s, now) <==>
            taken < |mine| && (now - mine[taken].at) * 1000.0 >= 200.0
  {
    NothingLostOrReordered(steps, key);
    var s := Run(steps);
    assert |Ctos(ForKey(s.arrivals, key))| == |ForKey(s.arrivals, key)|;
  }

  // --- Flush loops ---

  lemma {:induction false} RunSnoc(steps: seq<Step>, step: Step)
    ensures Run(steps + [step]) == Next(Run(steps), step)
  {
    assert (steps + [step])[..|steps|] == steps;
  }

  lemma {:induction false} ReceivingIsRun(steps: seq<Step>, messages: seq<(Message, real)>) returns (more: seq<Step>)
    ensures ReceiveAll(Run(steps), messages) == Run(steps + more)
  {
    more := [];
    if messages == [] {
      assert steps + more == steps;
    } else {
      var n := |messages| - 1;
      var front := ReceivingIsRun(steps, messages[..n]);
      var last := OnMessage(messages[n].0, messages[n].1);
      more := front + [last];
      RunSnoc(steps + front, last);
      assert steps + more == steps + front + [last];
    }
  }

  /** A flush loop with messages arriving during its awaits is a run like any other, so every law of runs holds
      after it. */
  lemma {:induction false} FlushPassIsRun(steps: seq<Step>, flushes: seq<Flush>) returns (more: seq<Step>)
    ensures FlushPass(Run(steps), flushes) == Run(steps + more)
  {
    hide Next, Run, Receive, ReceiveAll, Take, End;
    more := [];
    if flushes == [] {
      assert steps + more == steps;
    } else {
      var n := |flushes| - 1;
      var front := FlushPassIsRun(steps, flushes[..n]);
      var last := FlushOneIsRun(steps + front, flushes[n]);
      more := front + last;
      assert steps + more == steps + front + last;
    }
  }

  lemma {:induction false} FlushOneIsRun(steps: seq<Step>, f: Flush) returns (more: seq<Step>)
    ensures FlushOne(Run(steps), f) == Run(steps + more)
  {
    hide Run, Receive, ReceiveAll, Take, End;
    var s := Run(steps);
    var take := TakeBatch(f.key);
    RunSnoc(steps, take);
    more := [take];
    if Take(s, f.key).batches != s.batches {
      var during := ReceivingIsRun(steps + [take], f.meanwhile);
      var end := EndBatch(|s.batches|, f.ok);
      more := [take] + during + [end];
      RunSnoc(steps + [take] + during, end);
      assert steps + more == steps + [take] + during + [end];
    }
  }

  /** The messages of a key that arrive while the i-th flush of a pass is awaited. */
  function ArrivingFor(messages: seq<(Message, real)>, key: string): seq<Cto> {
    if messages == [] then []
    else
      var n := |messages| - 1;
      ArrivingFor(messages[..n], key) +
      match messages[n].0
      case Valid(cto) => if KeyOf(cto) == key then [cto] else []
      case Invalid => []
  }

  lemma {:induction false} ReceiveAllQueue(s: State, messages: seq<(Message, real)>, key: string)
    ensures Queue(ReceiveAll(s, messages), key) == Queue(s, key) + ArrivingFor(messages, key)
  {
    hide KeyOf;
    if messages == [] {
      assert Queue(s, key) + [] == Queue(s, key);
    } else {
      var n := |messages| - 1;
      ReceiveAllQueue(s, messages[..n], key);
    }
  }

  /** Which messages wait for a key after a flush pass: each flush empties its own key's queue, and lets messages of any
      key in while its write is awaited. */
  function Waiting(s: State, flushes: seq<Flush>, key: string): seq<Cto> {
    if flushes == [] then Queue(s, key)
    else
      var n := |flushes| - 1;
      var f := flushes[n];
      (if f.key == key then [] else Waiting(s, flushes[..n], key))
      + if Waiting(s, flushes[..n], f.key) != [] then ArrivingFor(f.meanwhile, key) else []
  }

  lemma {:induction false} FlushPassLeaves(s: State, flushes: seq<Flush>, key: string)
    ensures Queue(FlushPass(s, flushes), key) == Waiting(s, flushes, key)
  {
    if flushes != [] {
      hide Receive, ReceiveAll, End;
      var n := |flushes| - 1;
      var f := flushes[n];
      var before := FlushPass(s, flushes[..n]);
      FlushPassLeaves(s, flushes[..n], key);
      FlushPassLeaves(s, flushes[..n], f.key);
      FlushOneQueue(before, f, key);
    }
  }

  lemma {:induction false} FlushOneQueue(s: State, f: Flush, key: string)
    ensures Queue(FlushOne(s, f), key) ==
            (if f.key == key then [] else Queue(s, key))
            + if Queue(s, f.key) != [] then ArrivingFor(f.meanwhile, key) else []
  {
    hide Receive, ReceiveAll;
    var taken := Take(s, f.key);
    assert Queue(taken, key) == if f.key == key then [] else Queue(s, key);
    if Queue(s, f.key) != [] {
      assert |taken.batches| == |s.batches| + 1;
      ReceiveAllQueue(taken, f.meanwhile, key);
    }
  }

  predicate FlushedFrom(flushes: seq<Flush>, i: nat, key: string) {
    exists j :: i <= j < |flushes| && flushes[j].key == key
  }

  /** A message of the key arrives during the i-th await, and the key is not flushed again. */
  predicate LateAt(s: State, flushes: seq<Flush>, i: nat, key: string)
    requires i < |flushes|
  {
    && Waiting(s, flushes[..i], flushes[i].key) != []
    && ArrivingFor(flushes[i].meanwhile, key) != []
    && !FlushedFrom(flushes, i + 1, key)
  }

  predicate Late(s: State, flushes: seq<Flush>, key: string) {
    exists i :: 0 <= i < |flushes| && LateAt(s, flushes, i, key)
  }

  lemma {:induction false} WaitingIff(s: State, flushes: seq<Flush>, key: string)
    ensures Waiting(s, flushes, key) != [] <==>
            (Queue(s, key) != [] && !FlushedFrom(flushes, 0, key)) || Late(s, flushes, key)
  {
    hide Queue, ArrivingFor;
    if flushes != [] {
      var n := |flushes| - 1;
      var front := flushes[..n];
      WaitingIff(s, front, key);
      FlushedStep(flushes, 0, key);
      LateStep(s, flushes, key);
    }
  }

  lemma {:induction false} FlushedStep(flushes: seq<Flush>, i: nat, key: string)
    requires flushes != []
    ensures var n := |flushes| - 1;
            FlushedFrom(flushes, i, key) <==> FlushedFrom(flushes[..n], i, key) || (i <= n && flushes[n].key == key)
  {
    var n := |flushes| - 1;
    if FlushedFrom(flushes, i, key) {
      var j :| i <= j < |flushes| && flushes[j].key == key;
      assert j < n ==> flushes[..n][j] == flushes[j];
    }
    if FlushedFrom(flushes[..n], i, key) {
      var j :| i <= j < n && flushes[..n][j].key == key;
      assert flushes[j].key == key;
    }
    assert i <= n && flushes[n].key == key ==> FlushedFrom(flushes, i, key);
  }

  lemma {:induction false} LateStep(s: State, flushes: seq<Flush>, key: string)
    requires flushes != []
    ensures var n := |flushes| - 1;
            Late(s, flushes, key) <==>
            (Late(s, flushes[..n], key) && flushes[n].key != key) || LateAt(s, flushes, n, key)
  {
    hide Waiting, ArrivingFor, FlushedFrom;
    var n := |flushes| - 1;
    forall i | 0 <= i < n
      ensures LateAt(s, flushes, i, key) <==> LateAt(s, flushes[..n], i, key) && flushes[n].key != key
    {
      assert flushes[..n][..i] == flushes[..i] && flushes[..n][i] == flushes[i];
      FlushedStep(flushes, i + 1, key);
    }
    if Late(s, flushes, key) {
      var i :| 0 <= i < |flushes| && LateAt(s, flushes, i, key);
      assert i < n ==> LateAt(s, flushes[..n], i, key);
    }
    if Late(s, flushes[..n], key) && flushes[n].key != key {
      var i :| 0 <= i < n && LateAt(s, flushes[..n], i, key);
      assert LateAt(s, flushes, i, key);
    }
  }

  /** After a pass over every key that was buffered, messages of a key still wait exactly if one arrived during an await
      after which the key is not flushed again. */
  lemma {:induction false} FinalFlushLeavesIff(s: State, flushes: seq<Flush>, key: string)
    requires forall k | k in s.buffer :: FlushedFrom(flushes, 0, k)
    ensures Queue(FlushPass(s, flushes), key) != [] <==> Late(s, flushes, key)
  {
    hide FlushPass, Waiting, FlushedFrom, Late;
    FlushPassLeaves(s, flushes, key);
    WaitingIff(s, flushes, key);
  }

  // --- What a shutdown leaves ---

  /** What stays in the buffers, after the final flush and the draining of the subscription: messages of a key exactly
      if one arrives during an await after which the key is not flushed again, or is drained. */
  lemma {:induction false} ShutdownLeavesIff(s: State, flushes: seq<Flush>, drained: seq<(Message, real)>, key: string)
    requires forall k | k in s.buffer :: FlushedFrom(flushes, 0, k)
    ensures Queue(ReceiveAll(FlushPass(s, flushes), drained), key) != [] <==>
            Late(s, flushes, key) || ArrivingFor(drained, key) != []
  {
    hide FlushPass, ReceiveAll, Late, ArrivingFor, Queue;
    FinalFlushLeavesIff(s, flushes, key);
    ReceiveAllQueue(FlushPass(s, flushes), drained, key);
  }

  /** The messages of a key in the batches that were counted as written. */
  function WrittenOf(batches: seq<Batch>, key: string): seq<Cto> {
    if batches == [] then []
    else
      var last := batches[|batches| - 1];
      WrittenOf(batches[..|batches| - 1], key) + if last.key == key && last.fate.Written? then last.ctos else []
  }

  predicate AllWritten(batches: seq<Batch>, key: string) {
    forall b | b in batches && b.key == key :: b.fate.Written?
  }

  lemma {:induction false} WrittenOfIs(batches: seq<Batch>, key: string)
    requires forall b | b in batches :: b.ctos != []
    ensures |WrittenOf(batches, key)| <= |Taken(batches, key)|
    ensures AllWritten(batches, key) ==> WrittenOf(batches, key) == Taken(batches, key)
    ensures !AllWritten(batches, key) ==> |WrittenOf(batches, key)| < |Taken(batches, key)|
  {
    if batches != [] {
      var n := |batches| - 1;
      assert batches == batches[..n] + [batches[n]];
      WrittenOfIs(batches[..n], key);
      assert AllWritten(batches, key) <==>
             AllWritten(batches[..n], key) && (batches[n].key == key ==> batches[n].fate.Written?);
    }
  }

  /** All valid messages of a key are written exactly if none is buffered and all its batches are written. */
  lemma {:induction false} WrittenIff(s: State, key: string)
    requires Inv(s)
    ensures WrittenOf(s.batches, key) == Ctos(ForKey(s.arrivals, key)) <==>
            Queue(s, key) == [] && AllWritten(s.batches, key)
  {
    hide ForKey, InBuffers, InBatches, Taken, WrittenOf, AllWritten;
    assert PerKey(s, key);
    assert forall b | b in s.batches :: Homogeneous(b);
    WrittenOfIs(s.batches, key);
    assert |Taken(s.batches, key) + Queue(s, key)| == |Taken(s.batches, key)| + |Queue(s, key)|;
    assert Taken(s.batches, key) + [] == Taken(s.batches, key);
  }

  /** Every flush of the key that has something to write writes it. */
  predicate FlushesSucceed(s: State, flushes: seq<Flush>, key: string) {
    forall i | 0 <= i < |flushes| :: FlushSucceeds(s, flushes, i, key)
  }

  predicate FlushSucceeds(s: State, flushes: seq<Flush>, i: nat, key: string)
    requires i < |flushes|
  {
    flushes[i].key == key && Waiting(s, flushes[..i], key) != [] ==> flushes[i].ok
  }

  lemma {:induction false} FlushOneBatches(s: State, f: Flush, key: string)
    ensures AllWritten(FlushOne(s, f).batches, key) <==>
            AllWritten(s.batches, key) && (f.key == key && Queue(s, key) != [] ==> f.ok)
  {
    hide Receive, ReceiveAll;
    var taken := Take(s, f.key);
    ReceivingKeepsBatches(taken, f.meanwhile);
    if taken.batches != s.batches {
      var b := Batch(f.key, Queue(s, f.key), InFlight);
      var done := b.(fate := if f.ok then Written else Failed);
      assert taken.batches == s.batches + [b];
      assert FlushOne(s, f).batches == s.batches + [done];
    }
  }

  lemma {:induction false} FlushPassBatches(s: State, flushes: seq<Flush>, key: string)
    ensures AllWritten(FlushPass(s, flushes).batches, key) <==>
            AllWritten(s.batches, key) && FlushesSucceed(s, flushes, key)
  {
    hide AllWritten, FlushOne, Waiting, Queue;
    if flushes != [] {
      var n := |flushes| - 1;
      var before := FlushPass(s, flushes[..n]);
      FlushPassBatches(s, flushes[..n], key);
      FlushOneBatches(before, flushes[n], key);
      FlushPassLeaves(s, flushes[..n], key);
      forall i | 0 <= i < n
        ensures FlushSucceeds(s, flushes[..n], i, key) == FlushSucceeds(s, flushes, i, key)
      {
        assert flushes[..n][..i] == flushes[..i] && flushes[..n][i] == flushes[i];
      }
      assert FlushesSucceed(s, flushes, key) <==>
             FlushesSucceed(s, flushes[..n], key) && FlushSucceeds(s, flushes, n, key);
    }
  }

  /** When a shutdown has counted every valid message of a key as written: exactly if all its earlier batches were, each
      of its final flushes succeeds, no message of the key comes late for them, and none is drained. */
  lemma {:induction false} ShutdownWritesIff(steps: seq<Step>, flushes: seq<Flush>, drained: seq<(Message, real)>,
      key: string)
    requires forall k | k in Run(steps).buffer :: FlushedFrom(flushes, 0, k)
    ensures var s := Run(steps);
            var end := ReceiveAll(FlushPass(s, flushes), drained);
            WrittenOf(end.batches, key) == Ctos(ForKey(end.arrivals, key)) <==>
            && AllWritten(s.batches, key) && FlushesSucceed(s, flushes, key)
            && !Late(s, flushes, key) && ArrivingFor(drained, key) == []
  {
    hide Run, FlushPass, ReceiveAll, Late, ArrivingFor, Queue, Inv, WrittenOf, AllWritten, FlushesSucceed, FlushedFrom,
         ForKey, Ctos;
    var s := Run(steps);
    var flushed := FlushPass(s, flushes);
    var end := ReceiveAll(flushed, drained);
    var during := FlushPassIsRun(steps, flushes);
    var after := ReceivingIsRun(steps + during, drained);
    RunKeepsInv(steps + during + after);
    WrittenIff(end, key);
    ReceivingKeepsBatches(flushed, drained);
    FlushPassBatches(s, flushes, key);
    ShutdownLeavesIff(s, flushes, drained, key);
  }
}
