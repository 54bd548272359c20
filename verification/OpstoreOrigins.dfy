/** The laws of the operational store's buffering, told per overlay file and per live source instead of per key. */
module OpstoreOrigins {
  import opened Opstore
  import opened OpstoreRuns
  import opened Seqs

  /** The objects of one origin, in order. */
  function Of(cs: seq<Cto>, o: Origin): seq<Cto> {
    if cs == [] then []
    else
      var last := cs[|cs| - 1];
      Of(cs[..|cs| - 1], o) + if ComesFrom(last, o) then [last] else []
  }

  function ArrivalsOf(arrivals: seq<Arrival>, o: Origin): seq<Arrival> {
    if arrivals == [] then []
    else
      var last := arrivals[|arrivals| - 1];
      ArrivalsOf(arrivals[..|arrivals| - 1], o) + if ComesFrom(last.cto, o) then [last] else []
  }

  /** All batches joined in the order they were taken. */
  function Joined(batches: seq<Batch>): seq<Cto> {
    if batches == [] then [] else Joined(batches[..|batches| - 1]) + batches[|batches| - 1].ctos
  }

  predicate AllFrom(cs: seq<Cto>, o: Origin) {
    forall c | c in cs :: ComesFrom(c, o)
  }

  predicate NoneFrom(cs: seq<Cto>, o: Origin) {
    forall c | c in cs :: !ComesFrom(c, o)
  }

  lemma {:induction false} OfJoin(cs: seq<Cto>, ds: seq<Cto>, o: Origin)
    ensures Of(cs + ds, o) == Of(cs, o) + Of(ds, o)
  {
    if ds == [] {
      assert cs + ds == cs;
      assert Of(cs, o) + [] == Of(cs, o);
    } else {
      var n := |ds| - 1;
      OfJoin(cs, ds[..n], o);
      assert (cs + ds)[..|cs| + n] == cs + ds[..n];
    }
  }

  lemma {:induction false} OfUniform(cs: seq<Cto>, o: Origin)
    ensures AllFrom(cs, o) ==> Of(cs, o) == cs
    ensures NoneFrom(cs, o) ==> Of(cs, o) == []
  {
    if cs != [] {
      var n := |cs| - 1;
      assert cs == cs[..n] + [cs[n]];
      OfUniform(cs[..n], o);
    }
  }

  /** Batches of other keys hold nothing of the origin. */
  lemma {:induction false} OfTaken(batches: seq<Batch>, key: string, o: Origin)
    requires forall c | ComesFrom(c, o) :: KeyOf(c) == key
    requires forall b | b in batches :: Homogeneous(b)
    ensures Of(Joined(batches), o) == Of(Taken(batches, key), o)
  {
    if batches != [] {
      hide KeyOf, ComesFrom;
      var n := |batches| - 1;
      var b := batches[n];
      OfTaken(batches[..n], key, o);
      OfJoin(Joined(batches[..n]), b.ctos, o);
      OfJoin(Taken(batches[..n], key), if b.key == key then b.ctos else [], o);
      assert Homogeneous(b);
      OfUniform(b.ctos, o);
    }
  }

  lemma {:induction false} OfArrivals(arrivals: seq<Arrival>, key: string, o: Origin)
    requires forall c | ComesFrom(c, o) :: KeyOf(c) == key
    ensures Of(Ctos(ForKey(arrivals, key)), o) == Of(Ctos(arrivals), o) == Ctos(ArrivalsOf(arrivals, o))
  {
    if arrivals != [] {
      hide KeyOf, ComesFrom;
      var n := |arrivals| - 1;
      var last := arrivals[n];
      var front := arrivals[..n];
      OfArrivals(front, key, o);
      OfJoin(Ctos(front), [last.cto], o);
      if KeyOf(last.cto) == key {
        CtosSnoc(ForKey(front, key), last);
        OfJoin(Ctos(ForKey(front, key)), [last.cto], o);
      } else {
        assert ForKey(arrivals, key) == ForKey(front, key);
      }
      if ComesFrom(last.cto, o) {
        CtosSnoc(ArrivalsOf(front, o), last);
      } else {
        assert ArrivalsOf(arrivals, o) == ArrivalsOf(front, o);
      }
    }
  }

  /** Whatever the channels are called, in every run: what a file or source delivered is in the batches in flush order
      and then in one buffer, in arrival order, and in no other buffer. */
  lemma {:induction false} OriginNeverSplit(steps: seq<Step>, o: Origin) returns (key: string)
    ensures var s := Run(steps);
            Of(Joined(s.batches), o) + Of(Queue(s, key), o) == Ctos(ArrivalsOf(s.arrivals, o))
    ensures forall k | k in Run(steps).buffer && k != key :: NoneFrom(Run(steps).buffer[k], o)
  {
    hide KeyOf, ComesFrom;
    key := OneKeyPerOrigin(o);
    RunKeepsInv(steps);
    var s := Run(steps);
    assert PerKey(s, key);
    OfTaken(s.batches, key, o);
    OfArrivals(s.arrivals, key, o);
    OfJoin(Taken(s.batches, key), Queue(s, key), o);
  }

  predicate NamedChannels(arrivals: seq<Arrival>) {
    forall a | a in arrivals :: ChannelName(a.cto.kmzSource)
  }

  /** An origin that objects can have, on a well-named channel. */
  predicate NamedOrigin(o: Origin) {
    o.Overlay? ==> o.filename != "" && ChannelName(o.channel)
  }

  lemma {:induction false} NamedKey(o: Origin) returns (key: string)
    requires NamedOrigin(o)
    ensures forall c | ComesFrom(c, o) :: KeyOf(c) == key
    ensures forall c: Cto | ChannelName(c.kmzSource) && KeyOf(c) == key :: ComesFrom(c, o)
  {
    var d := match o
      case Overlay(filename, channel) => Cto(0, "", Some(filename), channel, None, 0, None, "")
      case Live(sourceSystem) => Cto(0, sourceSystem, None, None, None, 0, None, "");
    key := KeyOf(d);
    forall c: Cto | ChannelName(c.kmzSource) && KeyOf(c) == key
      ensures ComesFrom(c, o)
    {
      KeyDeterminesOrigin(c, d);
    }
  }

  lemma {:induction false} ArrivalsForKey(arrivals: seq<Arrival>, key: string, o: Origin)
    requires forall a | a in arrivals :: KeyOf(a.cto) == key <==> ComesFrom(a.cto, o)
    ensures ForKey(arrivals, key) == ArrivalsOf(arrivals, o)
  {
    if arrivals != [] {
      hide KeyOf, ComesFrom;
      var n := |arrivals| - 1;
      assert arrivals == arrivals[..n] + [arrivals[n]];
      ArrivalsForKey(arrivals[..n], key, o);
    }
  }

  lemma {:induction false} ForKeyWithin(arrivals: seq<Arrival>, key: string)
    ensures forall c | c in Ctos(ForKey(arrivals, key)) :: exists a :: a in arrivals && a.cto == c
  {
    if arrivals != [] {
      hide KeyOf;
      var n := |arrivals| - 1;
      assert arrivals == arrivals[..n] + [arrivals[n]];
      var front := ForKey(arrivals[..n], key);
      ForKeyWithin(arrivals[..n], key);
      if KeyOf(arrivals[n].cto) == key {
        CtosSnoc(front, arrivals[n]);
      } else {
        assert ForKey(arrivals, key) == front;
      }
    }
  }

  lemma {:induction false} BatchInTaken(batches: seq<Batch>, b: Batch)
    requires b in batches
    ensures forall c | c in b.ctos :: c in Taken(batches, b.key)
  {
    var n := |batches| - 1;
    if b != batches[n] {
      assert batches == batches[..n] + [batches[n]];
      BatchInTaken(batches[..n], b);
    }
  }

  /** Every batch of a run is made of arrivals. */
  lemma {:induction false} BatchesHoldArrivals(s: State, b: Batch)
    requires Inv(s) && b in s.batches && NamedChannels(s.arrivals)
    ensures forall c | c in b.ctos :: ChannelName(c.kmzSource) && KeyOf(c) == b.key
  {
    hide KeyOf, ChannelName, ForKey, InBuffers, InBatches;
    assert Homogeneous(b);
    assert PerKey(s, b.key);
    BatchInTaken(s.batches, b);
    ForKeyWithin(s.arrivals, b.key);
    forall c | c in b.ctos
      ensures ChannelName(c.kmzSource)
    {
      assert c in Taken(s.batches, b.key) + Queue(s, b.key);
    }
  }

  lemma {:induction false} ArrivalsOfFrom(arrivals: seq<Arrival>, o: Origin)
    ensures AllFrom(Ctos(ArrivalsOf(arrivals, o)), o)
  {
    if arrivals != [] {
      hide ComesFrom;
      var n := |arrivals| - 1;
      ArrivalsOfFrom(arrivals[..n], o);
      CtosSnoc(ArrivalsOf(arrivals[..n], o), arrivals[n]);
    }
  }

  /** With well-named channels nothing is mixed, in every run: a batch is of the origin or has nothing of it; its
      batches in flush order and one whole buffer are its arrivals in order; and that buffer is ready to be flushed
      exactly when the first arrival not yet flushed has waited 200 milliseconds. */
  lemma {:induction false} OriginsKeptApart(steps: seq<Step>, o: Origin, now: real) returns (key: string)
    requires NamedOrigin(o) && NamedChannels(Run(steps).arrivals)
    ensures forall b | b in Run(steps).batches :: AllFrom(b.ctos, o) || NoneFrom(b.ctos, o)
    ensures forall k | k in Run(steps).buffer && k != key :: NoneFrom(Run(steps).buffer[k], o)
    ensures var s := Run(steps);
            var mine := ArrivalsOf(s.arrivals, o);
            var flushed := Of(Joined(s.batches), o);
            && flushed + Queue(s, key) == Ctos(mine)
            && (key in ReadyKeys(s, now) <==>
                |flushed| < |mine| && (now - mine[|flushed|].at) * 1000.0 >= 200.0)
  {
    hide KeyOf, ComesFrom, ChannelName, Run, InBuffers, InBatches, ReadyKeys, Joined, Taken;
    key := NamedKey(o);
    RunKeepsInv(steps);
    var s := Run(steps);
    assert PerKey(s, key);
    ArrivalsForKey(s.arrivals, key, o);
    forall b | b in s.batches
      ensures AllFrom(b.ctos, o) || NoneFrom(b.ctos, o)
    {
      BatchesHoldArrivals(s, b);
    }
    OfTaken(s.batches, key, o);
    ArrivalsOfFrom(s.arrivals, o);
    assert AllFrom(Taken(s.batches, key) + Queue(s, key), o);
    OfUniform(Taken(s.batches, key), o);
    ReadyMeansWindowOver(steps, now, key);
  }
}
