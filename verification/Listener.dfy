/** What both stream listeners share: how a delivered message ends, and the counters kept about it. */
module Listener {
  import opened Seqs

  /** What handing a payload to the message handler leads to: a normalized object, a counted
      normalization error, or an exception that ends the connection. */
  datatype Outcome = Normalized | Rejected | Raised

  /** The handler, seen from the connection: the outcome may depend on how many messages came before. */
  type Handler = (nat, seq<byte>) -> Outcome

  /** The time at which a connection's n-th message is handled. */
  type Clock = nat -> int

  /** How many of the payloads had the given outcome. */
  function Count(handler: Handler, outcome: Outcome, payloads: seq<seq<byte>>): nat {
    if payloads == [] then 0
    else
      var last := |payloads| - 1;
      Count(handler, outcome, payloads[..last]) + if handler(last, payloads[last]) == outcome then 1 else 0
  }

  lemma {:induction false} CountSnoc(handler: Handler, outcome: Outcome, payloads: seq<seq<byte>>, payload: seq<byte>)
    ensures Count(handler, outcome, payloads + [payload]) ==
            Count(handler, outcome, payloads) + if handler(|payloads|, payload) == outcome then 1 else 0
  {
    assert (payloads + [payload])[..|payloads|] == payloads;
  }

  lemma {:induction false} CountsAddUp(handler: Handler, payloads: seq<seq<byte>>)
    ensures |payloads| == Count(handler, Normalized, payloads) + Count(handler, Rejected, payloads)
                          + Count(handler, Raised, payloads)
  {
    if payloads != [] {
      CountsAddUp(handler, payloads[..|payloads| - 1]);
    }
  }

  /** What a connection reads: everything up to the first empty read, which means end of file. */
  function BeforeEof(incoming: seq<seq<byte>>): (r: seq<seq<byte>>)
    ensures forall c | c in r :: c != [] && c in incoming
  {
    if incoming == [] || incoming[0] == [] then [] else [incoming[0]] + BeforeEof(incoming[1..])
  }

  /** The counters at one moment. */
  datatype Totals = Totals(received: nat, normalized: nat, errors: nat, lastAt: Option<int>)

  /** The counters of one listener, which its connections share. */
  class ListenerStats {
    var messagesReceived: nat
    var messagesNormalized: nat
    var parseErrors: nat
    var lastMessageAt: Option<int>

    constructor ()
      ensures Now() == Totals(0, 0, 0, None)
    {
      messagesReceived, messagesNormalized, parseErrors, lastMessageAt := 0, 0, 0, None;
    }

    function Now(): Totals
      reads this
    {
      Totals(messagesReceived, messagesNormalized, parseErrors, lastMessageAt)
    }

    /** What a connection has added to the counters: its messages and the errors of its stream. */
    ghost predicate Match(base: Totals, handler: Handler, clock: Clock, delivered: seq<seq<byte>>, streamErrors: nat)
      reads this
    {
      && messagesReceived == base.received + |delivered|
      && messagesNormalized == base.normalized + Count(handler, Normalized, delivered)
      && parseErrors == base.errors + Count(handler, Rejected, delivered) + streamErrors
      && lastMessageAt == if delivered == [] then base.lastAt else Some(clock(|delivered| - 1))
    }

    /** _handle_message: counts the message and notes its time, then counts its outcome. */
    method HandleMessage(outcome: Outcome, now: int)
      modifies this
      ensures Now() == Totals(old(messagesReceived) + 1,
                              old(messagesNormalized) + (if outcome == Normalized then 1 else 0),
                              old(parseErrors) + (if outcome == Rejected then 1 else 0),
                              Some(now))
    {
      messagesReceived := messagesReceived + 1;
      lastMessageAt := Some(now);
      match outcome {
        case Normalized => messagesNormalized := messagesNormalized + 1;
        case Rejected => parseErrors := parseErrors + 1;
        case Raised =>
      }
    }

    /** Every message a connection received shows in the counters exactly once, as normalized, as an error, or in the
        exception that ended the connection; the other errors are those of the stream. */
    lemma {:induction false} EveryMessageCounted(base: Totals, handler: Handler, clock: Clock,
        delivered: seq<seq<byte>>, streamErrors: nat)
      requires Match(base, handler, clock, delivered, streamErrors)
      ensures messagesReceived - base.received ==
              (messagesNormalized - base.normalized) + (parseErrors - base.errors - streamErrors)
              + Count(handler, Raised, delivered)
    {
      CountsAddUp(handler, delivered);
    }
  }
}
