/** The RabbitMQ listening agent: each delivery the broker pushes is mapped to an envelope, handed to
    the receiver callback, and settled on the channel with an ack or a nack once the callback's task
    completes. The channel's calls are recorded as a trace. */
module RabbitMqListening {
  import opened Wrappers
  import opened Messaging

  newtype ulong = x: int | 0 <= x < 0x1_0000_0000_0000_0000

  /** The arguments of one `HandleBasicDeliver` call, bundled as `BasicDeliverEventArgs`. */
  datatype BasicDeliverEventArgs = BasicDeliverEventArgs(
    consumerTag: string, deliveryTag: ulong, redelivered: bool, exchange: string, routingKey: string,
    properties: map<string, string>, body: seq<bv8>)

  /** What `ReadEnvelope` does: return an envelope, which may be null, or throw. */
  datatype ReadOutcome = Read(envelope: Envelope?) | ReadThrew

  /** How the `Task` that `Received` returns ends. */
  datatype TaskStatus = RanToCompletion | Faulted | Canceled

  /** What calling `Received` does: return a task that ends in some status, or throw at once. */
  datatype ReceiveOutcome = Returned(status: TaskStatus) | ThrewSynchronously

  /** The receiver callback; `received` stands for the outcome of `Received(address, envelopes)`. */
  class ReceiverCallback {
    const received: (Uri, seq<Envelope?>) -> ReceiveOutcome

    constructor (received: (Uri, seq<Envelope?>) -> ReceiveOutcome)
      ensures this.received == received
    {
      this.received := received;
    }
  }

  /** What the agent does that is visible from outside: dispatches to the callback and channel calls. */
  datatype AgentEvent =
    | Dispatched(callback: ReceiverCallback, address: Uri, envelopes: seq<Envelope?>)
    | BasicAck(deliveryTag: ulong, multiple: bool)
    | BasicNack(deliveryTag: ulong, multiple: bool, requeue: bool)

  /** The exception `HandleBasicDeliver` lets escape: one thrown by `Received` itself. */
  datatype DeliveryError = ReceivedThrew

  /** The events of one delivery: nothing without a callback; an ack without dispatch when mapping
      throws; otherwise one dispatch of a one-element envelope array, then a nack with requeue if the
      callback's `Task` faulted and an ack if it did not (a canceled task is not faulted). There is no
      settlement when `Received` throws, nor when the task of a null envelope faults: logging that
      fault reads `envelope.Id`, which throws before the nack. */
  function DeliveryEvents(callback: ReceiverCallback?, address: Uri,
                          mapper: BasicDeliverEventArgs -> ReadOutcome,
                          args: BasicDeliverEventArgs): (es: seq<AgentEvent>)
    ensures callback == null ==> es == []
    ensures callback != null && mapper(args).ReadThrew? ==> es == [BasicAck(args.deliveryTag, false)]
    ensures callback != null && mapper(args).Read? ==>
              |es| >= 1 && es[0] == Dispatched(callback, address, [mapper(args).envelope])
  {
    if callback == null then []
    else match mapper(args)
      case ReadThrew => [BasicAck(args.deliveryTag, false)]
      case Read(envelope) =>
        var dispatch := Dispatched(callback, address, [envelope]);
        match callback.received(address, [envelope])
        case ThrewSynchronously => [dispatch]
        case Returned(Faulted) =>
          if envelope == null then [dispatch] else [dispatch, BasicNack(args.deliveryTag, false, true)]
        case Returned(_) => [dispatch, BasicAck(args.deliveryTag, false)]
  }

  /** Whether a delivery makes `HandleBasicDeliver` throw: only when `Received` throws. */
  predicate Throws(callback: ReceiverCallback?, mapper: BasicDeliverEventArgs -> ReadOutcome,
                   address: Uri, args: BasicDeliverEventArgs)
  {
    callback != null && mapper(args).Read? && callback.received(address, [mapper(args).envelope]).ThrewSynchronously?
  }

  /** Whether the callback's task faults on a null envelope, so that the fault handler throws. */
  predicate NackLost(callback: ReceiverCallback?, mapper: BasicDeliverEventArgs -> ReadOutcome,
                     address: Uri, args: BasicDeliverEventArgs)
  {
    callback != null && mapper(args) == Read(null) && callback.received(address, [null]) == Returned(Faulted)
  }

  /** The delivery tags of the acks and nacks in a trace, in order. */
  function Settlements(es: seq<AgentEvent>): (tags: seq<ulong>)
    ensures |tags| <= |es|
  {
    if es == [] then []
    else
      var rest := Settlements(es[1..]);
      match es[0]
      case Dispatched(_, _, _) => rest
      case BasicAck(tag, _) => [tag] + rest
      case BasicNack(tag, _, _) => [tag] + rest
  }

  /** The number of dispatches in a trace. */
  function Dispatches(es: seq<AgentEvent>): (n: nat)
    ensures n <= |es|
  {
    if es == [] then 0 else (if es[0].Dispatched? then 1 else 0) + Dispatches(es[1..])
  }

  lemma {:induction false} SettlementsAppend(a: seq<AgentEvent>, b: seq<AgentEvent>)
    ensures Settlements(a + b) == Settlements(a) + Settlements(b)
    decreases |a|
  {
    if a != [] {
      assert (a + b)[1..] == a[1..] + b;
      SettlementsAppend(a[1..], b);
    } else {
      assert a + b == b;
    }
  }

  /** Once started, a delivery that neither throws nor loses its nack is settled exactly once, for its
      own delivery tag; it is dispatched once exactly when mapping did not throw. */
  lemma SettledOnce(callback: ReceiverCallback, address: Uri,
                    mapper: BasicDeliverEventArgs -> ReadOutcome, args: BasicDeliverEventArgs)
    requires !Throws(callback, mapper, address, args) && !NackLost(callback, mapper, address, args)
    ensures Settlements(DeliveryEvents(callback, address, mapper, args)) == [args.deliveryTag]
    ensures Dispatches(DeliveryEvents(callback, address, mapper, args)) == (if mapper(args).Read? then 1 else 0)
  {
  }

  /** A null envelope whose task faults is dispatched but never settled: neither acked nor nacked. */
  lemma NullEnvelopeFaultIsNeverSettled(callback: ReceiverCallback, address: Uri,
                                        mapper: BasicDeliverEventArgs -> ReadOutcome, args: BasicDeliverEventArgs)
    requires NackLost(callback, mapper, address, args)
    ensures DeliveryEvents(callback, address, mapper, args) == [Dispatched(callback, address, [null])]
    ensures Settlements(DeliveryEvents(callback, address, mapper, args)) == []
  {
  }

  /** A delivery is nacked, with requeue, exactly when it was mapped and the callback's task faulted;
      in every other settled case it is acked. */
  lemma NackIffFaulted(callback: ReceiverCallback, address: Uri,
                       mapper: BasicDeliverEventArgs -> ReadOutcome, args: BasicDeliverEventArgs)
    requires !Throws(callback, mapper, address, args) && !NackLost(callback, mapper, address, args)
    ensures var es := DeliveryEvents(callback, address, mapper, args);
            var faulted := mapper(args).Read? && callback.received(address, [mapper(args).envelope]) == Returned(Faulted);
            && (faulted <==> BasicNack(args.deliveryTag, false, true) in es)
            && (!faulted <==> BasicAck(args.deliveryTag, false) in es)
  {
  }

  /** The events of a run of deliveries with the callback fixed. */
  function Replay(callback: ReceiverCallback?, address: Uri,
                  mapper: BasicDeliverEventArgs -> ReadOutcome, ds: seq<BasicDeliverEventArgs>): seq<AgentEvent>
  {
    if ds == [] then []
    else Replay(callback, address, mapper, ds[..|ds| - 1]) + DeliveryEvents(callback, address, mapper, ds[|ds| - 1])
  }

  /** The delivery tags of a run, in order. */
  function Tags(ds: seq<BasicDeliverEventArgs>): (tags: seq<ulong>)
    ensures |tags| == |ds|
    ensures forall i :: 0 <= i < |ds| ==> tags[i] == ds[i].deliveryTag
  {
    seq(|ds|, i requires 0 <= i < |ds| => ds[i].deliveryTag)
  }

  /** Without a callback (before `Start`, or after `Start(null)`) no delivery produces any event. */
  lemma {:induction false} IgnoredBeforeStart(address: Uri, mapper: BasicDeliverEventArgs -> ReadOutcome,
                                              ds: seq<BasicDeliverEventArgs>)
    ensures Replay(null, address, mapper, ds) == []
    decreases |ds|
  {
    if ds != [] {
      IgnoredBeforeStart(address, mapper, ds[..|ds| - 1]);
    }
  }

  /** Once started, a run in which no delivery throws or loses its nack settles every delivery exactly
      once, in arrival order, each for its own delivery tag. */
  lemma {:induction false} EveryDeliverySettledInOrder(callback: ReceiverCallback, address: Uri,
                                                       mapper: BasicDeliverEventArgs -> ReadOutcome,
                                                       ds: seq<BasicDeliverEventArgs>)
    requires forall i :: 0 <= i < |ds| ==> !Throws(callback, mapper, address, ds[i]) && !NackLost(callback, mapper, address, ds[i])
    ensures Settlements(Replay(callback, address, mapper, ds)) == Tags(ds)
    decreases |ds|
  {
    if ds != [] {
      var init, last := ds[..|ds| - 1], ds[|ds| - 1];
      EveryDeliverySettledInOrder(callback, address, mapper, init);
      SettlementsAppend(Replay(callback, address, mapper, init), DeliveryEvents(callback, address, mapper, last));
      SettledOnce(callback, address, mapper, last);
      assert Tags(ds) == Tags(init) + [last.deliveryTag];
    }
  }

  /** The agent: a fixed address and mapper, the callback `Start` installs, and the channel trace. */
  class RabbitMqListeningAgent {
    const address: Uri
    const mapper: BasicDeliverEventArgs -> ReadOutcome
    var callback: ReceiverCallback?
    var trace: seq<AgentEvent>

    constructor (address: Uri, mapper: BasicDeliverEventArgs -> ReadOutcome)
      ensures this.address == address && this.mapper == mapper
      ensures callback == null && trace == []
    {
      this.address := address;
      this.mapper := mapper;
      callback := null;
      trace := [];
    }

    /** `Dispose` releases nothing: the channel belongs to the agent's owner. */
    method Dispose()
      ensures callback == old(callback) && trace == old(trace)
    {
    }

    /** `Start` installs the callback every later delivery is dispatched to; null switches delivery off. */
    method Start(callback: ReceiverCallback?)
      modifies this`callback
      ensures this.callback == callback
    {
      this.callback := callback;
    }

    /** `HandleBasicDeliver`: the delivery's events are appended to the trace, and the call fails
        only when `Received` throws. */
    method HandleBasicDeliver(consumerTag: string, deliveryTag: ulong, redelivered: bool, exchange: string,
                              routingKey: string, properties: map<string, string>, body: seq<bv8>)
      returns (res: Outcome<DeliveryError>)
      modifies this`trace
      ensures var args := BasicDeliverEventArgs(consumerTag, deliveryTag, redelivered, exchange, routingKey, properties, body);
              && trace == old(trace) + DeliveryEvents(callback, address, mapper, args)
              && (res.Fail? <==> Throws(callback, mapper, address, args))
    {
      if callback == null {
        return Pass;
      }
      var args := BasicDeliverEventArgs(consumerTag, deliveryTag, redelivered, exchange, routingKey, properties, body);
      var read := mapper(args);
      if read.ReadThrew? {
        trace := trace + [BasicAck(deliveryTag, false)];
        return Pass;
      }
      var envelope := read.envelope;
      trace := trace + [Dispatched(callback, address, [envelope])];
      match callback.received(address, [envelope])
      case ThrewSynchronously =>
        return Fail(ReceivedThrew);
      case Returned(status) =>
        if status == Faulted {
          if envelope != null {
            trace := trace + [BasicNack(deliveryTag, false, true)];
          }
        } else {
          trace := trace + [BasicAck(deliveryTag, false)];
        }
        return Pass;
    }
  }
}
