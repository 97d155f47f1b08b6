/** Topic-based routing to RabbitMQ: a topic name picks an exchange address, and the address's URI is
    resolved through the transport registry's get-or-create lookup. */
module RabbitMqRouting {
  import opened Wrappers
  import opened Messaging
  import opened Transports

  /** How an endpoint delivers. */
  datatype EndpointMode = Durable | BufferedInMemory | Inline

  /** The fields of the `RabbitMqEndpoint` the router builds for a topic. */
  datatype RabbitMqAddress = RabbitMqAddress(exchangeName: string, mode: EndpointMode, routingKey: string)

  /** A router: the exchange is fixed at construction; the mode is the router's endpoint mode. */
  datatype RabbitMqTopicRouter = RabbitMqTopicRouter(exchangeName: string, mode: EndpointMode)

  /** The configuration wrapper around a RabbitMQ endpoint. */
  datatype RabbitMqSubscriberConfiguration = RabbitMqSubscriberConfiguration(endpoint: Endpoint)

  datatype RouterError =
    | RegistryFailure(cause: RegistryError)  // the registry lookup failed
    | InvalidCast                     // the resolved endpoint is not a RabbitMqEndpoint

  /** The address `BuildUriForTopic` describes: the router's exchange and mode, routed by the topic. */
  function TopicAddress(router: RabbitMqTopicRouter, topicName: string): (a: RabbitMqAddress)
    ensures a.exchangeName == router.exchangeName && a.mode == router.mode && a.routingKey == topicName
  {
    RabbitMqAddress(router.exchangeName, router.mode, topicName)
  }

  /** `BuildUriForTopic`: the URI of the topic's address, as `ReplyUri()` renders it; `replyUri`
      stands for that rendering, which is not assumed to be injective. */
  function BuildUriForTopic(router: RabbitMqTopicRouter, replyUri: RabbitMqAddress -> Uri, topicName: string): (u: Uri)
    ensures u == replyUri(TopicAddress(router, topicName))
  {
    replyUri(TopicAddress(router, topicName))
  }

  /** `FindConfigurationForTopic` on a registry value: the registry state afterwards (the endpoint is
      created before the cast is attempted, so it stays created when the cast fails) and the outcome. */
  function FindConfigurationIn(router: RabbitMqTopicRouter, replyUri: RabbitMqAddress -> Uri,
                               r: Registry, topicName: string)
    : (res: (Registry, Result<RabbitMqSubscriberConfiguration, RouterError>))
    requires Valid(r)
    ensures Valid(res.0)
  {
    var uri := BuildUriForTopic(router, replyUri, topicName);
    match GetOrCreateIn(r, uri)
    case Failure(e) => (r, Failure(RegistryFailure(e)))
    case Success(Resolved(r', endpoint)) =>
      if endpoint.kind == RabbitMq then (r', Success(RabbitMqSubscriberConfiguration(endpoint)))
      else (r', Failure(InvalidCast))
  }

  /** The lookup is of exactly `BuildUriForTopic(topicName)`, and a returned configuration wraps the
      very endpoint that the registry handed out, in the state the registry was left in. */
  lemma FindUsesBuiltUri(router: RabbitMqTopicRouter, replyUri: RabbitMqAddress -> Uri,
                         r: Registry, topicName: string)
    requires Valid(r)
    ensures var uri := BuildUriForTopic(router, replyUri, topicName);
            var (r', res) := FindConfigurationIn(router, replyUri, r, topicName);
            && (GetOrCreateIn(r, uri).Success? ==> r' == GetOrCreateIn(r, uri).value.registry)
            && (GetOrCreateIn(r, uri).Failure? ==> r' == r)
            && (res.Success? ==> GetOrCreateIn(r, uri).Success?
                                 && res.value.endpoint == GetOrCreateIn(r, uri).value.endpoint
                                 && res.value.endpoint.uri == uri)
  {
    var uri := BuildUriForTopic(router, replyUri, topicName);
    if uri.scheme in r.table {
      GetOrCreateFrame(r, uri);
    }
  }

  /** The router succeeds exactly when the topic's URI names a registered scheme whose transport is
      the RabbitMQ transport; an unregistered scheme fails at the registry and an endpoint of another
      type fails the cast. */
  lemma FindSucceedsIff(router: RabbitMqTopicRouter, replyUri: RabbitMqAddress -> Uri,
                        r: Registry, topicName: string)
    requires Valid(r)
    ensures var uri := BuildUriForTopic(router, replyUri, topicName);
            var res := FindConfigurationIn(router, replyUri, r, topicName).1;
            && (res.Success? <==> uri.scheme in r.table && r.table[uri.scheme].kind == RabbitMq)
            && (res == Failure(RegistryFailure(KeyNotFound(uri.scheme))) <==> uri.scheme !in r.table)
            && (res == Failure(InvalidCast) <==> uri.scheme in r.table && r.table[uri.scheme].kind != RabbitMq)
  {
    var uri := BuildUriForTopic(router, replyUri, topicName);
    if uri.scheme in r.table {
      GetOrCreateFrame(r, uri);
    }
  }

  /** Asking twice for the same topic yields the same outcome, and the second lookup leaves the
      registry as the first one left it. */
  lemma {:induction false} SameTopicSameConfiguration(router: RabbitMqTopicRouter, replyUri: RabbitMqAddress -> Uri,
                                   r: Registry, topicName: string)
    requires Valid(r)
    ensures var first := FindConfigurationIn(router, replyUri, r, topicName);
            FindConfigurationIn(router, replyUri, first.0, topicName) == first
  {
    SharedUriSharedEndpoint(router, replyUri, r, topicName, topicName);
  }

  /** Two topics whose URIs coincide resolve to one endpoint: after the first lookup, the second finds
      the same outcome and changes nothing. */
  lemma {:induction false} SharedUriSharedEndpoint(router: RabbitMqTopicRouter, replyUri: RabbitMqAddress -> Uri,
                                r: Registry, t1: string, t2: string)
    requires Valid(r)
    requires BuildUriForTopic(router, replyUri, t1) == BuildUriForTopic(router, replyUri, t2)
    ensures var first := FindConfigurationIn(router, replyUri, r, t1);
            FindConfigurationIn(router, replyUri, first.0, t2) == first
  {
    var uri := BuildUriForTopic(router, replyUri, t1);
    if uri.scheme in r.table {
      GetOrCreateFrame(r, uri);
      GetOrCreateIdempotent(r, uri);
    }
  }

  /** `FindConfigurationForTopic`, resolving through the collection, whose state it updates. */
  method FindConfigurationForTopic(router: RabbitMqTopicRouter, replyUri: RabbitMqAddress -> Uri,
                                   endpoints: TransportCollection, topicName: string)
    returns (res: Result<RabbitMqSubscriberConfiguration, RouterError>)
    requires endpoints.Inv()
    modifies endpoints
    ensures endpoints.Inv()
    ensures (endpoints.State(), res) == FindConfigurationIn(router, replyUri, old(endpoints.State()), topicName)
  {
    var uri := BuildUriForTopic(router, replyUri, topicName);
    var endpoint := endpoints.GetOrCreateEndpoint(uri);
    match endpoint
    case Failure(e) =>
      res := Failure(RegistryFailure(e));
    case Success(e) =>
      if e.kind == RabbitMq {
        res := Success(RabbitMqSubscriberConfiguration(e));
      } else {
        res := Failure(InvalidCast);
      }
  }
}
