# Jasper messaging core in Dafny

This project models five pieces of the Jasper messaging framework (C#) and proves properties about them:

- **HTTP route patterns** (`Route`). A pattern such as `api/:id/...` becomes a list of segments. Each segment is a literal, an argument or a spread. The two constructors reject:
  - routes that start with an argument or a spread;
  - routes with more than one spread;
  - routes whose spread is not last.

  The model derives the route's `Pattern`, `Name`, `Description`, `Arguments` and `Parameters`. The string constructor's loop is a method proved equal to a specification function. The .NET string operations it relies on are written out in `DotNetStrings`: `StartsWith`/`EndsWith` (compared character by character), `TrimStart`/`TrimEnd`/`Trim(char)`, `Split('/')` keeping empty pieces, and `Join`.
- **Transport registry** (`TransportCollection`). A dictionary from URI scheme to transport that keeps insertion order, and replaces an existing key in place (`SmartAdd`). A new collection holds the TCP, stub and local transports. Endpoint lookups are delegated to the transport the URI's scheme selects. The class is proved against a pure `Registry` value and the lemmas about it.
- **RabbitMQ topic router**. A topic name becomes an exchange address (exchange name, mode, routing key = topic). The address's URI is then resolved through the registry's get-or-create lookup, followed by a cast to a RabbitMQ endpoint.
- **RabbitMQ listening agent**. Each broker delivery is handled as an ack/nack decision recorded in a trace of channel calls:
  - without a callback (before `Start`, or after `Start(null)`), a delivery is ignored;
  - a delivery whose mapping throws is acked without dispatch;
  - otherwise the mapped envelope, possibly null, is dispatched once, then acked, or nacked with requeue if the callback's task faulted;
  - a faulted task for a null envelope is never settled, because logging the fault reads the envelope's id, which throws before the nack.
- **Scheduled-retry continuation**.
  - `Execute` sets the envelope's execution time to `utcNow + Delay`.
  - It then either hands the envelope to the channel's native scheduling, or schedules a job in the durable store, which persists it as `Scheduled` and owned by any node.
  - Equality is by delay, and the hash code is the 64-bit `TimeSpan` hash.

Times are integer ticks of 100 ns. `DateTime` ranges over `0 .. 3155378975999999999` ticks and `TimeSpan` over signed 64-bit ticks. `DateTime.Add` fails with an out-of-range error when the sum falls outside that range.

Two behaviours of the code that are easy to misread:

- `GetEndpoint` and `GetOrCreateEndpoint` fail inside the dictionary indexer for an unregistered scheme, so the model's error there is `KeyNotFound`. Their own null checks can never be reached: the indexer throws first, and `Add` cannot store a null transport. Only `ListenForMessagesFrom` raises its own unknown-transport error.
- `Execute` of a scheduled retry does not ack the transport message, and neither does the model.

Modules, one per file: `Wrappers` (Option/Result/Outcome), `DotNetStrings`, `Messaging` (URIs, ticks, the envelope), `Persistence` (the durable store's scheduled-job contract), `Routing`, `Transports`, `RabbitMqRouting`, `RabbitMqListening`, `ErrorHandling`.

## Model

| member | source | states |
|---|---|---|
| `DotNetStrings.StartsWith` | src/Jasper.Http/Routing/Route.cs:120-126 | the prefix is exactly the first characters of the string, compared one by one |
| `DotNetStrings.EndsWith` | src/Jasper.Http/Routing/Route.cs:126 | the suffix is exactly the last characters of the string, compared one by one |
| `DotNetStrings.TrimStart` | src/Jasper.Http/Routing/Route.cs:34 | removes every leading occurrence of the character and no more: what is left does not start with it |
| `DotNetStrings.TrimEnd` | src/Jasper.Http/Routing/Route.cs:34 | removes every trailing occurrence of the character: what is left does not end with it |
| `DotNetStrings.Trim` | src/Jasper.Http/Routing/Route.cs:122 | leaves no occurrence of the character at either end; leaves a string without one at its ends unchanged; never adds the character |
| `DotNetStrings.TrimsLeaveTrimmed` | src/Jasper.Http/Routing/Route.cs:34 | trimming a string with no `/` at either end changes nothing |
| `DotNetStrings.TrimsKeepAbsentChar` | src/Jasper.Http/Routing/Route.cs:122-128 | trimming removes characters and never introduces one that was absent |
| `DotNetStrings.Split` | src/Jasper.Http/Routing/Route.cs:45 | `Split('/')` yields at least one piece, none containing the separator (empty pieces kept) |
| `DotNetStrings.Join` | src/Jasper.Http/Routing/Route.cs:55 | the separator occurs in the join exactly when there are at least two pieces or some piece already holds it |
| `DotNetStrings.JoinSplit` | src/Jasper.Http/Routing/Route.cs:45-55 | joining the pieces of a split with the separator gives back the original string |
| `DotNetStrings.SplitJoin` | src/Jasper.Http/Routing/Route.cs:45-55 | splitting the join of separator-free pieces gives back the pieces |
| `DotNetStrings.SplitFirstPiece` | src/Jasper.Http/Routing/Route.cs:45 | the first piece of a split is non-empty when the string does not start with the separator |
| `DotNetStrings.SplitLastPiece` | src/Jasper.Http/Routing/Route.cs:45 | the last piece of a split is non-empty when the string does not end with the separator |
| `DotNetStrings.JoinEnds` | src/Jasper.Http/Routing/Route.cs:55 | a join begins with its first piece and ends with its last |
| `Routing.ToParameter` | src/Jasper.Http/Routing/Route.cs:116-133 | `...` and only `...` is a spread; a piece is a literal, with its text kept, exactly when it is not `...`, not `:…` and not `{…}`; a `:` argument's key has no `:` at either end; the position is kept |
| `Routing.ArgumentKeyWithinPiece` | src/Jasper.Http/Routing/Route.cs:120-130 | an argument key is cut from its piece, so a piece without `/` gives a key without `/` |
| `Routing.ColonPieceIsArgument` | src/Jasper.Http/Routing/Route.cs:120-124 | `:key` is the argument `key`, for a key with no `:` at either end |
| `Routing.BracePieceIsArgument` | src/Jasper.Http/Routing/Route.cs:126-130 | `{key}` is the argument `key`, for a key that neither begins with `{` nor ends with `}` |
| `Routing.ToParameterInvertsSegmentPath` | src/Jasper.Http/Routing/Route.cs:116-133 | classifying a segment's own path text gives back that segment, for a segment whose literal text classifies as a literal, or whose argument key has no `:` at either end |
| `Routing.FilterMembers` | src/Jasper.Http/Routing/Route.cs:149-150 | `OfType`/`Where` keeps exactly the segments of the selected kind |
| `Routing.FilterAppend` | src/Jasper.Http/Routing/Route.cs:101 | filtering keeps the segments' order |
| `Routing.SegmentPaths` | src/Jasper.Http/Routing/Route.cs:55 | one path text per segment, in order |
| `Routing.ValidateSegments` | src/Jasper.Http/Routing/Route.cs:135-144 | a first spread is rejected, a first argument is rejected, and every other list (the empty one included) passes |
| `Routing.SetupArgumentsAndSpread` | src/Jasper.Http/Routing/Route.cs:147-157 | more than one spread is rejected (`SingleOrDefault`); a single spread that is not the last segment is rejected; otherwise the route is kept unchanged |
| `Routing.Construct` | src/Jasper.Http/Routing/Route.cs:52-75 | an accepted route passed validation, keeps the segments and method, has `Pattern` the `/`-joined segment paths and `Name` method, separator, pattern |
| `Routing.RouteFromPattern` | src/Jasper.Http/Routing/Route.cs:32-61 | a null pattern is rejected; an accepted route has the method, `Pattern` the joined paths of its segments, and `Name` `{method}:/{Pattern}` |
| `Routing.RouteFromSegments` | src/Jasper.Http/Routing/Route.cs:63-75 | an accepted route has exactly the given segments and verb, `Pattern` their joined paths, and `Name` `{verb}:{Pattern}` |
| `Routing.Arguments` | src/Jasper.Http/Routing/Route.cs:90 | a segment is among the arguments exactly when it is an argument segment of the route |
| `Routing.Parameters` | src/Jasper.Http/Routing/Route.cs:101 | a segment is among the parameters exactly when it is a non-literal segment of the route |
| `Routing.HasSpread` | src/Jasper.Http/Routing/Route.cs:94 | holds exactly when some segment is a spread |
| `Routing.HasParameters` | src/Jasper.Http/Routing/Route.cs:88 | holds exactly when some segment is an argument or a spread |
| `Routing.GetArgument` | src/Jasper.Http/Routing/Route.cs:160-163 | null exactly when no argument has the key; otherwise the first segment that is an argument with that key |
| `Routing.Description` | src/Jasper.Http/Routing/Route.cs:77 | the method, then `: `, then the pattern |
| `Routing.ToString` | src/Jasper.Http/Routing/Route.cs:180-183 | the same text as `Description` |
| `Routing.PatternOf` | src/Jasper.Http/Routing/Route.cs:55-71 | `Pattern` is `""` for no segments and a lone segment's own path; it holds a `/` exactly when there are two segments or a segment's path holds one |
| `Routing.ClassifyPieces` | src/Jasper.Http/Routing/Route.cs:45-50 | one segment per piece, piece i at position i, a literal exactly when the piece is a literal piece and a spread exactly when it is `...` |
| `Routing.SpreadOf` | src/Jasper.Http/Routing/Route.cs:150 | none exactly when no segment is a spread; otherwise a spread segment of the route |
| `Routing.Trimmed` | src/Jasper.Http/Routing/Route.cs:34 | the trimmed pattern has no `/` at either end |
| `Routing.NewRoute` | src/Jasper.Http/Routing/Route.cs:32-61 | the constructor's loop (one `ToParameter` per piece, piece i at position i), validation, and derivation of `Pattern` and `Name` compute exactly the specified route or error |
| `Routing.FirstArgument` | src/Jasper.Http/Routing/Route.cs:160-163 | `GetArgument` returns an argument of the route with that key, and null exactly when no segment is one |
| `Routing.NullPatternRejected` | src/Jasper.Http/Routing/Route.cs:34 | a null pattern is an `ArgumentNullException` |
| `Routing.EmptyPatternHasNoSegments` | src/Jasper.Http/Routing/Route.cs:39-42 | a pattern that is empty after trimming gives no segments, pattern `""` and name `{method}:/` |
| `Routing.SegmentPerPiece` | src/Jasper.Http/Routing/Route.cs:45-50 | a parsed route has one segment per `/`-piece, piece i classified at position i, and the pieces rejoin to the trimmed pattern |
| `Routing.ConstructErrors` | src/Jasper.Http/Routing/Route.cs:135-157 | both directions for each exception: a first spread, a first argument, more than one spread, a spread not last; and acceptance exactly when none applies |
| `Routing.PatternErrors` | src/Jasper.Http/Routing/Route.cs:39-60 | a non-empty trimmed pattern is handled as the segment rules applied to its classified pieces |
| `Routing.FirstPieceRules` | src/Jasper.Http/Routing/Route.cs:135-144 | a pattern whose first piece is `...` or an argument is rejected with the matching exception |
| `Routing.ConstructWellFormed` | src/Jasper.Http/Routing/Route.cs:63-75 | every accepted segment list gives a route whose first segment is literal, with at most one spread, which is last, and `Pattern` the joined segment paths |
| `Routing.ConstructedRoutesAreWellFormed` | src/Jasper.Http/Routing/Route.cs:32-75 | both constructors only produce well-formed routes |
| `Routing.ConstructorsAgree` | src/Jasper.Http/Routing/Route.cs:58-72 | the segment constructor on a parsed route's segments gives the same route, with `Name` `{method}:{Pattern}` instead of `{method}:/{Pattern}` |
| `Routing.ParametersAreArgumentsThenSpread` | src/Jasper.Http/Routing/Route.cs:101 | in a constructed route, `Parameters` are the arguments in order followed by the spread, if any |
| `Routing.NoSpreadParametersAreArguments` | src/Jasper.Http/Routing/Route.cs:101 | without a spread, the non-literal segments are exactly the arguments |
| `Routing.GetArgumentIsFirst` | src/Jasper.Http/Routing/Route.cs:160-163 | the argument found is the first segment with that key |
| `Routing.PatternIsTrimmed` | src/Jasper.Http/Routing/Route.cs:55 | a joined pattern whose end pieces are non-empty and `/`-free survives trimming unchanged |
| `Routing.ReclassifyPattern` | src/Jasper.Http/Routing/Route.cs:45-55 | splitting and classifying a route's `Pattern` gives back its segments |
| `Routing.PatternReparses` | src/Jasper.Http/Routing/Route.cs:32-61 | parsing a parsed route's `Pattern` again gives the same route, unless an argument key begins or ends with `:` |
| `Transports.TryGetEndpoint` | src/Jasper/Configuration/TransportCollection.cs:59 | a transport finds an endpoint exactly when it created one for that URI; the endpoint has the transport's type |
| `Transports.GetOrCreate` | src/Jasper/Configuration/TransportCollection.cs:70 | a transport returns its cached endpoint unchanged or creates and caches one; the result is the cached endpoint |
| `Transports.ListenTo` | src/Jasper/Configuration/TransportCollection.cs:82 | the endpoint for the URI, created if needed, is marked as a listener |
| `Transports.AddTo` | src/Jasper/Configuration/TransportCollection.cs:31-34 | `Add` files the transport under its protocol, replaces an earlier entry in place, leaves other keys unchanged, and appends a new key last |
| `Transports.AddKeepsValid` | src/Jasper/Configuration/TransportCollection.cs:31-34 | adding keeps the order a duplicate-free listing of exactly the stored keys, each filed under its own protocol |
| `Transports.InitialRegistry` | src/Jasper/Configuration/TransportCollection.cs:19-24 | the new collection's keys are exactly the tcp, stub and local protocols, in that order |
| `Transports.InitialContents` | src/Jasper/Configuration/TransportCollection.cs:19-24 | a new collection holds exactly the tcp, stub and local transports, keyed by protocol, in that order |
| `Transports.Values` | src/Jasper/Configuration/TransportCollection.cs:41-44 | the values are the transports in key order |
| `Transports.ValuesOnePerKey` | src/Jasper/Configuration/TransportCollection.cs:41-44 | enumeration yields exactly the registered transports, each protocol once |
| `Transports.FirstOfKind` | src/Jasper/Configuration/TransportCollection.cs:36-39 | the first transport of the type, or null exactly when there is none |
| `Transports.Lookup` | src/Jasper/Configuration/TransportCollection.cs:26-29 | the registered transport for the scheme, or `KeyNotFound` exactly when none is registered |
| `Transports.GetEndpointIn` | src/Jasper/Configuration/TransportCollection.cs:51-60 | fails exactly for an unregistered scheme; otherwise the selected transport's `TryGetEndpoint` |
| `Transports.GetOrCreateIn` | src/Jasper/Configuration/TransportCollection.cs:62-71 | fails exactly for an unregistered scheme; otherwise the selected transport's get-or-create, with only that transport updated |
| `Transports.ListenIn` | src/Jasper/Configuration/TransportCollection.cs:78-89 | `UnknownTransport` exactly for an unregistered scheme; otherwise the selected transport's `ListenTo`, wrapped in a listener configuration |
| `Transports.GetOrCreateFrame` | src/Jasper/Configuration/TransportCollection.cs:62-71 | get-or-create keeps every key, every other transport and the order; the endpoint is for that URI and of the transport's type |
| `Transports.GetOrCreateIdempotent` | src/Jasper/Configuration/TransportCollection.cs:62-71 | a second get-or-create of the same URI returns the same endpoint and changes nothing |
| `Transports.GetEndpointAfterCreate` | src/Jasper/Configuration/TransportCollection.cs:51-71 | after get-or-create, `GetEndpoint` finds the endpoint that was handed out |
| `Transports.LookupsFailTogether` | src/Jasper/Configuration/TransportCollection.cs:51-89 | `GetEndpoint`, `GetOrCreateEndpoint` and `ListenForMessagesFrom` fail for exactly the same URIs |
| `Transports.DistinctOrderCoversKeys` | src/Jasper/Configuration/TransportCollection.cs:41-44 | proof helper for `Enumerate`: a duplicate-free key order lists as many keys as the dictionary holds |
| `Transports.TransportCollection.constructor` | src/Jasper/Configuration/TransportCollection.cs:19-24 | the fields hold the initial registry |
| `Transports.TransportCollection.Add` | src/Jasper/Configuration/TransportCollection.cs:31-34 | the new state is `AddTo` of the old one, and the invariant is kept |
| `Transports.TransportCollection.TransportForScheme` | src/Jasper/Configuration/TransportCollection.cs:26-29 | the stored transport, failing exactly for an unregistered scheme |
| `Transports.TransportCollection.Get` | src/Jasper/Configuration/TransportCollection.cs:36-39 | a registered transport of the type, or null exactly when none is registered |
| `Transports.TransportCollection.Enumerate` | src/Jasper/Configuration/TransportCollection.cs:41-44 | one transport per key, exactly the stored ones |
| `Transports.TransportCollection.GetEndpoint` | src/Jasper/Configuration/TransportCollection.cs:51-60 | fails exactly for an unregistered scheme; a found endpoint is for that URI and of the transport's type |
| `Transports.TransportCollection.GetOrCreateEndpoint` | src/Jasper/Configuration/TransportCollection.cs:62-71 | the result and new state are those of `GetOrCreateIn`; nothing changes on failure |
| `Transports.TransportCollection.ListenForMessagesFrom` | src/Jasper/Configuration/TransportCollection.cs:78-89 | the result and new state are those of `ListenIn`; nothing changes on failure |
| `RabbitMqRouting.TopicAddress` | src/Jasper.RabbitMQ/Internal/RabbitMqTopicRouter.cs:20-25 | the endpoint takes the router's exchange and mode, with routing key = topic |
| `RabbitMqRouting.BuildUriForTopic` | src/Jasper.RabbitMQ/Internal/RabbitMqTopicRouter.cs:18-28 | the URI depends only on exchange, mode and topic, through `ReplyUri` |
| `RabbitMqRouting.FindConfigurationIn` | src/Jasper.RabbitMQ/Internal/RabbitMqTopicRouter.cs:30-37 | the registry it leaves behind stays valid, whichever way the lookup goes |
| `RabbitMqRouting.FindUsesBuiltUri` | src/Jasper.RabbitMQ/Internal/RabbitMqTopicRouter.cs:33-36 | the lookup is of exactly `BuildUriForTopic(topic)`, and the configuration wraps the very endpoint the registry returned |
| `RabbitMqRouting.FindSucceedsIff` | src/Jasper.RabbitMQ/Internal/RabbitMqTopicRouter.cs:34-36 | success exactly when the scheme is registered to the RabbitMQ transport; the registry error exactly when unregistered; the cast error exactly for another transport type |
| `RabbitMqRouting.SameTopicSameConfiguration` | src/Jasper.RabbitMQ/Internal/RabbitMqTopicRouter.cs:18-37 | the same topic twice gives the same outcome, and the second call changes nothing |
| `RabbitMqRouting.SharedUriSharedEndpoint` | src/Jasper.RabbitMQ/Internal/RabbitMqTopicRouter.cs:30-37 | two topics with the same URI resolve to the same endpoint |
| `RabbitMqRouting.FindConfigurationForTopic` | src/Jasper.RabbitMQ/Internal/RabbitMqTopicRouter.cs:30-37 | through the collection, the result and new state are those of `FindConfigurationIn` |
| `RabbitMqListening.DeliveryEvents` | src/Jasper.RabbitMQ/RabbitMQListeningAgent.cs:38-75 | no events without a callback; a delivery whose mapping throws gives a single `BasicAck(tag, false)`; otherwise the envelope, possibly null, is first dispatched to the callback with the address in a one-element array |
| `RabbitMqListening.SettledOnce` | src/Jasper.RabbitMQ/RabbitMQListeningAgent.cs:38-75 | once started, a delivery that neither throws nor faults on a null envelope is acked or nacked exactly once, for its own tag, and dispatched exactly when mapping did not throw |
| `RabbitMqListening.NullEnvelopeFaultIsNeverSettled` | src/Jasper.RabbitMQ/RabbitMQListeningAgent.cs:61-67 | when the task for a null envelope faults, the delivery is dispatched and then neither acked nor nacked |
| `RabbitMqListening.NackIffFaulted` | src/Jasper.RabbitMQ/RabbitMQListeningAgent.cs:61-73 | `BasicNack(tag, false, true)` exactly when the callback's task faulted; `BasicAck(tag, false)` exactly otherwise |
| `RabbitMqListening.IgnoredBeforeStart` | src/Jasper.RabbitMQ/RabbitMQListeningAgent.cs:41 | without a callback, any run of deliveries produces no event |
| `RabbitMqListening.EveryDeliverySettledInOrder` | src/Jasper.RabbitMQ/RabbitMQListeningAgent.cs:38-75 | once started, a run of deliveries none of which throws or faults on a null envelope is settled once each, in arrival order, by its own tag |
| `RabbitMqListening.RabbitMqListeningAgent.constructor` | src/Jasper.RabbitMQ/RabbitMQListeningAgent.cs:20-26 | the address and mapper are fixed; no callback, empty trace |
| `RabbitMqListening.RabbitMqListeningAgent.Dispose` | src/Jasper.RabbitMQ/RabbitMQListeningAgent.cs:28-31 | changes nothing |
| `RabbitMqListening.RabbitMqListeningAgent.Start` | src/Jasper.RabbitMQ/RabbitMQListeningAgent.cs:33-36 | stores the callback, null included, and touches nothing else |
| `RabbitMqListening.RabbitMqListeningAgent.HandleBasicDeliver` | src/Jasper.RabbitMQ/RabbitMQListeningAgent.cs:38-75 | appends exactly the delivery's events to the trace; fails exactly when `Received` throws |
| `Persistence.FindRecord` | src/IntegrationTests/Persistence/SqlServer/Persistence/SqlServerBackedMessagePersistenceTests.cs:49 | a row with the id, at a position before which no row has the id (the first one), or none exactly when no row has it |
| `Persistence.ScheduledRecord` | src/IntegrationTests/Persistence/SqlServer/Persistence/SqlServerBackedMessagePersistenceTests.cs:61-67 | a scheduled job's row is `Scheduled` and owned by any node |
| `Persistence.DurableStore.AllIncomingEnvelopes` | src/IntegrationTests/Persistence/SqlServer/Persistence/SqlServerBackedMessagePersistenceTests.cs:49 | every stored row, in the order stored |
| `Persistence.DurableStore.ScheduleJob` | src/IntegrationTests/Persistence/SqlServer/Persistence/SqlServerBackedMessagePersistenceTests.cs:45 | appends that row for the envelope |
| `Persistence.ScheduledJobIsFound` | src/IntegrationTests/Persistence/SqlServer/Persistence/SqlServerBackedMessagePersistenceTests.cs:43-68 | after scheduling, the envelope's id is found, `Scheduled`, owned by any node, at its execution time |
| `ErrorHandling.AddDelay` | src/Jasper/ErrorHandling/ScheduledRetryContinuation.cs:21 | `utcNow + Delay` in ticks, or the out-of-range error exactly when the sum is not a valid `DateTime` |
| `ErrorHandling.NonNegativeDelayIsNotEarlier` | src/Jasper/ErrorHandling/ScheduledRetryContinuation.cs:21 | a non-negative delay never schedules earlier than now, and succeeds whenever the sum fits |
| `ErrorHandling.Xor` | src/Jasper/ErrorHandling/ScheduledRetryContinuation.cs:48 | proof helper for `TimeSpanHash`: bitwise exclusive or of the low bits, which fits in the width |
| `ErrorHandling.XorAllOnes` | src/Jasper/ErrorHandling/ScheduledRetryContinuation.cs:48 | proof helper for `TimeSpanHash`: exclusive or with all ones is the bitwise complement within the width |
| `ErrorHandling.XorComplements` | src/Jasper/ErrorHandling/ScheduledRetryContinuation.cs:48 | proof helper for `ComplementHashesAlike`: complementing both operands leaves their exclusive or unchanged |
| `ErrorHandling.FoldedHalves` | src/Jasper/ErrorHandling/ScheduledRetryContinuation.cs:48 | proof helper for `TimeSpanHash`: folding the two 32-bit halves of a tick count in `[-2^31, 2^31)` gives the count itself when non-negative and its complement `-count - 1` when negative |
| `ErrorHandling.TimeSpanHash` | src/Jasper/ErrorHandling/ScheduledRetryContinuation.cs:48 | every delay in `[0, 2^31)` hashes to its tick count, every delay in `[-2^31, 0)` to `-ticks - 1` |
| `ErrorHandling.ComplementHashesAlike` | src/Jasper/ErrorHandling/ScheduledRetryContinuation.cs:48 | for every delay, the tick counts `t` and `-t - 1` have the same hash |
| `ErrorHandling.ChannelCallback.MoveToScheduledUntil` | src/Jasper/ErrorHandling/ScheduledRetryContinuation.cs:23 | records the native scheduling call |
| `ErrorHandling.ScheduledRetryContinuation.constructor` | src/Jasper/ErrorHandling/ScheduledRetryContinuation.cs:11-16 | `Delay` is fixed at construction |
| `ErrorHandling.ScheduledRetryContinuation.Execute` | src/Jasper/ErrorHandling/ScheduledRetryContinuation.cs:18-26 | on every successful path the execution time becomes `utcNow + Delay`; a natively scheduling channel gets exactly one move and the store nothing; otherwise the store gets exactly one job and the channel nothing; on overflow nothing changes |
| `ErrorHandling.ScheduledRetryContinuation.Equals` | src/Jasper/ErrorHandling/ScheduledRetryContinuation.cs:33-44 | equal exactly when the other object is a non-null continuation of this type with the same delay; so never null, and always itself |
| `ErrorHandling.ScheduledRetryContinuation.GetHashCode` | src/Jasper/ErrorHandling/ScheduledRetryContinuation.cs:46-49 | the hash is the delay's `TimeSpan` hash |
| `ErrorHandling.EqualsIsEquivalence` | src/Jasper/ErrorHandling/ScheduledRetryContinuation.cs:33-44 | equality is symmetric and transitive |
| `ErrorHandling.EqualMeansSameHash` | src/Jasper/ErrorHandling/ScheduledRetryContinuation.cs:46-49 | equal continuations have equal hash codes |
| `ErrorHandling.ExecuteSchedulesDurableJob` | src/IntegrationTests/Persistence/SqlServer/Persistence/SqlServerBackedMessagePersistenceTests.cs:43-68 | on a channel without native scheduling, the retried envelope is afterwards found in the store as `Scheduled`, owned by any node, due at `utcNow + Delay` |

## Left out

- `Routing.SegmentPath`: the `SegmentPath` text of the segment classes (`Segment`, `RouteArgument`, `Spread`) is not part of this model. It is taken to be the literal text, `:` followed by the key, and `...`. `PatternReparses` and `ReclassifyPattern` depend on that assumption.
- `Routing.PatternReparses`: needs every argument key without `:` at its ends. A `{:key}` piece yields the key `:key`, whose pattern text `::key` reparses as `key`.
- `Routing.ToParameter`: `StartsWith(":")`, `StartsWith("{")` and `EndsWith("}")` in the source compare by the current culture, where ignorable code points such as a soft hyphen (U+00AD) do not count. The model compares character by character, so a piece such as soft hyphen followed by `:id` is an argument in the source but a literal in the model.
- Null arguments: the model's non-nullable types leave out these null-argument errors of the source:
  - a null `ISegment[]` passed to the segment constructor throws `ArgumentNullException` at `AddRange` (Route.cs line 65);
  - a null element of that array passes validation and throws `NullReferenceException` at `x.SegmentPath` (line 71);
  - a null `Uri` passed to `GetEndpoint`, `GetOrCreateEndpoint` or `ListenForMessagesFrom` throws `NullReferenceException` at `uri.Scheme` (TransportCollection.cs lines 53, 64, 80);
  - a null envelope passed to `Execute` throws `NullReferenceException` at line 21 of ScheduledRetryContinuation.cs, as does a null messaging root on the durable path (line 25);
  - a null channel passed to `Execute` fails the `is IHasNativeScheduling` test and takes the durable-store path.
- Route: the null `httpMethod` is modelled as a string: C# string interpolation renders null as `""`.
- Route: `IsSpread`, `For`, `LastSegment`/`CanonicalPath`, `ToParameters`, `ToUrlFromInputModel`, `ReadRouteDataFromMethodArguments` and `ToUrlFromParameters` are left out. They depend on reflection, input models and segment classes that are not part of this model.
- Route: the `VariableName` counter (`Count`), the handler, chain and type properties, and the `Lazy` wrapper around the arguments are left out. None of them affects the route's structure.
- Transports: `ListenForMessagesFrom(string)` is left out because it parses a `System.Uri`. `ListenAtPort` is left out because it needs `TcpEndpoint.ToUri`. `Publish` and `PublishAll` are left out because they build publishing expressions.
- Transports: the transport classes are not part of this model. `Transports.TryGetEndpoint`, `Transports.GetOrCreate` and `Transports.ListenTo` follow the transport contract assumed here: endpoints are looked up by URI, created on first use, cached, and of the transport's own type. Listener settings are reduced to a flag.
- Transports: enumeration and `Get<T>` follow the dictionary's insertion order. That order is how .NET's `Dictionary` enumerates when no key is ever removed.
- Transports: storing a null transport is not modelled, because `Add` reads `transport.Protocol` and would throw.
- RabbitMqRouting: `ReplyUri()` is a parameter about which nothing is assumed. In particular, it may give two addresses the same URI.
- RabbitMqRouting: the router's `Mode` comes from a base class that is not part of this model, and is taken as a field of the router.
- RabbitMqRouting: the registry is taken to be a `TransportCollection`. The `As<TransportCollection>()` cast of any other `IEndpoints` is not modelled.
- RabbitMqListening: the envelope mapper is a deterministic function of the delivery. It either returns an envelope, which may be null, or throws (`ReadThrew`).
- RabbitMqListening: logging, the `ITransportLogger` and the channel object are left out. The channel's ack/nack calls are recorded in the trace.
- `RabbitMqListening.RabbitMqListeningAgent.HandleBasicDeliver`: the ack or nack is recorded right after the dispatch. In the source, it is issued as a task continuation that may run after later deliveries. That interleaving is not modelled, although each delivery's own settlement is.
- RabbitMqListening: a `Received` that returns a null task is treated like one that throws. Either way the exception escapes and no settlement is made.
- Persistence: only the durable store's scheduling path is modelled: `ScheduleJob`, `AllIncomingEnvelopes` and lookup by id. The store's other operations are not part of this model.
- Messaging: only the envelope's id and execution time are modelled. The payload and routing headers are not used by this core.
- ErrorHandling: `ToString` of the continuation is left out, because it prints `Delay.TotalSeconds` as a floating-point number.
- ErrorHandling: the `messages` argument of `Execute` is not used by the source.
- ErrorHandling: the `Task` values returned by `MoveToScheduledUntil` and `ScheduleJob` are left out, as are `DateTime.Kind` and any status the store writes back into the envelope.
- `ErrorHandling.ScheduledRetryContinuation.Equals`: the runtime-type comparison is modelled as a class test. Dafny classes here have no subclasses, so sharing the class is the same as sharing the runtime type.
