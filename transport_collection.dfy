/** The transport registry: a table from URI scheme to transport, in the order the transports were
    first added, delegating endpoint lookups to the transport the scheme selects. */
module Transports {
  import opened Wrappers
  import opened Messaging

  /** The runtime type of a transport, which also fixes the type of the endpoints it creates. */
  datatype TransportKind = Tcp | Stub | Local | RabbitMq | OtherKind(name: string)

  /** An endpoint as a transport hands it out. */
  datatype Endpoint = Endpoint(uri: Uri, kind: TransportKind, isListener: bool)

  /** What a transport remembers about one endpoint it has created. */
  datatype EndpointState = EndpointState(isListener: bool)

  /** A transport: its scheme, its runtime type and the endpoints it has created so far. */
  datatype Transport = Transport(protocol: string, kind: TransportKind, cache: map<Uri, EndpointState>)

  const TcpProtocol: string := "tcp"
  const StubProtocol: string := "stub"
  const LocalProtocol: string := "local"

  /** A transport that has not created any endpoint yet. */
  function NewTransport(protocol: string, kind: TransportKind): (t: Transport)
    ensures t.protocol == protocol && t.kind == kind && t.cache == map[]
  {
    Transport(protocol, kind, map[])
  }

  /** The endpoint a transport holds for `uri`; it is of the transport's own type. */
  function EndpointAt(t: Transport, uri: Uri): (e: Endpoint)
    requires uri in t.cache
    ensures e.uri == uri && e.kind == t.kind && e.isListener == t.cache[uri].isListener
  {
    Endpoint(uri, t.kind, t.cache[uri].isListener)
  }

  /** `ITransport.TryGetEndpoint`: the cached endpoint, or null when none was created. */
  function TryGetEndpoint(t: Transport, uri: Uri): (r: Option<Endpoint>)
    ensures r.Some? <==> uri in t.cache
    ensures r.Some? ==> r.value == EndpointAt(t, uri)
  {
    if uri in t.cache then Some(EndpointAt(t, uri)) else None
  }

  /** `ITransport.GetOrCreateEndpoint`: the cached endpoint, creating and caching one on first use. */
  function GetOrCreate(t: Transport, uri: Uri): (r: (Transport, Endpoint))
    ensures r.0.protocol == t.protocol && r.0.kind == t.kind
    ensures uri in r.0.cache && r.1 == EndpointAt(r.0, uri)
    ensures uri in t.cache ==> r.0 == t
    ensures uri !in t.cache ==> r.0.cache == t.cache[uri := EndpointState(false)]
  {
    if uri in t.cache then (t, EndpointAt(t, uri))
    else
      var t' := t.(cache := t.cache[uri := EndpointState(false)]);
      (t', EndpointAt(t', uri))
  }

  /** `ITransport.ListenTo`: the endpoint for `uri`, created if needed, marked as a listener. */
  function ListenTo(t: Transport, uri: Uri): (r: (Transport, Endpoint))
    ensures r.0.protocol == t.protocol && r.0.kind == t.kind
    ensures r.0.cache == t.cache[uri := EndpointState(true)]
    ensures r.1 == EndpointAt(r.0, uri) && r.1.isListener
  {
    var t' := t.(cache := t.cache[uri := EndpointState(true)]);
    (t', EndpointAt(t', uri))
  }

  /** The ways the registry's operations fail. */
  datatype RegistryError =
    | KeyNotFound(key: string)          // the dictionary indexer's KeyNotFoundException
    | UnknownTransport(scheme: string)  // ListenForMessagesFrom's ArgumentOutOfRangeException

  /** What `ListenForMessagesFrom` hands back: the configuration wrapper around the listening endpoint. */
  datatype ListenerConfiguration = ListenerConfiguration(endpoint: Endpoint)

  /** The registry's state: the dictionary's entries and the order its keys were first added in. */
  datatype Registry = Registry(table: map<string, Transport>, order: seq<string>)

  /** An operation's result paired with the registry state it leaves behind. */
  datatype Resolved = Resolved(registry: Registry, endpoint: Endpoint)

  /** Every key is listed once in `order`, and every transport is filed under its own protocol. */
  ghost predicate Valid(r: Registry) {
    && (forall i, j :: 0 <= i < j < |r.order| ==> r.order[i] != r.order[j])
    && (forall k :: k in r.order <==> k in r.table)
    && (forall k :: k in r.table ==> r.table[k].protocol == k)
  }

  /** The empty dictionary. */
  function EmptyRegistry(): (r: Registry)
    ensures Valid(r) && r.table == map[] && r.order == []
  {
    Registry(map[], [])
  }

  /** `Add`, via `SmartAdd`: file the transport under its protocol, replacing an earlier entry in place. */
  function AddTo(r: Registry, t: Transport): (r': Registry)
    ensures t.protocol in r'.table && r'.table[t.protocol] == t
    ensures r'.table.Keys == r.table.Keys + {t.protocol}
    ensures forall k :: k in r.table && k != t.protocol ==> r'.table[k] == r.table[k]
    ensures t.protocol in r.table ==> r'.order == r.order
    ensures t.protocol !in r.table ==> r'.order == r.order + [t.protocol]
  {
    Registry(r.table[t.protocol := t],
             if t.protocol in r.table then r.order else r.order + [t.protocol])
  }

  /** `Add` keeps the registry valid: keys stay listed once each, every transport under its own protocol. */
  lemma AddKeepsValid(r: Registry, t: Transport)
    requires Valid(r)
    ensures Valid(AddTo(r, t))
  {
  }

  /** The state of a new collection: the TCP, stub and local transports, in that order. */
  function InitialRegistry(): (r: Registry)
    ensures r.order == [TcpProtocol, StubProtocol, LocalProtocol]
    ensures r.table.Keys == {TcpProtocol, StubProtocol, LocalProtocol}
  {
    AddTo(AddTo(AddTo(EmptyRegistry(), NewTransport(TcpProtocol, Tcp)),
                NewTransport(StubProtocol, Stub)),
          NewTransport(LocalProtocol, Local))
  }

  /** A new collection holds exactly the three built-in transports, each keyed by its protocol. */
  lemma InitialContents()
    ensures var r := InitialRegistry();
            && Valid(r)
            && r.order == [TcpProtocol, StubProtocol, LocalProtocol]
            && r.table.Keys == {TcpProtocol, StubProtocol, LocalProtocol}
            && r.table[TcpProtocol] == NewTransport(TcpProtocol, Tcp)
            && r.table[StubProtocol] == NewTransport(StubProtocol, Stub)
            && r.table[LocalProtocol] == NewTransport(LocalProtocol, Local)
  {
    var r0 := EmptyRegistry();
    var t0, t1, t2 := NewTransport(TcpProtocol, Tcp), NewTransport(StubProtocol, Stub), NewTransport(LocalProtocol, Local);
    AddKeepsValid(r0, t0);
    AddKeepsValid(AddTo(r0, t0), t1);
    AddKeepsValid(AddTo(AddTo(r0, t0), t1), t2);
  }

  /** `_transports.Values`: the transports in key order. */
  function Values(r: Registry): (ts: seq<Transport>)
    requires Valid(r)
    ensures |ts| == |r.order|
    ensures forall i :: 0 <= i < |ts| ==> ts[i] == r.table[r.order[i]]
  {
    seq(|r.order|, i requires 0 <= i < |r.order| => r.table[r.order[i]])
  }

  /** Enumeration yields exactly the registered transports, one per protocol key. */
  lemma ValuesOnePerKey(r: Registry)
    requires Valid(r)
    ensures var ts := Values(r);
            && (forall t :: t in ts <==> exists k :: k in r.table && r.table[k] == t)
            && (forall i, j :: 0 <= i < j < |ts| ==> ts[i].protocol != ts[j].protocol)
            && (forall k :: k in r.table ==> |set i | 0 <= i < |ts| && ts[i].protocol == k| == 1)
  {
    var ts := Values(r);
    forall t | t in ts
      ensures exists k :: k in r.table && r.table[k] == t
    {
      var i :| 0 <= i < |ts| && ts[i] == t;
      assert r.order[i] in r.table;
    }
    forall t | exists k :: k in r.table && r.table[k] == t
      ensures t in ts
    {
      var k :| k in r.table && r.table[k] == t;
      var i :| 0 <= i < |r.order| && r.order[i] == k;
      assert ts[i] == t;
    }
    forall k | k in r.table
      ensures |set i | 0 <= i < |ts| && ts[i].protocol == k| == 1
    {
      var i :| 0 <= i < |r.order| && r.order[i] == k;
      var s := set i | 0 <= i < |ts| && ts[i].protocol == k;
      assert ts[i].protocol == k by { assert r.order[i] in r.table; }
      forall j | j in s ensures j == i {
        assert r.order[j] in r.table;
      }
      assert s == {i};
    }
  }

  /** `OfType<T>().FirstOrDefault()`: the first transport of the given type, or null. */
  function FirstOfKind(ts: seq<Transport>, kind: TransportKind): (r: Option<Transport>)
    ensures r.None? <==> forall i :: 0 <= i < |ts| ==> ts[i].kind != kind
    ensures r.Some? ==> exists i :: 0 <= i < |ts| && ts[i] == r.value && r.value.kind == kind
                                   && forall j :: 0 <= j < i ==> ts[j].kind != kind
  {
    if ts == [] then None
    else if ts[0].kind == kind then Some(ts[0])
    else
      var r := FirstOfKind(ts[1..], kind);
      assert r.Some? ==> exists i :: 1 <= i < |ts| && ts[i] == r.value && r.value.kind == kind
                                    && forall j :: 0 <= j < i ==> ts[j].kind != kind by {
        if r.Some? {
          var i :| 0 <= i < |ts[1..]| && ts[1..][i] == r.value && r.value.kind == kind
                   && forall j :: 0 <= j < i ==> ts[1..][j].kind != kind;
          assert forall j :: 1 <= j < i + 1 ==> ts[j] == ts[1..][j - 1];
        }
      }
      r
  }

  /** `TransportForScheme`: the dictionary indexer, which throws for a scheme nobody registered. */
  function Lookup(r: Registry, scheme: string): (res: Result<Transport, RegistryError>)
    requires Valid(r)
    ensures res.Success? <==> scheme in r.table
    ensures res.Success? ==> res.value == r.table[scheme] && res.value.protocol == scheme
    ensures res.Failure? ==> res.error == KeyNotFound(scheme)
  {
    if scheme in r.table then Success(r.table[scheme]) else Failure(KeyNotFound(scheme))
  }

  /** `GetEndpoint`: look the transport up by the URI's scheme and ask it for its cached endpoint. */
  function GetEndpointIn(r: Registry, uri: Uri): (res: Result<Option<Endpoint>, RegistryError>)
    requires Valid(r)
    ensures res.Failure? <==> uri.scheme !in r.table
    ensures res.Failure? ==> res.error == KeyNotFound(uri.scheme)
    ensures res.Success? ==> res.value == TryGetEndpoint(r.table[uri.scheme], uri)
  {
    var t :- Lookup(r, uri.scheme);
    Success(TryGetEndpoint(t, uri))
  }

  /** `GetOrCreateEndpoint`: look the transport up by the URI's scheme and let it get or create the
      endpoint; the selected transport's updated cache is the only change to the registry. */
  function GetOrCreateIn(r: Registry, uri: Uri): (res: Result<Resolved, RegistryError>)
    requires Valid(r)
    ensures res.Failure? <==> uri.scheme !in r.table
    ensures res.Failure? ==> res.error == KeyNotFound(uri.scheme)
    ensures res.Success? ==> Valid(res.value.registry)
    ensures res.Success? ==>
              var (t', e) := GetOrCreate(r.table[uri.scheme], uri);
              res.value == Resolved(Registry(r.table[uri.scheme := t'], r.order), e)
  {
    var t :- Lookup(r, uri.scheme);
    var (t', e) := GetOrCreate(t, uri);
    Success(Resolved(Registry(r.table[uri.scheme := t'], r.order), e))
  }

  /** `ListenForMessagesFrom`: an unregistered scheme is an ArgumentOutOfRangeException; otherwise the
      selected transport's `ListenTo`, wrapped in a listener configuration. */
  function ListenIn(r: Registry, uri: Uri): (res: Result<(Registry, ListenerConfiguration), RegistryError>)
    requires Valid(r)
    ensures res.Failure? <==> uri.scheme !in r.table
    ensures res.Failure? ==> res.error == UnknownTransport(uri.scheme)
    ensures res.Success? ==>
              var (t', e) := ListenTo(r.table[uri.scheme], uri);
              res.value == (Registry(r.table[uri.scheme := t'], r.order), ListenerConfiguration(e))
  {
    if uri.scheme in r.table then
      var (t', e) := ListenTo(r.table[uri.scheme], uri);
      Success((Registry(r.table[uri.scheme := t'], r.order), ListenerConfiguration(e)))
    else Failure(UnknownTransport(uri.scheme))
  }

  /** Getting or creating an endpoint keeps the registry valid, changes no key and no other transport,
      and returns an endpoint for exactly that URI of the selected transport's type. */
  lemma GetOrCreateFrame(r: Registry, uri: Uri)
    requires Valid(r)
    requires uri.scheme in r.table
    ensures var res := GetOrCreateIn(r, uri);
            && res.Success?
            && Valid(res.value.registry)
            && res.value.registry.order == r.order
            && res.value.registry.table.Keys == r.table.Keys
            && (forall k :: k in r.table && k != uri.scheme ==> res.value.registry.table[k] == r.table[k])
            && res.value.endpoint.uri == uri
            && res.value.endpoint.kind == r.table[uri.scheme].kind
  {
  }

  /** Get-or-create is idempotent: asking again for the same URI returns the same endpoint and
      leaves the registry as the first call left it. */
  lemma {:induction false} GetOrCreateIdempotent(r: Registry, uri: Uri)
    requires Valid(r)
    requires GetOrCreateIn(r, uri).Success?
    ensures var first := GetOrCreateIn(r, uri).value;
            Valid(first.registry) && GetOrCreateIn(first.registry, uri) == Success(first)
  {
    GetOrCreateFrame(r, uri);
    var first := GetOrCreateIn(r, uri).value;
    var t' := first.registry.table[uri.scheme];
    assert uri in t'.cache;
    assert first.registry.table[uri.scheme := t'] == first.registry.table;
  }

  /** After get-or-create, `GetEndpoint` finds the very endpoint that was handed out. */
  lemma GetEndpointAfterCreate(r: Registry, uri: Uri)
    requires Valid(r)
    requires GetOrCreateIn(r, uri).Success?
    ensures var first := GetOrCreateIn(r, uri).value;
            Valid(first.registry) && GetEndpointIn(first.registry, uri) == Success(Some(first.endpoint))
  {
    GetOrCreateFrame(r, uri);
  }

  /** The three lookups fail exactly for the same URIs: those whose scheme no transport serves. */
  lemma LookupsFailTogether(r: Registry, uri: Uri)
    requires Valid(r)
    ensures GetEndpointIn(r, uri).Failure? <==> GetOrCreateIn(r, uri).Failure?
    ensures GetOrCreateIn(r, uri).Failure? <==> ListenIn(r, uri).Failure?
    ensures ListenIn(r, uri).Failure? <==> Lookup(r, uri.scheme).Failure?
  {
  }

  /** The registry as an object: the `_transports` dictionary, updated in place. */
  class TransportCollection {
    var transports: map<string, Transport>
    var order: seq<string>

    /** The registry state held by the fields. */
    function State(): Registry
      reads this
    {
      Registry(transports, order)
    }

    ghost predicate Inv()
      reads this
    {
      Valid(State())
    }

    /** The constructor registers the TCP, stub and local transports. */
    constructor ()
      ensures Inv() && State() == InitialRegistry()
    {
      transports := map[];
      order := [];
      new;
      Add(NewTransport(TcpProtocol, Tcp));
      Add(NewTransport(StubProtocol, Stub));
      Add(NewTransport(LocalProtocol, Local));
    }

    /** `Add`, i.e. `SmartAdd(transport.Protocol, transport)`. */
    method Add(transport: Transport)
      requires Inv()
      modifies this
      ensures Inv() && State() == AddTo(old(State()), transport)
    {
      AddKeepsValid(State(), transport);
      if transport.protocol !in transports {
        order := order + [transport.protocol];
      }
      transports := transports[transport.protocol := transport];
    }

    /** `TransportForScheme`. */
    function TransportForScheme(scheme: string): (res: Result<Transport, RegistryError>)
      requires Inv()
      reads this
      ensures res.Success? <==> scheme in transports
      ensures res.Success? ==> res.value == transports[scheme]
    {
      Lookup(State(), scheme)
    }

    /** `Get<T>()`, with the type argument given as a transport kind. */
    function Get(kind: TransportKind): (res: Option<Transport>)
      requires Inv()
      reads this
      ensures res.Some? ==> res.value.kind == kind && res.value.protocol in transports
                            && transports[res.value.protocol] == res.value
      ensures res.None? <==> forall k :: k in transports ==> transports[k].kind != kind
    {
      var ts := Values(State());
      var res := FirstOfKind(ts, kind);
      assert res.Some? ==> res.value.protocol in transports && transports[res.value.protocol] == res.value by {
        if res.Some? {
          var i :| 0 <= i < |ts| && ts[i] == res.value;
          assert order[i] in transports;
        }
      }
      assert (forall i :: 0 <= i < |ts| ==> ts[i].kind != kind) ==>
             forall k :: k in transports ==> transports[k].kind != kind by {
        forall k | k in transports ensures k in order { }
      }
      res
    }

    /** `GetEnumerator()`: the registered transports. */
    function Enumerate(): (ts: seq<Transport>)
      requires Inv()
      reads this
      ensures |ts| == |transports|
      ensures forall t :: t in ts <==> exists k :: k in transports && transports[k] == t
    {
      ValuesOnePerKey(State());
      DistinctOrderCoversKeys(order, transports.Keys);
      Values(State())
    }

    /** `GetEndpoint(uri)`. */
    function GetEndpoint(uri: Uri): (res: Result<Option<Endpoint>, RegistryError>)
      requires Inv()
      reads this
      ensures res.Failure? <==> uri.scheme !in transports
      ensures res.Success? && res.value.Some? ==>
                res.value.value.uri == uri && res.value.value.kind == transports[uri.scheme].kind
    {
      GetEndpointIn(State(), uri)
    }

    /** `GetOrCreateEndpoint(uri)`: on success the selected transport's cache is updated in place. */
    method GetOrCreateEndpoint(uri: Uri) returns (res: Result<Endpoint, RegistryError>)
      requires Inv()
      modifies this
      ensures Inv()
      ensures var expected := GetOrCreateIn(old(State()), uri);
              && (expected.Success? ==> State() == expected.value.registry && res == Success(expected.value.endpoint))
              && (expected.Failure? ==> State() == old(State()) && res == Failure(expected.error))
    {
      if uri.scheme !in transports {
        return Failure(KeyNotFound(uri.scheme));
      }
      GetOrCreateFrame(State(), uri);
      var (t', e) := GetOrCreate(transports[uri.scheme], uri);
      transports := transports[uri.scheme := t'];
      return Success(e);
    }

    /** `ListenForMessagesFrom(uri)`. */
    method ListenForMessagesFrom(uri: Uri) returns (res: Result<ListenerConfiguration, RegistryError>)
      requires Inv()
      modifies this
      ensures Inv()
      ensures var expected := ListenIn(old(State()), uri);
              && (expected.Success? ==> State() == expected.value.0 && res == Success(expected.value.1))
              && (expected.Failure? ==> State() == old(State()) && res == Failure(expected.error))
    {
      if uri.scheme in transports {
        var (t', e) := ListenTo(transports[uri.scheme], uri);
        transports := transports[uri.scheme := t'];
        return Success(ListenerConfiguration(e));
      } else {
        return Failure(UnknownTransport(uri.scheme));
      }
    }
  }

  /** A duplicate-free listing of a set is as long as the set is large. */
  lemma {:induction false} DistinctOrderCoversKeys(order: seq<string>, keys: set<string>)
    requires forall i, j :: 0 <= i < j < |order| ==> order[i] != order[j]
    requires forall k :: k in order <==> k in keys
    ensures |order| == |keys|
    decreases |order|
  {
    if order != [] {
      var last := order[|order| - 1];
      var rest := order[..|order| - 1];
      assert forall k :: k in rest <==> k in keys - {last} by {
        forall k ensures k in rest <==> k in keys - {last} {
          if k in rest {
            var i :| 0 <= i < |rest| && rest[i] == k;
            assert order[i] == k;
          }
          if k in keys - {last} {
            var i :| 0 <= i < |order| && order[i] == k;
            assert i != |order| - 1;
            assert rest[i] == k;
          }
        }
      }
      DistinctOrderCoversKeys(rest, keys - {last});
    } else {
      assert forall k :: k !in keys;
      assert keys == {};
    }
  }
}
