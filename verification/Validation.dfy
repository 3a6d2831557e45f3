/** Which manifests are accepted. */
module Validation {
  import opened Ids
  import opened Manifest

  datatype ValidationError =
    | DuplicateFunctionName(name: string)
    | DuplicateTableName(name: string)
    | DuplicateGatewayName(name: string)
    | DuplicateStorageName(name: string)
    | UnknownFunctionInGateway(functionName: string, gateway: string)
    | DuplicateEndpointInGateway(gateway: string, path: string, httpMethod: HttpMethod)

  datatype Kind = Functions | Tables | Gateways | Storages

  function KindOf(s: Service): Kind {
    match s
    case KeyValueTable(_, _) => Tables
    case Storage(_, _) => Storages
    case Gateway(_, _) => Gateways
    case Function(_, _, _, _, _) => Functions
  }

  /** The services of one kind, in order. */
  function OfKind(services: seq<Service>, kind: Kind): (r: seq<Service>)
    ensures forall s :: s in r <==> s in services && KindOf(s) == kind
  {
    if services == [] then []
    else
      var init, last := services[..|services| - 1], services[|services| - 1];
      assert services == init + [last];
      if KindOf(last) == kind then OfKind(init, kind) + [last] else OfKind(init, kind)
  }

  function Names(services: seq<Service>, kind: Kind): seq<string> {
    var all := OfKind(services, kind);
    seq(|all|, i requires 0 <= i < |all| => all[i].name)
  }

  ghost predicate Named(services: seq<Service>, kind: Kind, name: string) {
    exists s <- services :: KindOf(s) == kind && s.name == name
  }

  ghost predicate AllDistinct<T>(items: seq<T>) {
    forall i, j :: 0 <= i < j < |items| ==> items[i] != items[j]
  }

  /** No two services of the kind share a name. */
  ghost predicate UniqueNames(services: seq<Service>, kind: Kind) {
    forall i, j :: 0 <= i < j < |services| && KindOf(services[i]) == kind && KindOf(services[j]) == kind ==>
      services[i].name != services[j].name
  }

  lemma {:induction false} UniqueExtended(init: seq<Service>, last: Service, kind: Kind)
    ensures UniqueNames(init + [last], kind) <==>
      UniqueNames(init, kind) && (KindOf(last) == kind ==> !Named(init, kind, last.name))
  {
    var services := init + [last];
    if UniqueNames(services, kind) {
      forall i | 0 <= i < |init| && KindOf(init[i]) == kind && KindOf(last) == kind
        ensures init[i].name != last.name
      {
        assert services[i] == init[i] && services[|init|] == last;
      }
      forall i, j | 0 <= i < j < |init| && KindOf(init[i]) == kind && KindOf(init[j]) == kind
        ensures init[i].name != init[j].name
      {
        assert services[i] == init[i] && services[j] == init[j];
      }
    }
  }

  /** Listing the names of one kind loses no repetition and adds none. */
  lemma {:induction false} NamesDistinct(services: seq<Service>, kind: Kind)
    ensures AllDistinct(Names(services, kind)) <==> UniqueNames(services, kind)
  {
    if services != [] {
      var init, last := services[..|services| - 1], services[|services| - 1];
      NamesDistinct(init, kind);
      assert services == init + [last];
      UniqueExtended(init, last, kind);
      NamesExtended(init, last, kind);
      DistinctExtended(Names(init, kind), last.name);
      NameListed(init, kind, last.name);
    }
  }

  lemma {:induction false} NamesExtended(init: seq<Service>, last: Service, kind: Kind)
    ensures Names(init + [last], kind) == Names(init, kind) + if KindOf(last) == kind then [last.name] else []
  {
    assert (init + [last])[..|init|] == init;
  }

  lemma {:induction false} DistinctExtended<T>(items: seq<T>, last: T)
    ensures AllDistinct(items + [last]) <==> AllDistinct(items) && last !in items
  {
    if AllDistinct(items + [last]) {
      forall i | 0 <= i < |items|
        ensures items[i] != last
      {
        assert (items + [last])[i] != (items + [last])[|items|];
      }
      forall i, j | 0 <= i < j < |items|
        ensures items[i] != items[j]
      {
        assert (items + [last])[i] != (items + [last])[j];
      }
    }
  }

  lemma {:induction false} DistinctConcat<T>(a: seq<T>, b: seq<T>)
    requires AllDistinct(a) && AllDistinct(b) && forall x <- b :: x !in a
    ensures AllDistinct(a + b)
  {
    forall i, j | 0 <= i < j < |a + b|
      ensures (a + b)[i] != (a + b)[j]
    {
      if i < |a| <= j {
        assert (a + b)[i] in a && (a + b)[j] in b;
      }
    }
  }

  lemma {:induction false} NameListed(services: seq<Service>, kind: Kind, name: string)
    ensures name in Names(services, kind) <==> Named(services, kind, name)
  {
    var kept := OfKind(services, kind);
    if name in Names(services, kind) {
      var k :| 0 <= k < |kept| && kept[k].name == name;
      assert kept[k] in services;
    }
    if s :| s in services && KindOf(s) == kind && s.name == name {
      var k :| 0 <= k < |kept| && kept[k] == s;
      assert Names(services, kind)[k] == name;
    }
  }

  ghost predicate Declared(stack: Stack, name: string) {
    exists f <- stack.services :: f.Function? && f.name == name
  }

  /** Some endpoint of the gateway is routed to the assembly. */
  ghost predicate RoutesToAssembly(gateway: Service, assembly: string)
    requires gateway.Gateway?
  {
    exists path <- gateway.endpoints, m | m in gateway.endpoints[path] ::
      gateway.endpoints[path][m].assembly == assembly
  }

  ghost predicate RoutesDeclared(stack: Stack, gateway: Service)
    requires gateway.Gateway?
  {
    forall path <- gateway.endpoints, m | m in gateway.endpoints[path] ::
      Declared(stack, gateway.endpoints[path][m].assembly)
  }

  /** Names are unique per kind and every endpoint names a declared function. */
  ghost predicate Acceptable(stack: Stack) {
    && (forall kind :: UniqueNames(stack.services, kind))
    && (forall g <- stack.services :: g.Gateway? ==> RoutesDeclared(stack, g))
  }

  // ---- The checks ----

  /** The first item that repeats an earlier one. */
  method EnsureAllUnique<T(==)>(items: seq<T>) returns (repeated: Option<T>)
    ensures repeated.None? <==> AllDistinct(items)
    ensures repeated.Some? ==>
      exists i :: 0 <= i < |items| && items[i] == repeated.value && items[i] in items[..i] && AllDistinct(items[..i])
  {
    var seen := {};
    for i := 0 to |items|
      invariant seen == set k | 0 <= k < i :: items[k]
      invariant AllDistinct(items[..i])
    {
      if items[i] in seen {
        return Some(items[i]);
      }
      seen := seen + {items[i]};
    }
    assert items[..|items|] == items;
    return None;
  }

  /** The path and method of every endpoint, in some order; a map lists none twice. */
  method ListEndpoints(endpoints: map<string, Routes>) returns (list: seq<(string, HttpMethod)>)
    ensures AllDistinct(list)
    ensures forall path, m :: (path, m) in list <==> path in endpoints && m in endpoints[path]
  {
    list := [];
    var paths := endpoints.Keys;
    while paths != {}
      invariant paths <= endpoints.Keys
      invariant AllDistinct(list)
      invariant forall path, m :: (path, m) in list <==> path in endpoints && path !in paths && m in endpoints[path]
      decreases paths
    {
      var path :| path in paths;
      var more := ListMethods(path, endpoints[path].Keys);
      forall x | x in more
        ensures x !in list
      {
        assert x == (x.0, x.1);
      }
      DistinctConcat(list, more);
      list := list + more;
      paths := paths - {path};
    }
  }

  method ListMethods(path: string, methods: set<HttpMethod>) returns (list: seq<(string, HttpMethod)>)
    ensures AllDistinct(list)
    ensures forall p, m :: (p, m) in list <==> p == path && m in methods
  {
    list := [];
    var left := methods;
    while left != {}
      invariant left <= methods
      invariant AllDistinct(list)
      invariant forall p, m :: (p, m) in list <==> p == path && m in methods && m !in left
      decreases left
    {
      var m :| m in left;
      DistinctExtended(list, (path, m));
      list := list + [(path, m)];
      left := left - {m};
    }
  }

  /** An endpoint of the gateway whose assembly is no declared function, if there is one. */
  method FindUndeclared(stack: Stack, gateway: Service) returns (assembly: Option<string>)
    requires gateway.Gateway?
    ensures assembly.None? <==> RoutesDeclared(stack, gateway)
    ensures assembly.Some? ==> RoutesToAssembly(gateway, assembly.value) && !Declared(stack, assembly.value)
  {
    var list := ListEndpoints(gateway.endpoints);
    for i := 0 to |list|
      invariant forall k :: 0 <= k < i ==> Declared(stack, gateway.endpoints[list[k].0][list[k].1].assembly)
    {
      assert list[i] == (list[i].0, list[i].1) && list[i] in list;
      var target := gateway.endpoints[list[i].0][list[i].1].assembly;
      if !(exists f <- stack.services :: f.Function? && f.name == target) {
        return Some(target);
      }
    }
    return None;
  }

  /** The first gateway that routes to something undeclared. */
  method EnsureGatewayFunctionsCorrect(stack: Stack) returns (error: Option<ValidationError>)
    ensures error.None? <==> forall g <- stack.services :: g.Gateway? ==> RoutesDeclared(stack, g)
    ensures error.Some? ==> error.value.UnknownFunctionInGateway? && !Declared(stack, error.value.functionName)
    ensures error.Some? ==> exists g <- stack.services ::
      g.Gateway? && g.name == error.value.gateway && RoutesToAssembly(g, error.value.functionName)
  {
    var gateways := OfKind(stack.services, Gateways);
    for i := 0 to |gateways|
      invariant forall k :: 0 <= k < i ==> gateways[k].Gateway? && RoutesDeclared(stack, gateways[k])
    {
      assert gateways[i] in gateways;
      var assembly := FindUndeclared(stack, gateways[i]);
      if assembly.Some? {
        return Some(UnknownFunctionInGateway(assembly.value, gateways[i].name));
      }
    }
    return None;
  }

  /** The first name of the kind that repeats an earlier one. */
  ghost predicate Repeated(stack: Stack, kind: Kind, name: string) {
    var names := Names(stack.services, kind);
    exists i :: 0 <= i < |names| && names[i] == name && names[i] in names[..i] && AllDistinct(names[..i])
  }

  method CheckNames(stack: Stack, kind: Kind) returns (repeated: Option<string>)
    ensures repeated.None? <==> UniqueNames(stack.services, kind)
    ensures repeated.Some? ==> Repeated(stack, kind, repeated.value)
  {
    NamesDistinct(stack.services, kind);
    repeated := EnsureAllUnique(Names(stack.services, kind));
  }

  method EnsureEndpointsUnique(
    gateway: string, list: seq<(string, HttpMethod)>) returns (error: Option<ValidationError>)
    ensures error.None? <==> AllDistinct(list)
    ensures error.Some? ==> error.value.DuplicateEndpointInGateway? && error.value.gateway == gateway
    ensures error.Some? ==> (error.value.path, error.value.httpMethod) in list
  {
    var repeated := EnsureAllUnique(list);
    if repeated.None? {
      return None;
    }
    return Some(DuplicateEndpointInGateway(gateway, repeated.value.0, repeated.value.1));
  }

  /** What an error says about the stack, and which earlier checks it passed. */
  ghost predicate Explains(stack: Stack, e: ValidationError) {
    match e
    case DuplicateFunctionName(name) => Repeated(stack, Functions, name)
    case DuplicateTableName(name) => UniqueNames(stack.services, Functions) && Repeated(stack, Tables, name)
    case DuplicateGatewayName(name) =>
      UniqueNames(stack.services, Functions) && UniqueNames(stack.services, Tables) && Repeated(stack, Gateways, name)
    case DuplicateStorageName(name) =>
      && UniqueNames(stack.services, Functions) && UniqueNames(stack.services, Tables)
      && UniqueNames(stack.services, Gateways)
      && Repeated(stack, Storages, name)
    case UnknownFunctionInGateway(assembly, gateway) =>
      && (forall kind :: UniqueNames(stack.services, kind))
      && !Declared(stack, assembly)
      && exists g <- stack.services :: g.Gateway? && g.name == gateway && RoutesToAssembly(g, assembly)
    case DuplicateEndpointInGateway(_, _, _) => false
  }

  /** Accepts exactly the acceptable stacks; a refusal gives a true reason. The last check can never fail. */
  method Validate(stack: Stack) returns (error: Option<ValidationError>)
    ensures error.None? <==> Acceptable(stack)
    ensures error.Some? ==> Explains(stack, error.value)
  {
    var repeated := CheckNames(stack, Functions);
    if repeated.Some? {
      return Some(DuplicateFunctionName(repeated.value));
    }
    repeated := CheckNames(stack, Tables);
    if repeated.Some? {
      return Some(DuplicateTableName(repeated.value));
    }
    repeated := CheckNames(stack, Gateways);
    if repeated.Some? {
      return Some(DuplicateGatewayName(repeated.value));
    }
    repeated := CheckNames(stack, Storages);
    if repeated.Some? {
      return Some(DuplicateStorageName(repeated.value));
    }
    forall kind
      ensures UniqueNames(stack.services, kind)
    {
      match kind
      case Functions =>
      case Tables =>
      case Gateways =>
      case Storages =>
    }
    error := EnsureGatewayFunctionsCorrect(stack);
    if error.Some? {
      return;
    }
    var gateways := OfKind(stack.services, Gateways);
    for i := 0 to |gateways|
      invariant error.None?
    {
      assert gateways[i] in gateways;
      var list := ListEndpoints(gateways[i].endpoints);
      var repeatedEndpoint := EnsureEndpointsUnique(gateways[i].name, list);
      if repeatedEndpoint.Some? {
        error := repeatedEndpoint;
      }
    }
  }

  // ---- Validation and conversion ----

  /** Defaulting a `delete` flag changes nothing that validation looks at. */
  lemma {:induction false} DefaultedAcceptable(s: Stack)
    ensures Acceptable(StackDefaulted(s)) <==> Acceptable(s)
  {
    var d := StackDefaulted(s);
    forall i | 0 <= i < |s.services|
      ensures KindOf(d.services[i]) == KindOf(s.services[i]) && d.services[i].name == s.services[i].name
      ensures s.services[i].Gateway? || s.services[i].Function? ==> d.services[i] == s.services[i]
    {
      assert d.services[i] == Defaulted(s.services[i]);
    }
    forall kind
      ensures UniqueNames(d.services, kind) <==> UniqueNames(s.services, kind)
    {
    }
    forall service: Service | service.Gateway? || service.Function?
      ensures service in d.services <==> service in s.services
    {
      if service in s.services {
        var i :| 0 <= i < |s.services| && s.services[i] == service;
        assert d.services[i] == service;
      }
      if service in d.services {
        var i :| 0 <= i < |d.services| && d.services[i] == service;
        assert s.services[i] == service;
      }
    }
    forall name
      ensures Declared(d, name) <==> Declared(s, name)
    {
    }
  }

  /** A stack that went through its protobuf form is accepted exactly when the original is. */
  lemma {:induction false} ConversionKeepsValidity(s: Stack, p: ProtoStack)
    requires StackTo(s, p)
    ensures StackFrom(p).Ok? && (Acceptable(StackFrom(p).value) <==> Acceptable(s))
  {
    StackRoundTrip(s, p);
    DefaultedAcceptable(s);
  }
}
