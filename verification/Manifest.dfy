/** Stack manifests, their protobuf form, and the conversions both ways. */
module Manifest {
  import opened Ids

  datatype HttpMethod = Get | Head | Post | Put | Patch | Delete | Options

  datatype AssemblyRuntime = Wasi1_0

  datatype AssemblyAndFunction = AssemblyAndFunction(assembly: string, functionName: string)

  type Routes = map<HttpMethod, AssemblyAndFunction>

  datatype Service =
    | KeyValueTable(name: string, delete: Option<bool>)
    | Storage(name: string, delete: Option<bool>)
    | Gateway(name: string, endpoints: map<string, Routes>)
    | Function(name: string, binary: string, runtime: AssemblyRuntime, env: map<string, string>, memoryLimit: U64)

  datatype Stack = Stack(name: string, version: string, services: seq<Service>)

  // ---- The protobuf form. An enum field holds any number on the wire ----

  datatype ProtoEndpoint = ProtoEndpoint(httpMethod: int, routeToAssembly: string, routeToFunction: string)

  datatype ProtoEndpoints = ProtoEndpoints(path: string, endpoints: seq<ProtoEndpoint>)

  datatype ProtoEnv = ProtoEnv(name: string, value: string)

  datatype ProtoService =
    | Blank
    | ProtoTable(name: string, delete: bool)
    | ProtoStorage(name: string, delete: bool)
    | ProtoGateway(name: string, endpoints: seq<ProtoEndpoints>)
    | ProtoFunction(name: string, binary: string, runtime: int, env: seq<ProtoEnv>, memoryLimit: U64)

  datatype ProtoStack = ProtoStack(name: string, version: string, services: seq<ProtoService>)

  function MethodNumber(m: HttpMethod): int {
    match m
    case Get => 0
    case Head => 1
    case Post => 2
    case Put => 3
    case Patch => 4
    case Delete => 5
    case Options => 6
  }

  function RuntimeNumber(r: AssemblyRuntime): int {
    match r
    case Wasi1_0 => 0
  }

  /** The numbers that stand for methods and runtimes on the wire. */
  lemma {:induction false} WireNumbers()
    ensures MethodNumber(Get) == 0 && MethodNumber(Head) == 1 && MethodNumber(Post) == 2 && MethodNumber(Put) == 3
    ensures MethodNumber(Patch) == 4 && MethodNumber(HttpMethod.Delete) == 5 && MethodNumber(Options) == 6
    ensures RuntimeNumber(Wasi1_0) == 0
  {
  }

  // ---- To protobuf, for any order in which the maps are iterated ----

  /** Each key once, in some order. */
  ghost predicate Iterates<K(!new), V>(m: map<K, V>, keys: seq<K>) {
    && (forall k :: k in keys <==> k in m)
    && (forall i, j :: 0 <= i < j < |keys| ==> keys[i] != keys[j])
  }

  function IsTrue(delete: Option<bool>): bool {
    delete.Some? && delete.value
  }

  function EndpointTo(m: HttpMethod, target: AssemblyAndFunction): ProtoEndpoint {
    ProtoEndpoint(MethodNumber(m), target.assembly, target.functionName)
  }

  ghost predicate RoutesTo(routes: Routes, keys: seq<HttpMethod>, list: seq<ProtoEndpoint>) {
    && Iterates(routes, keys)
    && |list| == |keys|
    && (forall i :: 0 <= i < |keys| ==> list[i] == EndpointTo(keys[i], routes[keys[i]]))
  }

  ghost predicate RoutesForm(routes: Routes, list: seq<ProtoEndpoint>) {
    exists keys :: RoutesTo(routes, keys, list)
  }

  ghost predicate EndpointsTo(endpoints: map<string, Routes>, keys: seq<string>, list: seq<ProtoEndpoints>) {
    && Iterates(endpoints, keys)
    && |list| == |keys|
    && (forall i :: 0 <= i < |keys| ==>
          list[i].path == keys[i] && RoutesForm(endpoints[keys[i]], list[i].endpoints))
  }

  ghost predicate EnvTo(env: map<string, string>, keys: seq<string>, list: seq<ProtoEnv>) {
    && Iterates(env, keys)
    && |list| == |keys|
    && (forall i :: 0 <= i < |keys| ==> list[i] == ProtoEnv(keys[i], env[keys[i]]))
  }

  ghost predicate ServiceTo(s: Service, p: ProtoService) {
    match s
    case KeyValueTable(name, delete) => p == ProtoTable(name, IsTrue(delete))
    case Storage(name, delete) => p == ProtoStorage(name, IsTrue(delete))
    case Gateway(name, endpoints) =>
      p.ProtoGateway? && p.name == name && exists keys :: EndpointsTo(endpoints, keys, p.endpoints)
    case Function(name, binary, runtime, env, memoryLimit) =>
      && p.ProtoFunction? && p.name == name && p.binary == binary && p.runtime == RuntimeNumber(runtime)
      && p.memoryLimit == memoryLimit && exists keys :: EnvTo(env, keys, p.env)
  }

  /** What converting a stack may give. */
  ghost predicate StackTo(s: Stack, p: ProtoStack) {
    && p.name == s.name && p.version == s.version && |p.services| == |s.services|
    && forall i :: 0 <= i < |s.services| ==> ServiceTo(s.services[i], p.services[i])
  }

  // ---- From protobuf ----

  datatype ConversionError = BlankService | UnknownHttpMethod(value: int) | UnknownRuntime(value: int)

  function MethodFrom(n: int): Result<HttpMethod, ConversionError> {
    match n
    case 0 => Ok(Get)
    case 1 => Ok(Head)
    case 2 => Ok(Post)
    case 3 => Ok(Put)
    case 4 => Ok(Patch)
    case 5 => Ok(Delete)
    case 6 => Ok(Options)
    case _ => Err(UnknownHttpMethod(n))
  }

  function RuntimeFrom(n: int): Result<AssemblyRuntime, ConversionError> {
    if n == 0 then Ok(Wasi1_0) else Err(UnknownRuntime(n))
  }

  /** Later entries replace earlier ones, and the first error ends the conversion. */
  function RoutesFrom(list: seq<ProtoEndpoint>): Result<Routes, ConversionError> {
    if list == [] then Ok(map[])
    else
      var init, last := RoutesFrom(list[..|list| - 1]), list[|list| - 1];
      if init.Err? then init
      else
        var m := MethodFrom(last.httpMethod);
        if m.Err? then Err(m.error)
        else Ok(init.value[m.value := AssemblyAndFunction(last.routeToAssembly, last.routeToFunction)])
  }

  function EndpointsFrom(list: seq<ProtoEndpoints>): Result<map<string, Routes>, ConversionError> {
    if list == [] then Ok(map[])
    else
      var init, last := EndpointsFrom(list[..|list| - 1]), list[|list| - 1];
      if init.Err? then init
      else
        var routes := RoutesFrom(last.endpoints);
        if routes.Err? then Err(routes.error) else Ok(init.value[last.path := routes.value])
  }

  function EnvFrom(list: seq<ProtoEnv>): map<string, string> {
    if list == [] then map[]
    else EnvFrom(list[..|list| - 1])[list[|list| - 1].name := list[|list| - 1].value]
  }

  function ServiceFrom(p: ProtoService): Result<Service, ConversionError> {
    match p
    case Blank => Err(BlankService)
    case ProtoTable(name, delete) => Ok(KeyValueTable(name, Some(delete)))
    case ProtoStorage(name, delete) => Ok(Storage(name, Some(delete)))
    case ProtoGateway(name, list) =>
      var endpoints := EndpointsFrom(list);
      if endpoints.Err? then Err(endpoints.error) else Ok(Gateway(name, endpoints.value))
    case ProtoFunction(name, binary, number, env, memoryLimit) =>
      var runtime := RuntimeFrom(number);
      if runtime.Err? then Err(runtime.error) else Ok(Function(name, binary, runtime.value, EnvFrom(env), memoryLimit))
  }

  function ServicesFrom(list: seq<ProtoService>): Result<seq<Service>, ConversionError> {
    if list == [] then Ok([])
    else
      var init := ServicesFrom(list[..|list| - 1]);
      if init.Err? then init
      else
        var s := ServiceFrom(list[|list| - 1]);
        if s.Err? then Err(s.error) else Ok(init.value + [s.value])
  }

  function StackFrom(p: ProtoStack): Result<Stack, ConversionError> {
    var services := ServicesFrom(p.services);
    if services.Err? then Err(services.error) else Ok(Stack(p.name, p.version, services.value))
  }

  // ---- Round trip ----

  lemma {:induction false} MethodRoundTrip(m: HttpMethod, n: int)
    ensures MethodFrom(MethodNumber(m)) == Ok(m)
    ensures MethodFrom(n).Ok? ==> MethodNumber(MethodFrom(n).value) == n
    ensures MethodFrom(n).Ok? <==> 0 <= n <= 6
  {
  }

  /** `a` is `m` cut down to these keys. */
  ghost predicate CutTo<K(!new), V>(a: map<K, V>, m: map<K, V>, keys: seq<K>) {
    (forall k :: k in a <==> k in keys) && (forall k <- a :: k in m && a[k] == m[k])
  }

  lemma {:induction false} CutToOneMore<K(!new), V>(a: map<K, V>, m: map<K, V>, keys: seq<K>, n: nat)
    requires 0 < n <= |keys| && keys[n - 1] in m && CutTo(a, m, keys[..n - 1])
    ensures CutTo(a[keys[n - 1] := m[keys[n - 1]]], m, keys[..n])
  {
    assert keys[..n] == keys[..n - 1] + [keys[n - 1]];
  }

  lemma {:induction false} CutToAll<K(!new), V>(a: map<K, V>, m: map<K, V>, keys: seq<K>)
    requires Iterates(m, keys) && CutTo(a, m, keys[..|keys|])
    ensures a == m
  {
    assert keys[..|keys|] == keys;
  }

  /** After the first `n` endpoints, the routes of the first `n` methods. */
  lemma {:induction false} RoutesBack(routes: Routes, keys: seq<HttpMethod>, list: seq<ProtoEndpoint>, n: nat)
    requires RoutesTo(routes, keys, list) && n <= |list|
    ensures RoutesFrom(list[..n]).Ok? && CutTo(RoutesFrom(list[..n]).value, routes, keys[..n])
  {
    if n > 0 {
      RoutesBack(routes, keys, list, n - 1);
      assert keys[n - 1] in keys;
      OneMoreRoute(list, n, keys[n - 1], routes[keys[n - 1]]);
      CutToOneMore(RoutesFrom(list[..n - 1]).value, routes, keys, n);
    }
  }

  lemma {:induction false} OneMoreRoute(list: seq<ProtoEndpoint>, n: nat, m: HttpMethod, target: AssemblyAndFunction)
    requires 0 < n <= |list| && RoutesFrom(list[..n - 1]).Ok? && list[n - 1] == EndpointTo(m, target)
    ensures RoutesFrom(list[..n]) == Ok(RoutesFrom(list[..n - 1]).value[m := target])
  {
    assert list[..n][..n - 1] == list[..n - 1];
    MethodRoundTrip(m, 0);
  }

  lemma {:induction false} RoutesRoundTrip(routes: Routes, keys: seq<HttpMethod>, list: seq<ProtoEndpoint>)
    requires RoutesTo(routes, keys, list)
    ensures RoutesFrom(list) == Ok(routes)
  {
    RoutesBack(routes, keys, list, |list|);
    assert list[..|list|] == list;
    CutToAll(RoutesFrom(list).value, routes, keys);
  }

  lemma {:induction false} RoutesFormRoundTrip(routes: Routes, list: seq<ProtoEndpoint>)
    requires RoutesForm(routes, list)
    ensures RoutesFrom(list) == Ok(routes)
  {
    var methods :| RoutesTo(routes, methods, list);
    RoutesRoundTrip(routes, methods, list);
  }

  lemma {:induction false} EndpointsBack(
    endpoints: map<string, Routes>, keys: seq<string>, list: seq<ProtoEndpoints>, n: nat)
    requires EndpointsTo(endpoints, keys, list) && n <= |list|
    ensures EndpointsFrom(list[..n]).Ok? && CutTo(EndpointsFrom(list[..n]).value, endpoints, keys[..n])
  {
    if n > 0 {
      var k, last := keys[n - 1], list[n - 1];
      EndpointsBack(endpoints, keys, list, n - 1);
      assert k in keys;
      RoutesFormRoundTrip(endpoints[k], last.endpoints);
      OneMorePath(list, n, endpoints[k]);
      CutToOneMore(EndpointsFrom(list[..n - 1]).value, endpoints, keys, n);
    }
  }

  lemma {:induction false} OneMorePath(list: seq<ProtoEndpoints>, n: nat, routes: Routes)
    requires 0 < n <= |list| && EndpointsFrom(list[..n - 1]).Ok? && RoutesFrom(list[n - 1].endpoints) == Ok(routes)
    ensures EndpointsFrom(list[..n]) == Ok(EndpointsFrom(list[..n - 1]).value[list[n - 1].path := routes])
  {
    assert list[..n][..n - 1] == list[..n - 1];
  }

  lemma {:induction false} EnvBack(env: map<string, string>, keys: seq<string>, list: seq<ProtoEnv>, n: nat)
    requires EnvTo(env, keys, list) && n <= |list|
    ensures CutTo(EnvFrom(list[..n]), env, keys[..n])
  {
    if n > 0 {
      EnvBack(env, keys, list, n - 1);
      assert list[..n][..n - 1] == list[..n - 1] && keys[n - 1] in keys;
      CutToOneMore(EnvFrom(list[..n - 1]), env, keys, n);
    }
  }

  /** A missing `delete` flag reads as false. */
  function Defaulted(s: Service): Service {
    match s
    case KeyValueTable(name, delete) => KeyValueTable(name, Some(IsTrue(delete)))
    case Storage(name, delete) => Storage(name, Some(IsTrue(delete)))
    case _ => s
  }

  function StackDefaulted(s: Stack): Stack {
    s.(services := seq(|s.services|, i requires 0 <= i < |s.services| => Defaulted(s.services[i])))
  }

  lemma {:induction false} EndpointsRoundTrip(
    endpoints: map<string, Routes>, keys: seq<string>, list: seq<ProtoEndpoints>)
    requires EndpointsTo(endpoints, keys, list)
    ensures EndpointsFrom(list) == Ok(endpoints)
  {
    EndpointsBack(endpoints, keys, list, |list|);
    assert list[..|list|] == list;
    CutToAll(EndpointsFrom(list).value, endpoints, keys);
  }

  lemma {:induction false} EnvRoundTrip(env: map<string, string>, keys: seq<string>, list: seq<ProtoEnv>)
    requires EnvTo(env, keys, list)
    ensures EnvFrom(list) == env
  {
    EnvBack(env, keys, list, |list|);
    assert list[..|list|] == list;
    CutToAll(EnvFrom(list), env, keys);
  }

  lemma {:induction false} ServiceRoundTrip(s: Service, p: ProtoService)
    requires ServiceTo(s, p)
    ensures ServiceFrom(p) == Ok(Defaulted(s))
  {
    match s
    case Gateway(_, endpoints) =>
      var keys :| EndpointsTo(endpoints, keys, p.endpoints);
      EndpointsRoundTrip(endpoints, keys, p.endpoints);
    case Function(_, _, runtime, env, _) =>
      var keys :| EnvTo(env, keys, p.env);
      EnvRoundTrip(env, keys, p.env);
      assert runtime.Wasi1_0?;
    case _ =>
  }

  lemma {:induction false} ServicesBack(s: Stack, p: ProtoStack, n: nat)
    requires StackTo(s, p) && n <= |p.services|
    ensures ServicesFrom(p.services[..n]) == Ok(StackDefaulted(s).services[..n])
  {
    if n > 0 {
      ServicesBack(s, p, n - 1);
      assert p.services[..n][..n - 1] == p.services[..n - 1];
      ServiceRoundTrip(s.services[n - 1], p.services[n - 1]);
      var back := StackDefaulted(s).services;
      assert back[..n] == back[..n - 1] + [Defaulted(s.services[n - 1])];
    }
  }

  /** Whatever order the maps are iterated in, the stack comes back, with every missing `delete` flag false. */
  lemma {:induction false} StackRoundTrip(s: Stack, p: ProtoStack)
    requires StackTo(s, p)
    ensures StackFrom(p) == Ok(StackDefaulted(s))
  {
    ServicesBack(s, p, |p.services|);
    assert p.services[..|p.services|] == p.services;
    assert StackDefaulted(s).services[..|p.services|] == StackDefaulted(s).services;
  }

  lemma {:induction false} DefaultedSame(s: Service)
    ensures Defaulted(s) == s <==> (s.KeyValueTable? || s.Storage? ==> s.delete.Some?)
  {
  }

  /** The stack comes back unchanged exactly when no `delete` flag was missing. */
  lemma {:induction false} StackUnchanged(s: Stack, p: ProtoStack)
    requires StackTo(s, p)
    ensures StackFrom(p) == Ok(s) <==>
      forall service <- s.services :: service.KeyValueTable? || service.Storage? ==> service.delete.Some?
  {
    StackRoundTrip(s, p);
    var back := StackDefaulted(s).services;
    forall i | 0 <= i < |s.services|
      ensures back[i] == s.services[i] <==>
        (s.services[i].KeyValueTable? || s.services[i].Storage? ==> s.services[i].delete.Some?)
    {
      DefaultedSame(s.services[i]);
    }
    assert back == s.services <==> forall i :: 0 <= i < |s.services| ==> back[i] == s.services[i];
  }

  // ---- The other way round ----

  ghost predicate RoutesKnown(list: seq<ProtoEndpoint>) {
    forall e <- list :: 0 <= e.httpMethod <= 6
  }

  ghost predicate ServiceKnown(p: ProtoService) {
    match p
    case Blank => false
    case ProtoGateway(_, list) => forall e <- list :: RoutesKnown(e.endpoints)
    case ProtoFunction(_, _, runtime, _, _) => runtime == 0
    case _ => true
  }

  lemma {:induction false} RoutesOk(list: seq<ProtoEndpoint>)
    ensures RoutesFrom(list).Ok? <==> RoutesKnown(list)
  {
    if list != [] {
      RoutesOk(list[..|list| - 1]);
      assert list == list[..|list| - 1] + [list[|list| - 1]];
      MethodRoundTrip(Get, list[|list| - 1].httpMethod);
    }
  }

  lemma {:induction false} EndpointsOk(list: seq<ProtoEndpoints>)
    ensures EndpointsFrom(list).Ok? <==> forall e <- list :: RoutesKnown(e.endpoints)
  {
    if list != [] {
      EndpointsOk(list[..|list| - 1]);
      assert list == list[..|list| - 1] + [list[|list| - 1]];
      RoutesOk(list[|list| - 1].endpoints);
    }
  }

  lemma {:induction false} ServiceOk(p: ProtoService)
    ensures ServiceFrom(p).Ok? <==> ServiceKnown(p)
  {
    match p
    case ProtoGateway(_, list) => EndpointsOk(list);
    case _ =>
  }

  lemma {:induction false} ServicesOk(list: seq<ProtoService>)
    ensures ServicesFrom(list).Ok? <==> forall p <- list :: ServiceKnown(p)
    ensures ServicesFrom(list).Ok? ==> |ServicesFrom(list).value| == |list|
    ensures ServicesFrom(list).Ok? ==>
      forall i :: 0 <= i < |list| ==> ServiceFrom(list[i]) == Ok(ServicesFrom(list).value[i])
  {
    if list != [] {
      var last := list[|list| - 1];
      ServicesOk(list[..|list| - 1]);
      assert list == list[..|list| - 1] + [last];
      ServiceOk(last);
    }
  }

  /** A message converts exactly when no service is blank and every enum number is known. */
  lemma {:induction false} ConvertsIffKnown(p: ProtoStack)
    ensures StackFrom(p).Ok? <==> forall s <- p.services :: ServiceKnown(s)
  {
    ServicesOk(p.services);
  }

  /** A message in which nothing is listed twice. */
  ghost predicate NoRepeats(p: ProtoService) {
    match p
    case ProtoGateway(_, list) =>
      NothingTwice(list)
    case ProtoFunction(_, _, _, env, _) => forall i, j :: 0 <= i < j < |env| ==> env[i].name != env[j].name
    case _ => true
  }

  ghost predicate DistinctPaths(list: seq<ProtoEndpoints>) {
    forall i, j :: 0 <= i < j < |list| ==> list[i].path != list[j].path
  }

  ghost predicate DistinctMethods(list: seq<ProtoEndpoint>) {
    forall i, j :: 0 <= i < j < |list| ==> list[i].httpMethod != list[j].httpMethod
  }

  function Methods(list: seq<ProtoEndpoint>): seq<HttpMethod>
    requires RoutesFrom(list).Ok?
    ensures |Methods(list)| == |list|
  {
    if list == [] then []
    else Methods(list[..|list| - 1]) + [MethodFrom(list[|list| - 1].httpMethod).value]
  }

  lemma {:induction false} MethodsAt(list: seq<ProtoEndpoint>)
    requires RoutesFrom(list).Ok?
    ensures forall i :: 0 <= i < |list| ==> MethodNumber(Methods(list)[i]) == list[i].httpMethod
  {
    if list != [] {
      MethodsAt(list[..|list| - 1]);
      MethodRoundTrip(Get, list[|list| - 1].httpMethod);
    }
  }

  lemma {:induction false} RoutesForth(list: seq<ProtoEndpoint>)
    requires RoutesFrom(list).Ok? && DistinctMethods(list)
    ensures RoutesTo(RoutesFrom(list).value, Methods(list), list)
  {
    MethodsAt(list);
    if list != [] {
      var init, last := list[..|list| - 1], list[|list| - 1];
      RoutesForth(init);
      var m := MethodFrom(last.httpMethod).value;
      assert m !in Methods(init) by {
        MethodsAt(init);
        MethodRoundTrip(m, last.httpMethod);
      }
      RoutesExtended(RoutesFrom(init).value, Methods(init), init, m,
        AssemblyAndFunction(last.routeToAssembly, last.routeToFunction));
      MethodRoundTrip(m, last.httpMethod);
      assert list == init + [last];
    }
  }

  lemma {:induction false} RoutesExtended(
    routes: Routes, keys: seq<HttpMethod>, list: seq<ProtoEndpoint>, m: HttpMethod, target: AssemblyAndFunction)
    requires RoutesTo(routes, keys, list) && m !in keys
    ensures RoutesTo(routes[m := target], keys + [m], list + [EndpointTo(m, target)])
  {
  }

  function Paths(list: seq<ProtoEndpoints>): seq<string> {
    seq(|list|, i requires 0 <= i < |list| => list[i].path)
  }

  lemma {:induction false} EndpointsExtended(
    endpoints: map<string, Routes>, keys: seq<string>, list: seq<ProtoEndpoints>, last: ProtoEndpoints, routes: Routes)
    requires EndpointsTo(endpoints, keys, list) && last.path !in keys && RoutesForm(routes, last.endpoints)
    ensures EndpointsTo(endpoints[last.path := routes], keys + [last.path], list + [last])
  {
    var endpoints', keys', list' := endpoints[last.path := routes], keys + [last.path], list + [last];
    forall i | 0 <= i < |keys'|
      ensures list'[i].path == keys'[i] && keys'[i] in endpoints'
      ensures RoutesForm(endpoints'[keys'[i]], list'[i].endpoints)
    {
      if i < |keys| {
        assert keys'[i] in keys && endpoints'[keys'[i]] == endpoints[keys[i]] && list'[i] == list[i];
      }
    }
  }

  ghost predicate NothingTwice(list: seq<ProtoEndpoints>) {
    DistinctPaths(list) && forall e <- list :: DistinctMethods(e.endpoints)
  }

  lemma {:induction false} LastPathIsNew(list: seq<ProtoEndpoints>)
    requires list != [] && NothingTwice(list)
    ensures
      var init, last := list[..|list| - 1], list[|list| - 1];
      && NothingTwice(init) && DistinctMethods(last.endpoints)
      && last.path !in Paths(init) && Paths(list) == Paths(init) + [last.path] && list == init + [last]
  {
    assert list[|list| - 1] in list && forall e <- list[..|list| - 1] :: e in list;
  }

  lemma {:induction false} EndpointsForth(list: seq<ProtoEndpoints>)
    requires EndpointsFrom(list).Ok? && NothingTwice(list)
    ensures EndpointsTo(EndpointsFrom(list).value, Paths(list), list)
  {
    if list != [] {
      var init, last := list[..|list| - 1], list[|list| - 1];
      LastPathIsNew(list);
      EndpointsForth(init);
      RoutesForth(last.endpoints);
      EndpointsExtended(EndpointsFrom(init).value, Paths(init), init, last, RoutesFrom(last.endpoints).value);
    }
  }

  function EnvNames(list: seq<ProtoEnv>): seq<string> {
    seq(|list|, i requires 0 <= i < |list| => list[i].name)
  }

  lemma {:induction false} EnvForth(list: seq<ProtoEnv>)
    requires forall i, j :: 0 <= i < j < |list| ==> list[i].name != list[j].name
    ensures EnvTo(EnvFrom(list), EnvNames(list), list)
  {
    if list != [] {
      var init, last := list[..|list| - 1], list[|list| - 1];
      EnvForth(init);
      assert EnvNames(list) == EnvNames(init) + [last.name];
    }
  }

  lemma {:induction false} ServiceForth(p: ProtoService)
    requires ServiceFrom(p).Ok?
    ensures ServiceTo(ServiceFrom(p).value, p) <==> NoRepeats(p)
  {
    match p
    case ProtoGateway(_, list) =>
      if NoRepeats(p) {
        EndpointsForth(list);
      } else if ServiceTo(ServiceFrom(p).value, p) {
        GatewayMessageNoRepeats(ServiceFrom(p).value.endpoints, p);
      }
    case ProtoFunction(_, _, _, env, _) =>
      if NoRepeats(p) {
        EnvForth(env);
      }
    case _ =>
  }

  lemma {:induction false} GatewayMessageNoRepeats(endpoints: map<string, Routes>, p: ProtoService)
    requires p.ProtoGateway? && exists keys :: EndpointsTo(endpoints, keys, p.endpoints)
    ensures NoRepeats(p)
  {
    var keys :| EndpointsTo(endpoints, keys, p.endpoints);
    forall e | e in p.endpoints
      ensures DistinctMethods(e.endpoints)
    {
      var i :| 0 <= i < |keys| && p.endpoints[i] == e;
      var methods :| RoutesTo(endpoints[keys[i]], methods, e.endpoints);
      assert forall k :: 0 <= k < |methods| ==> MethodFrom(e.endpoints[k].httpMethod) == Ok(methods[k]);
    }
  }

  /** A message that converts is a possible form of the stack it converts to exactly when no path, method of a
      path or environment variable is listed twice. */
  lemma {:induction false} MessageRoundTrip(p: ProtoStack)
    requires StackFrom(p).Ok?
    ensures StackTo(StackFrom(p).value, p) <==> forall s <- p.services :: NoRepeats(s)
  {
    ServicesOk(p.services);
    forall i | 0 <= i < |p.services|
      ensures ServiceTo(StackFrom(p).value.services[i], p.services[i]) <==> NoRepeats(p.services[i])
    {
      ServiceForth(p.services[i]);
    }
  }
}
