/** The container object `createContainer` returns: one getter per
    registered key, each resolving from the root requester, and the
    `createContainer.transient` helper. */
module Container {
  import opened Values
  import opened Resolver
  import ResolverFacts

  /** The requester name of every container getter. */
  const RootName: string := "(root)"

  /** Reading property `key` of the container: a registered key runs its
      getter, which resolves the service with the root descriptor as
      requester; any other key is an absent property and reads `undefined`. */
  function Access(reg: Registry, st: State, key: string, fuel: nat): (res: Resolved<Value>)
    ensures key !in reg ==> res == Resolved(Ok(Undefined), st)
    ensures key in reg && Hit(st.cache, key) ==> res == Resolved(Ok(st.cache[key]), st)
    ensures key in reg && res.outcome.Ok? && !reg[key].transient ==>
              key in res.state.cache && res.state.cache[key] == res.outcome.value
    ensures key in reg && res.outcome.Ok? ==> res.outcome.value != Undefined
  {
    if key in reg then Get(reg, st, key, RootName, fuel) else Resolved(Ok(Undefined), st)
  }

  /** `createContainer.transient(fn)`: the same factory, now transient. */
  function MarkTransient(f: Factory): (r: Factory)
    ensures r.transient
    ensures r.params == f.params && r.body == f.body
  {
    f.(transient := true)
  }

  /** A service read straight from the container that asks for `module`,
      at any position and alone or inside a group, receives the root
      descriptor. The factory returns that argument so that it is seen. */
  lemma RootRequester(reg: Registry, st: State, key: string, fuel: nat, i: nat)
    requires key in reg && i < |reg[key].params| && ResolverFacts.ReturnsArgument(reg[key], i)
    requires !Hit(st.cache, key)
    ensures ResolverFacts.ShowsDescriptor(reg[key].params[i], Access(reg, st, key, fuel).outcome, Descriptor(RootName))
  {
    ResolverFacts.RequesterDescriptor(reg, st, key, RootName, fuel, i);
  }

  /** A dependency that asks for `module`, at any position and alone or
      inside a group, receives the descriptor of the service whose argument
      it is being resolved for, not that of the container. This holds when
      the dependency is not already cached once the service's earlier
      arguments are resolved; a cached one keeps the value built for its
      first requester. */
  lemma DependencyRequester(reg: Registry, st: State, key: string, dep: string, fuel: nat, j: nat, i: nat)
    requires key in reg && j < |reg[key].params| && reg[key].params[j] == Single(dep) && dep != ModuleParam
    requires dep in reg && i < |reg[dep].params|
    requires ResolverFacts.ReturnsArgument(reg[key], j) && ResolverFacts.ReturnsArgument(reg[dep], i)
    requires !Hit(st.cache, key)
    requires fuel > 0 ==> !Hit(ResolveArgs(reg, st, reg[key].params[..j], key, RootName, fuel - 1).state.cache, dep)
    ensures ResolverFacts.ShowsDescriptor(reg[dep].params[i], Access(reg, st, key, fuel).outcome, Descriptor(key))
  {
    ResolverFacts.DependencyDescriptor(reg, st, key, dep, RootName, fuel, j, i);
  }

  /** Reading a service whose dependency at position `j` is not registered
      fails with a message naming the service and the missing name, once
      the earlier arguments have resolved; what those arguments cached stays
      and no later argument is resolved. */
  lemma UnknownDependencyNamesBoth(reg: Registry, st: State, key: string, dep: string, fuel: nat, j: nat)
    requires key in reg && dep !in reg && dep != ModuleParam
    requires j < |reg[key].params| && reg[key].params[j] == Single(dep)
    requires !Hit(st.cache, key) && fuel > 0
    requires var before := ResolveArgs(reg, st, reg[key].params[..j], key, RootName, fuel - 1);
             before.outcome.Ok? && !Hit(before.state.cache, dep)
    ensures Access(reg, st, key, fuel)
            == Resolved(Fail(UnknownDependency("Unknown dependency: " + RequesterLabel(key) + " -> " + dep + ".")),
                        ResolveArgs(reg, st, reg[key].params[..j], key, RootName, fuel - 1).state)
  {
    var params := reg[key].params;
    var before := ResolveArgs(reg, st, params[..j], key, RootName, fuel - 1);
    var failure := UnknownDependency(UnknownMessage(key, dep));
    assert ResolveArgs(reg, st, params, key, RootName, fuel - 1) == Resolved(Fail(failure), before.state) by {
      assert ResolveParam(reg, before.state, Single(dep), key, RootName, fuel - 1) == Resolved(Fail(failure), before.state);
      ResolverFacts.ArgsFailAt(reg, st, params, key, RootName, fuel - 1, j);
    }
    ResolverFacts.GetFails(reg, st, key, RootName, fuel, failure, before.state);
  }

  /** A factory registered through `transient` never gets a cache entry:
      reading its property twice invokes it twice. */
  lemma TransientNeverCached(reg: Registry, st: State, key: string, f: Factory, fuel1: nat, fuel2: nat)
    requires key !in st.cache
    ensures var reg' := reg[key := MarkTransient(f)];
            var first := Access(reg', st, key, fuel1);
            var second := Access(reg', first.state, key, fuel2);
            && key !in first.state.cache
            && (first.outcome.Ok? ==> st.next < first.state.next)
            && (second.outcome.Ok? ==> first.state.next < second.state.next)
  {
    var reg' := reg[key := MarkTransient(f)];
    ResolverFacts.GetFrame(reg', st, key, RootName, fuel1);
    ResolverFacts.TransientReinvoked(reg', st, key, RootName, RootName, fuel1, fuel2);
  }

  /* ---------------------------------------------------------------------
     The demo application of example.js
     --------------------------------------------------------------------- */

  /** `x + y + z` on the integers the demo passes. */
  function SumOfNums(args: seq<Value>): (sum: Value) {
    if |args| == 3 && args[0].Num? && args[1].Num? && args[2].Num?
    then Num(args[0].n + args[1].n + args[2].n)
    else Undefined
  }

  /** Stand-in for the external `createLogger(module.name)`: a logger
      object that records the name it was created for. */
  function LoggerFor(args: seq<Value>): (logger: Value) {
    if |args| == 1 && args[0].Descriptor? then Bundle(map["name" := Str(args[0].name)]) else Undefined
  }

  /** Stand-in for the object with a `run` method the demo returns: it
      records the `example` and `log` values `run` would use. */
  function DemoObject(args: seq<Value>): (obj: Value) {
    if |args| == 2 then Bundle(map["example" := args[0], "log" := args[1]]) else Undefined
  }

  const LogFactory: Factory :=
    MarkTransient(Factory([Single(ModuleParam)], false, (recv, args) => Returned(LoggerFor(args))))
  const ExampleFactory: Factory :=
    Factory([Single("x"), Single("y"), Single("z")], false, (recv, args) => Returned(SumOfNums(args)))
  const DemoFactory: Factory :=
    Factory([Single("example"), Single("log")], false, (recv, args) => Returned(DemoObject(args)))

  /** The registry of example.js. */
  const DemoApp: Registry := map[
    "log" := LogFactory,
    "x" := Factory([], false, (recv, args) => Returned(Num(1))),
    "y" := Factory([], false, (recv, args) => Returned(Num(2))),
    "z" := Factory([], false, (recv, args) => Returned(Num(3))),
    "example" := ExampleFactory,
    "demo" := DemoFactory
  ]

  /** The logger the demo's `log` factory makes for `demo`. */
  const DemoLogger: Value := Bundle(map["name" := Str("demo")])

  /** A demo leaf `x`, `y` or `z`: no parameters, a number returned,
      one invocation, cached. */
  lemma DemoLeaf(st: State, name: string, n: int)
    requires name in DemoApp && DemoApp[name] == Factory([], false, (recv, args) => Returned(Num(n)))
    requires name !in st.cache && n != 0
    ensures Get(DemoApp, st, name, "example", 1) == Resolved(Ok(Num(n)), State(st.cache[name := Num(n)], st.next + 1))
  {
    assert ResolveArgs(DemoApp, st, [], name, "example", 0) == Resolved(Ok([]), st);
    ResolverFacts.GetInvokes(DemoApp, st, name, "example", 1, [], st, Num(n));
  }

  /** The arguments of `example`: `x`, `y` and `z` resolved in order. */
  lemma DemoExampleArgs()
    ensures ResolveArgs(DemoApp, State(map[], 0), DemoApp["example"].params, "example", "demo", 1)
            == Resolved(Ok([Num(1), Num(2), Num(3)]), State(map["x" := Num(1), "y" := Num(2), "z" := Num(3)], 3))
  {
    var s0 := State(map[], 0);
    var s1 := State(map["x" := Num(1)], 1);
    var s2 := State(map["x" := Num(1), "y" := Num(2)], 2);
    var s3 := State(map["x" := Num(1), "y" := Num(2), "z" := Num(3)], 3);
    DemoLeaf(s0, "x", 1);
    DemoLeaf(s1, "y", 2);
    DemoLeaf(s2, "z", 3);
    assert ResolveArgs(DemoApp, s3, [], "example", "demo", 1) == Resolved(Ok([]), s3);
    ResolverFacts.ArgsCons(DemoApp, s2, Single("z"), [], "example", "demo", 1, Num(3), s3, [], s3);
    assert [Single("z")] + [] == [Single("z")] && [Num(3)] + [] == [Num(3)];
    ResolverFacts.ArgsCons(DemoApp, s1, Single("y"), [Single("z")], "example", "demo", 1, Num(2), s2, [Num(3)], s3);
    assert [Single("y")] + [Single("z")] == [Single("y"), Single("z")] && [Num(2)] + [Num(3)] == [Num(2), Num(3)];
    ResolverFacts.ArgsCons(DemoApp, s0, Single("x"), [Single("y"), Single("z")], "example", "demo", 1,
                           Num(1), s1, [Num(2), Num(3)], s3);
    assert [Single("x")] + [Single("y"), Single("z")] == DemoApp["example"].params;
    assert [Num(1)] + [Num(2), Num(3)] == [Num(1), Num(2), Num(3)];
  }

  /** `example` resolves to 6 with four factory invocations, and `x`, `y`,
      `z` and `example` are cached afterwards. */
  lemma DemoExample()
    ensures Get(DemoApp, State(map[], 0), "example", "demo", 2)
            == Resolved(Ok(Num(6)), State(map["x" := Num(1), "y" := Num(2), "z" := Num(3), "example" := Num(6)], 4))
  {
    DemoExampleArgs();
    var s3 := State(map["x" := Num(1), "y" := Num(2), "z" := Num(3)], 3);
    assert DemoApp["example"].body(Instance(3), [Num(1), Num(2), Num(3)]) == Returned(Num(6));
    ResolverFacts.GetInvokes(DemoApp, State(map[], 0), "example", "demo", 2, [Num(1), Num(2), Num(3)], s3, Num(6));
  }

  /** The transient `log` is rebuilt for `demo` on every resolution and
      never cached. */
  lemma DemoLog(st: State)
    requires "log" !in st.cache
    ensures Get(DemoApp, st, "log", "demo", 2) == Resolved(Ok(DemoLogger), st.(next := st.next + 1))
  {
    var f := DemoApp["log"];
    assert f.params == [Single(ModuleParam)] && f.transient;
    assert ResolveParam(DemoApp, st, f.params[0], "log", "demo", 1) == Resolved(Ok(Descriptor("demo")), st);
    assert f.params[1..] == [];
    assert ResolveArgs(DemoApp, st, f.params[1..], "log", "demo", 1) == Resolved(Ok([]), st);
    assert [Descriptor("demo")] + [] == [Descriptor("demo")];
    assert ResolveArgs(DemoApp, st, f.params, "log", "demo", 1) == Resolved(Ok([Descriptor("demo")]), st);
    assert f.body(Instance(st.next), [Descriptor("demo")]) == Returned(DemoLogger);
    ResolverFacts.GetInvokes(DemoApp, st, "log", "demo", 2, [Descriptor("demo")], st, DemoLogger);
  }

  /** The last argument of `demo`: a fresh logger made for `demo`. */
  lemma DemoArgsTail(st: State)
    requires "log" !in st.cache
    ensures ResolveArgs(DemoApp, st, [Single("log")], "demo", RootName, 2)
            == Resolved(Ok([DemoLogger]), st.(next := st.next + 1))
  {
    var st' := st.(next := st.next + 1);
    DemoLog(st);
    assert ResolveArgs(DemoApp, st', [], "demo", RootName, 2) == Resolved(Ok([]), st');
    ResolverFacts.ArgsCons(DemoApp, st, Single("log"), [], "demo", RootName, 2, DemoLogger, st', [], st');
    assert [Single("log")] + [] == [Single("log")] && [DemoLogger] + [] == [DemoLogger];
  }

  /** The first argument of `demo`: `example`, resolved with its
      dependencies and requested by `demo`. */
  lemma DemoArgsHead()
    ensures ResolveParam(DemoApp, State(map[], 0), Single("example"), "demo", RootName, 2)
            == Resolved(Ok(Num(6)), State(map["x" := Num(1), "y" := Num(2), "z" := Num(3), "example" := Num(6)], 4))
  {
    DemoExample();
  }

  /** The arguments of `demo`: `example` (resolved with its dependencies)
      and a logger made for `demo`. */
  lemma DemoArgs()
    ensures ResolveArgs(DemoApp, State(map[], 0), DemoApp["demo"].params, "demo", RootName, 2)
            == Resolved(Ok([Num(6), DemoLogger]),
                        State(map["x" := Num(1), "y" := Num(2), "z" := Num(3), "example" := Num(6)], 5))
  {
    var s4 := State(map["x" := Num(1), "y" := Num(2), "z" := Num(3), "example" := Num(6)], 4);
    DemoArgsHead();
    DemoArgsTail(s4);
    ResolverFacts.ArgsCons(DemoApp, State(map[], 0), Single("example"), [Single("log")], "demo", RootName, 2,
                           Num(6), s4, [DemoLogger], s4.(next := 5));
    assert DemoApp["demo"] == DemoFactory;
    assert DemoFactory.params == [Single("example")] + [Single("log")];
    assert [Num(6), DemoLogger] == [Num(6)] + [DemoLogger];
  }

  /** `demo` itself: its object is built from 6 and the logger, with the
      sixth receiver, and cached. */
  lemma DemoGet()
    ensures var s4 := State(map["x" := Num(1), "y" := Num(2), "z" := Num(3), "example" := Num(6)], 4);
            var demoObject := Bundle(map["example" := Num(6), "log" := DemoLogger]);
            Get(DemoApp, State(map[], 0), "demo", RootName, 3)
            == Resolved(Ok(demoObject), State(s4.cache["demo" := demoObject], 6))
  {
    DemoArgs();
    var demoObject := Bundle(map["example" := Num(6), "log" := DemoLogger]);
    var s5 := State(map["x" := Num(1), "y" := Num(2), "z" := Num(3), "example" := Num(6)], 5);
    assert DemoApp["demo"].body(Instance(5), [Num(6), DemoLogger]) == Returned(demoObject);
    ResolverFacts.GetInvokes(DemoApp, State(map[], 0), "demo", RootName, 3, [Num(6), DemoLogger], s5, demoObject);
  }

  /** Reading `demo` from a fresh container: `example` is 6, the logger is
      made for `demo`, six factory invocations happen in all, and everything
      but the transient logger is cached. */
  lemma DemoScenario()
    ensures var res := Access(DemoApp, State(map[], 0), "demo", 3);
            && res.outcome == Ok(Bundle(map["example" := Num(6), "log" := DemoLogger]))
            && res.state.next == 6
            && res.state.cache == map["x" := Num(1), "y" := Num(2), "z" := Num(3), "example" := Num(6),
                                      "demo" := Bundle(map["example" := Num(6), "log" := DemoLogger])]
  {
    DemoGet();
  }
}
