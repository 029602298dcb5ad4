/** Properties of the resolution engine that relate several calls or hold
    through the whole recursion. */
module ResolverFacts {
  import opened Values
  import opened Resolver

  /* ---------------------------------------------------------------------
     What a resolution may change
     --------------------------------------------------------------------- */

  /** The service names `get(name)` may end up resolving within nesting
      depth `fuel`: `name` itself and, transitively, its dependencies. */
  ghost function Reach(reg: Registry, name: string, fuel: nat): (reached: set<string>)
    decreases fuel, 0
  {
    if name !in reg || fuel == 0 then {}
    else {name} + ReachAll(reg, DepNames(reg[name].params), fuel - 1)
  }

  ghost function ReachAll(reg: Registry, names: set<string>, fuel: nat): (reached: set<string>)
    decreases fuel, 1
  {
    set d, m | d in names && m in Reach(reg, d, fuel) :: m
  }

  /** The change from `st` to `st'` is one a resolution may make: the
      allocation counter only grows, no cache entry disappears, truthy
      entries stay as they are, and every entry that changed belongs to a
      registered, non-transient service among `names`. */
  ghost predicate Frame(reg: Registry, st: State, st': State, names: set<string>) {
    && st.next <= st'.next
    && st.cache.Keys <= st'.cache.Keys
    && (forall k :: Hit(st.cache, k) ==> st'.cache[k] == st.cache[k])
    && (forall k :: k in st'.cache && (k !in st.cache || st'.cache[k] != st.cache[k]) ==>
          k in names && k in reg && !reg[k].transient)
  }

  lemma FrameTrans(reg: Registry, a: State, b: State, c: State, n1: set<string>, n2: set<string>, n: set<string>)
    requires Frame(reg, a, b, n1) && Frame(reg, b, c, n2)
    requires n1 <= n && n2 <= n
    ensures Frame(reg, a, c, n)
  {
    forall k | k in c.cache && (k !in a.cache || c.cache[k] != a.cache[k])
      ensures k in n && k in reg && !reg[k].transient
    {
      if k in b.cache && k in a.cache && b.cache[k] == a.cache[k] {
        assert c.cache[k] != b.cache[k];
      }
    }
  }

  lemma DepNamesOfSingles(ns: seq<string>)
    ensures DepNames(Singles(ns)) == ParamNames(Group(ns)) - {ModuleParam}
  {
    var ps := Singles(ns);
    forall n | n in DepNames(ps) ensures n in ParamNames(Group(ns)) {
      var i :| 0 <= i < |ps| && n in ParamNames(ps[i]) && n != ModuleParam;
      assert n == ns[i];
    }
    forall n | n in ParamNames(Group(ns)) - {ModuleParam} ensures n in DepNames(ps) {
      var i :| 0 <= i < |ns| && ns[i] == n;
      assert n in ParamNames(ps[i]);
    }
  }

  lemma DepNamesSplit(params: seq<Param>)
    requires |params| > 0
    ensures ParamNames(params[0]) - {ModuleParam} <= DepNames(params)
    ensures DepNames(params[1..]) <= DepNames(params)
  {
    forall n | n in DepNames(params[1..]) ensures n in DepNames(params) {
      var i :| 0 <= i < |params[1..]| && n in ParamNames(params[1..][i]) && n != ModuleParam;
      assert params[1..][i] == params[i + 1];
    }
  }

  lemma ReachAllMono(reg: Registry, small: set<string>, large: set<string>, fuel: nat)
    requires small <= large
    ensures ReachAll(reg, small, fuel) <= ReachAll(reg, large, fuel)
  {
  }

  /** `get` changes the cache only by storing the values of non-transient
      services it resolved on the way, and never disturbs a truthy entry. A
      resolution that invokes a factory advances the allocation counter. */
  lemma {:induction false} GetFrame(reg: Registry, st: State, name: string, from: string, fuel: nat)
    decreases fuel, 0
    ensures Frame(reg, st, Get(reg, st, name, from, fuel).state, Reach(reg, name, fuel))
    ensures Get(reg, st, name, from, fuel).outcome.Ok? && !Hit(st.cache, name) ==>
              st.next < Get(reg, st, name, from, fuel).state.next
  {
    if !Hit(st.cache, name) && name in reg && fuel > 0 {
      var f := reg[name];
      var args := ResolveArgs(reg, st, f.params, name, from, fuel - 1);
      var whole := Reach(reg, name, fuel);
      var deps := ReachAll(reg, DepNames(f.params), fuel - 1);
      ArgsFrame(reg, st, f.params, name, from, fuel - 1);
      assert deps <= whole;
      var final := Invoke(name, f, args).state;
      assert name in whole;
      // `name` was no hit in `st`, so overwriting it keeps every hit of `st`.
      assert forall k :: k in final.cache && k != name ==>
               k in args.state.cache && final.cache[k] == args.state.cache[k];
      forall k | k in final.cache && (k !in st.cache || final.cache[k] != st.cache[k])
        ensures k in whole && k in reg && !reg[k].transient
      {
        if k != name {
          assert k in args.state.cache && final.cache[k] == args.state.cache[k];
        }
      }
    }
  }

  lemma {:induction false} ParamFrame(reg: Registry, st: State, p: Param, current: string, from: string, fuel: nat)
    decreases fuel, Depth(p), 0
    ensures Frame(reg, st, ResolveParam(reg, st, p, current, from, fuel).state,
                  ReachAll(reg, ParamNames(p) - {ModuleParam}, fuel))
  {
    match p
    case Single(n) =>
      if n != ModuleParam {
        GetFrame(reg, st, n, current, fuel);
        assert Reach(reg, n, fuel) <= ReachAll(reg, ParamNames(p) - {ModuleParam}, fuel);
      }
    case Group(ns) =>
      ArgsFrame(reg, st, Singles(ns), current, from, fuel);
      DepNamesOfSingles(ns);
  }

  lemma {:induction false} ArgsFrame(reg: Registry, st: State, params: seq<Param>, current: string, from: string, fuel: nat)
    decreases fuel, ListDepth(params), 1, |params|
    ensures Frame(reg, st, ResolveArgs(reg, st, params, current, from, fuel).state,
                  ReachAll(reg, DepNames(params), fuel))
  {
    if |params| > 0 {
      ParamFrame(reg, st, params[0], current, from, fuel);
      var first := ResolveParam(reg, st, params[0], current, from, fuel);
      DepNamesSplit(params);
      ReachAllMono(reg, ParamNames(params[0]) - {ModuleParam}, DepNames(params), fuel);
      if first.outcome.Ok? {
        ArgsFrame(reg, first.state, params[1..], current, from, fuel);
        ReachAllMono(reg, DepNames(params[1..]), DepNames(params), fuel);
        FrameTrans(reg, st, first.state, ResolveArgs(reg, first.state, params[1..], current, from, fuel).state,
                   ReachAll(reg, ParamNames(params[0]) - {ModuleParam}, fuel),
                   ReachAll(reg, DepNames(params[1..]), fuel),
                   ReachAll(reg, DepNames(params), fuel));
      }
    }
  }

  /* ---------------------------------------------------------------------
     Singleton and transient lifetimes
     --------------------------------------------------------------------- */

  /** Singleton identity: once a non-transient service has resolved to a
      truthy value, resolving anything else leaves that value in place, and
      resolving the service again, from any requester, returns the same value
      without invoking a factory or touching the cache. */
  lemma SingletonIdentity(reg: Registry, st: State, name: string, other: string,
                          from1: string, from2: string, from3: string,
                          fuel1: nat, fuel2: nat, fuel3: nat)
    requires name in reg && !reg[name].transient
    requires Get(reg, st, name, from1, fuel1).outcome.Ok?
    requires Truthy(Get(reg, st, name, from1, fuel1).outcome.value)
    ensures var first := Get(reg, st, name, from1, fuel1);
            var between := Get(reg, first.state, other, from2, fuel2);
            Get(reg, between.state, name, from3, fuel3) == Resolved(first.outcome, between.state)
  {
    var first := Get(reg, st, name, from1, fuel1);
    GetFrame(reg, first.state, other, from2, fuel2);
  }

  /** A falsy value is stored but never counts as a hit: resolving the same
      name again invokes a factory again. */
  lemma FalsyValueReinvoked(reg: Registry, st: State, name: string,
                            from1: string, from2: string, fuel1: nat, fuel2: nat)
    requires Get(reg, st, name, from1, fuel1).outcome.Ok?
    requires !Truthy(Get(reg, st, name, from1, fuel1).outcome.value)
    ensures var first := Get(reg, st, name, from1, fuel1);
            var second := Get(reg, first.state, name, from2, fuel2);
            !Hit(first.state.cache, name) &&
            (second.outcome.Ok? ==> first.state.next < second.state.next)
  {
    var first := Get(reg, st, name, from1, fuel1);
    GetFrame(reg, st, name, from1, fuel1);
    GetFrame(reg, first.state, name, from2, fuel2);
  }

  /** A transient service's cache entry is never written, so every
      resolution of it invokes its factory again. */
  lemma TransientReinvoked(reg: Registry, st: State, name: string,
                           from1: string, from2: string, fuel1: nat, fuel2: nat)
    requires name in reg && reg[name].transient
    requires !Hit(st.cache, name)
    ensures var first := Get(reg, st, name, from1, fuel1);
            var second := Get(reg, first.state, name, from2, fuel2);
            && (name in first.state.cache <==> name in st.cache)
            && (name in st.cache ==> first.state.cache[name] == st.cache[name])
            && (second.outcome.Ok? ==> first.state.next < second.state.next)
  {
    var first := Get(reg, st, name, from1, fuel1);
    GetFrame(reg, st, name, from1, fuel1);
    GetFrame(reg, first.state, name, from2, fuel2);
  }

  /** A factory written as a constructor: it always returns `undefined`. */
  ghost predicate ConstructorStyle(f: Factory) {
    forall recv, args :: f.body(recv, args) == Returned(Undefined)
  }

  /** The value of an invocation: once the arguments resolve, the factory
      runs on the receiver allocated next. Its return value is the service's
      value, the receiver stands in for `undefined`, and a throw is the
      failure of the resolution. */
  lemma InvokedValue(reg: Registry, st: State, name: string, from: string, fuel: nat)
    requires name in reg && !Hit(st.cache, name) && fuel > 0
    requires ResolveArgs(reg, st, reg[name].params, name, from, fuel - 1).outcome.Ok?
    ensures var args := ResolveArgs(reg, st, reg[name].params, name, from, fuel - 1);
            var recv := Instance(args.state.next);
            var call := reg[name].body(recv, args.outcome.value);
            var res := Get(reg, st, name, from, fuel);
            && res.state.next == args.state.next + 1
            && (call == Returned(Undefined) ==> res.outcome == Ok(recv))
            && (call.Returned? && call.value != Undefined ==> res.outcome == Ok(call.value))
            && (call.Threw? ==> res.outcome == Fail(FactoryThrew(call.error)))
  {
    var args := ResolveArgs(reg, st, reg[name].params, name, from, fuel - 1);
    assert Get(reg, st, name, from, fuel) == Invoke(name, reg[name], args);
  }

  /** A factory that returns `undefined` on this call yields the receiver
      allocated for this very invocation, which is newer than anything
      allocated before the call. */
  lemma ConstructedReceiver(reg: Registry, st: State, name: string, from: string, fuel: nat)
    requires name in reg && !Hit(st.cache, name) && fuel > 0
    requires var args := ResolveArgs(reg, st, reg[name].params, name, from, fuel - 1);
             && args.outcome.Ok?
             && reg[name].body(Instance(args.state.next), args.outcome.value) == Returned(Undefined)
    ensures var res := Get(reg, st, name, from, fuel);
            && res.outcome.Ok?
            && st.next < res.state.next && res.outcome.value == Instance(res.state.next - 1)
  {
    InvokedValue(reg, st, name, from, fuel);
    ArgsFrame(reg, st, reg[name].params, name, from, fuel - 1);
  }

  /** Transient freshness: two resolutions of a transient constructor-style
      service yield two different receivers. */
  lemma TransientFresh(reg: Registry, st: State, name: string,
                       from1: string, from2: string, fuel1: nat, fuel2: nat)
    requires name in reg && reg[name].transient && ConstructorStyle(reg[name])
    requires !Hit(st.cache, name)
    requires Get(reg, st, name, from1, fuel1).outcome.Ok?
    requires Get(reg, Get(reg, st, name, from1, fuel1).state, name, from2, fuel2).outcome.Ok?
    ensures var first := Get(reg, st, name, from1, fuel1);
            Get(reg, first.state, name, from2, fuel2).outcome.value != first.outcome.value
  {
    var first := Get(reg, st, name, from1, fuel1);
    TransientReinvoked(reg, st, name, from1, from2, fuel1, fuel2);
    CalledConstructor(reg, st, name, from1, fuel1);
    CalledConstructor(reg, first.state, name, from2, fuel2);
  }

  /** A successful invocation of a constructor-style factory yields its own
      fresh receiver. */
  lemma CalledConstructor(reg: Registry, st: State, name: string, from: string, fuel: nat)
    requires name in reg && ConstructorStyle(reg[name]) && !Hit(st.cache, name)
    requires Get(reg, st, name, from, fuel).outcome.Ok?
    ensures var res := Get(reg, st, name, from, fuel);
            st.next < res.state.next && res.outcome.value == Instance(res.state.next - 1)
  {
    var args := ResolveArgs(reg, st, reg[name].params, name, from, fuel - 1);
    assert Get(reg, st, name, from, fuel) == Invoke(name, reg[name], args);
    assert reg[name].body(Instance(args.state.next), args.outcome.value) == Returned(Undefined);
    ConstructedReceiver(reg, st, name, from, fuel);
  }

  /** A dependency asking for `module` at position `i`, alone or inside a
      group, receives the descriptor of the service it is resolved for,
      provided it is not already cached once that service's earlier
      arguments are resolved. */
  lemma DependencyDescriptor(reg: Registry, st: State, name: string, dep: string, from: string, fuel: nat, j: nat, i: nat)
    requires name in reg && j < |reg[name].params| && reg[name].params[j] == Single(dep) && dep != ModuleParam
    requires dep in reg && i < |reg[dep].params|
    requires ReturnsArgument(reg[name], j) && ReturnsArgument(reg[dep], i)
    requires !Hit(st.cache, name)
    requires fuel > 0 ==> !Hit(ResolveArgs(reg, st, reg[name].params[..j], name, from, fuel - 1).state.cache, dep)
    ensures ShowsDescriptor(reg[dep].params[i], Get(reg, st, name, from, fuel).outcome, Descriptor(name))
  {
    var o := Get(reg, st, name, from, fuel).outcome;
    if o.Ok? {
      assert fuel > 0 by {
        ObservedDependency(reg, st, name, dep, from, fuel, j);
      }
      var before := ResolveArgs(reg, st, reg[name].params[..j], name, from, fuel - 1);
      var o' := Get(reg, before.state, dep, name, fuel - 1).outcome;
      assert o' == o by {
        ObservedDependency(reg, st, name, dep, from, fuel, j);
      }
      assert ShowsDescriptor(reg[dep].params[i], o', Descriptor(name)) by {
        RequesterDescriptor(reg, before.state, dep, name, fuel - 1, i);
      }
    }
  }

  /* ---------------------------------------------------------------------
     Fuel: the stand-in for unbounded recursion
     --------------------------------------------------------------------- */

  /** A resolution that finished within some fuel finishes identically with
      more: fuel only cuts off recursion, it never changes a result. */
  lemma {:induction false} GetFuel(reg: Registry, st: State, name: string, from: string, fuel: nat, more: nat)
    decreases fuel, 0
    requires fuel <= more
    requires Get(reg, st, name, from, fuel).outcome != Fail(OutOfFuel)
    ensures Get(reg, st, name, from, more) == Get(reg, st, name, from, fuel)
  {
    if Hit(st.cache, name) || name !in reg {
      // Neither result depends on fuel: both come from the contract of `Get`.
    } else {
      assert fuel > 0;
      var f := reg[name];
      var args := ResolveArgs(reg, st, f.params, name, from, fuel - 1);
      assert Get(reg, st, name, from, fuel) == Invoke(name, f, args);
      assert args.outcome != Fail(OutOfFuel);
      assert ResolveArgs(reg, st, f.params, name, from, more - 1) == args by {
        ArgsFuel(reg, st, f.params, name, from, fuel - 1, more - 1);
      }
      assert Get(reg, st, name, from, more) == Invoke(name, f, ResolveArgs(reg, st, f.params, name, from, more - 1));
      assert Get(reg, st, name, from, more) == Invoke(name, f, args);
    }
  }

  lemma {:induction false} ParamFuel(reg: Registry, st: State, p: Param, current: string, from: string, fuel: nat, more: nat)
    decreases fuel, Depth(p), 0
    requires fuel <= more
    requires ResolveParam(reg, st, p, current, from, fuel).outcome != Fail(OutOfFuel)
    ensures ResolveParam(reg, st, p, current, from, more) == ResolveParam(reg, st, p, current, from, fuel)
  {
    match p
    case Single(n) =>
      if n != ModuleParam {
        GetFuel(reg, st, n, current, fuel, more);
      }
    case Group(ns) =>
      var members := ResolveArgs(reg, st, Singles(ns), current, from, fuel);
      assert members.outcome != Fail(OutOfFuel);
      ArgsFuel(reg, st, Singles(ns), current, from, fuel, more);
      assert ResolveArgs(reg, st, Singles(ns), current, from, more) == members;
  }

  lemma {:induction false} ArgsFuel(reg: Registry, st: State, params: seq<Param>, current: string, from: string, fuel: nat, more: nat)
    decreases fuel, ListDepth(params), 1, |params|
    requires fuel <= more
    requires ResolveArgs(reg, st, params, current, from, fuel).outcome != Fail(OutOfFuel)
    ensures ResolveArgs(reg, st, params, current, from, more) == ResolveArgs(reg, st, params, current, from, fuel)
  {
    if |params| > 0 {
      ParamFuel(reg, st, params[0], current, from, fuel, more);
      var first := ResolveParam(reg, st, params[0], current, from, fuel);
      if first.outcome.Ok? {
        ArgsFuel(reg, first.state, params[1..], current, from, fuel, more);
      }
    }
  }

  /** The dependency graph is acyclic, witnessed by a rank that strictly
      decreases along every dependency between registered services. */
  ghost predicate Ranked(reg: Registry, rank: string -> nat) {
    forall n, d :: n in reg && d in reg && d in DepNames(reg[n].params) ==> rank(d) < rank(n)
  }

  /** On an acyclic graph, fuel above the requested service's rank always
      suffices: resolution ends with a value, an unknown dependency or a
      factory's exception, never in endless recursion. */
  lemma {:induction false} AcyclicTerminates(reg: Registry, rank: string -> nat, st: State, name: string, from: string, fuel: nat)
    decreases fuel, 0
    requires Ranked(reg, rank)
    requires name in reg ==> rank(name) < fuel
    ensures Get(reg, st, name, from, fuel).outcome != Fail(OutOfFuel)
  {
    if !Hit(st.cache, name) && name in reg {
      ArgsTerminate(reg, rank, st, reg[name].params, name, from, fuel - 1);
    }
  }

  lemma {:induction false} ParamTerminates(reg: Registry, rank: string -> nat, st: State, p: Param, current: string, from: string, fuel: nat)
    decreases fuel, Depth(p), 0
    requires Ranked(reg, rank)
    requires forall d :: d in reg && d in ParamNames(p) - {ModuleParam} ==> rank(d) < fuel
    ensures ResolveParam(reg, st, p, current, from, fuel).outcome != Fail(OutOfFuel)
  {
    match p
    case Single(n) =>
      if n != ModuleParam {
        AcyclicTerminates(reg, rank, st, n, current, fuel);
      }
    case Group(ns) =>
      DepNamesOfSingles(ns);
      ArgsTerminate(reg, rank, st, Singles(ns), current, from, fuel);
  }

  lemma {:induction false} ArgsTerminate(reg: Registry, rank: string -> nat, st: State, params: seq<Param>, current: string, from: string, fuel: nat)
    decreases fuel, ListDepth(params), 1, |params|
    requires Ranked(reg, rank)
    requires forall d :: d in reg && d in DepNames(params) ==> rank(d) < fuel
    ensures ResolveArgs(reg, st, params, current, from, fuel).outcome != Fail(OutOfFuel)
  {
    if |params| > 0 {
      DepNamesSplit(params);
      ParamTerminates(reg, rank, st, params[0], current, from, fuel);
      var first := ResolveParam(reg, st, params[0], current, from, fuel);
      if first.outcome.Ok? {
        ArgsTerminate(reg, rank, first.state, params[1..], current, from, fuel);
      }
    }
  }

  /** A service whose first parameter is its own name, and which is not
      cached yet, recurses without end: no amount of fuel resolves it. */
  lemma {:induction false} SelfDependencyDiverges(reg: Registry, st: State, name: string, from: string, fuel: nat)
    decreases fuel
    requires name in reg && name != ModuleParam
    requires |reg[name].params| > 0 && reg[name].params[0] == Single(name)
    requires !Hit(st.cache, name)
    ensures Get(reg, st, name, from, fuel).outcome == Fail(OutOfFuel)
  {
    if fuel > 0 {
      SelfDependencyDiverges(reg, st, name, name, fuel - 1);
    }
  }

  /* ---------------------------------------------------------------------
     Argument lists
     --------------------------------------------------------------------- */

  /** Position `i` of a resolved argument list is parameter `i` resolved in
      the state the earlier positions left behind. */
  lemma {:induction false} ArgumentsInOrder(reg: Registry, st: State, params: seq<Param>, current: string, from: string, fuel: nat, i: nat)
    decreases i
    requires i < |params|
    requires ResolveArgs(reg, st, params, current, from, fuel).outcome.Ok?
    ensures var before := ResolveArgs(reg, st, params[..i], current, from, fuel);
            && before.outcome.Ok?
            && ResolveParam(reg, before.state, params[i], current, from, fuel).outcome
               == Ok(ResolveArgs(reg, st, params, current, from, fuel).outcome.value[i])
  {
    var first := ResolveParam(reg, st, params[0], current, from, fuel);
    if i == 0 {
      assert params[..0] == [];
    } else {
      ArgumentsInOrder(reg, first.state, params[1..], current, from, fuel, i - 1);
      assert params[..i][0] == params[0];
      assert params[..i][1..] == params[1..][..i - 1];
      assert params[1..][i - 1] == params[i];
    }
  }

  /** A failing argument ends the list: when the parameters before `j`
      resolve and parameter `j` fails, the whole list fails with that
      failure and keeps the state it left, and no later parameter is
      resolved. */
  lemma {:induction false} ArgsFailAt(reg: Registry, st: State, params: seq<Param>, current: string, from: string, fuel: nat, j: nat)
    decreases j
    requires j < |params|
    requires ResolveArgs(reg, st, params[..j], current, from, fuel).outcome.Ok?
    requires ResolveParam(reg, ResolveArgs(reg, st, params[..j], current, from, fuel).state, params[j], current, from, fuel).outcome.Fail?
    ensures var before := ResolveArgs(reg, st, params[..j], current, from, fuel);
            var failed := ResolveParam(reg, before.state, params[j], current, from, fuel);
            ResolveArgs(reg, st, params, current, from, fuel) == Resolved(Fail(failed.outcome.failure), failed.state)
  {
    if j == 0 {
      assert params[..0] == [];
    } else {
      var first := ResolveParam(reg, st, params[0], current, from, fuel);
      assert params[..j][0] == params[0];
      assert params[..j][1..] == params[1..][..j - 1];
      ArgsFailAt(reg, first.state, params[1..], current, from, fuel, j - 1);
      assert params[1..][j - 1] == params[j];
    }
  }

  /** A failing member ends a group the same way: the group parameter
      fails with the member's failure and the state it left. */
  lemma GroupFailAt(reg: Registry, st: State, ns: seq<string>, current: string, from: string, fuel: nat, k: nat)
    requires k < |ns|
    requires ResolveArgs(reg, st, Singles(ns)[..k], current, from, fuel).outcome.Ok?
    requires ResolveParam(reg, ResolveArgs(reg, st, Singles(ns)[..k], current, from, fuel).state, Single(ns[k]), current, from, fuel).outcome.Fail?
    ensures var members := ResolveArgs(reg, st, Singles(ns)[..k], current, from, fuel);
            var failed := ResolveParam(reg, members.state, Single(ns[k]), current, from, fuel);
            ResolveParam(reg, st, Group(ns), current, from, fuel) == Resolved(Fail(failed.outcome.failure), failed.state)
  {
    assert Singles(ns)[k] == Single(ns[k]);
    ArgsFailAt(reg, st, Singles(ns), current, from, fuel, k);
  }

  /** Both together: an unregistered name at member `k` of the group at
      position `j` ends the whole argument list with the unknown-dependency
      failure, in the state the earlier members left. */
  lemma UnknownMemberEndsArgs(reg: Registry, st: State, params: seq<Param>, ns: seq<string>,
                              current: string, from: string, fuel: nat, j: nat, k: nat,
                              before: Resolved<seq<Value>>, members: Resolved<seq<Value>>)
    requires j < |params| && params[j] == Group(ns)
    requires k < |ns| && ns[k] !in reg && ns[k] != ModuleParam
    requires before == ResolveArgs(reg, st, params[..j], current, from, fuel) && before.outcome.Ok?
    requires members == ResolveArgs(reg, before.state, Singles(ns)[..k], current, from, fuel) && members.outcome.Ok?
    requires !Hit(members.state.cache, ns[k])
    ensures ResolveArgs(reg, st, params, current, from, fuel)
            == Resolved(Fail(UnknownDependency(UnknownMessage(current, ns[k]))), members.state)
  {
    GroupFailAt(reg, before.state, ns, current, from, fuel, k);
    ArgsFailAt(reg, st, params, current, from, fuel, j);
  }

  /** A factory that returns its argument at position `i`, which makes
      that argument observable as the service's value. */
  ghost predicate ReturnsArgument(f: Factory, i: nat) {
    forall recv, args :: i < |args| ==> f.body(recv, args) == Returned(args[i])
  }

  /** What a factory receives at position `i`: when it returns that
      argument, the service's value is parameter `i` resolved, with the
      service as requester, in the state the earlier parameters left. */
  lemma ObservedArgument(reg: Registry, st: State, name: string, from: string, fuel: nat, i: nat)
    requires name in reg && i < |reg[name].params| && ReturnsArgument(reg[name], i)
    requires !Hit(st.cache, name) && Get(reg, st, name, from, fuel).outcome.Ok?
    ensures fuel > 0
    ensures var before := ResolveArgs(reg, st, reg[name].params[..i], name, from, fuel - 1);
            && before.outcome.Ok?
            && ResolveParam(reg, before.state, reg[name].params[i], name, from, fuel - 1).outcome
               == Get(reg, st, name, from, fuel).outcome
  {
    var f := reg[name];
    var args := ResolveArgs(reg, st, f.params, name, from, fuel - 1);
    assert Get(reg, st, name, from, fuel) == Invoke(name, f, args);
    assert args.outcome.Ok?;
    ArgumentsInOrder(reg, st, f.params, name, from, fuel - 1, i);
    var before := ResolveArgs(reg, st, f.params[..i], name, from, fuel - 1);
    var v := args.outcome.value[i];
    assert v != Undefined by {
      var r := ResolveParam(reg, before.state, f.params[i], name, from, fuel - 1);
      assert r.outcome == Ok(v);
      if f.params[i].Single? && f.params[i].name != ModuleParam {
        assert r == Get(reg, before.state, f.params[i].name, name, fuel - 1);
      }
    }
    assert Construct(f, Instance(args.state.next), args.outcome.value) == Ok(v);
  }

  /** The same for a plain dependency `dep` at position `j`: the service's
      value is `dep` resolved with the service as requester. */
  lemma ObservedDependency(reg: Registry, st: State, name: string, dep: string, from: string, fuel: nat, j: nat)
    requires name in reg && j < |reg[name].params| && reg[name].params[j] == Single(dep) && dep != ModuleParam
    requires ReturnsArgument(reg[name], j)
    requires !Hit(st.cache, name) && Get(reg, st, name, from, fuel).outcome.Ok?
    ensures fuel > 0
    ensures var before := ResolveArgs(reg, st, reg[name].params[..j], name, from, fuel - 1);
            Get(reg, before.state, dep, name, fuel - 1).outcome == Get(reg, st, name, from, fuel).outcome
  {
    ObservedArgument(reg, st, name, from, fuel, j);
  }

  /** The value a factory returns when it returns its argument for `p`,
      with `p` asking for `module`: the descriptor `d` itself, or a group
      object whose `module` field is `d`. */
  ghost predicate ShowsDescriptor(p: Param, o: Outcome<Value>, d: Value) {
    && (p == Single(ModuleParam) && o.Ok? ==> o == Ok(d))
    && (p.Group? && ModuleParam in p.names && o.Ok? ==>
          o.value.Bundle? && ModuleParam in o.value.fields && o.value.fields[ModuleParam] == d)
  }

  /** A service asking for `module` at position `i`, alone or inside a
      group, receives the descriptor of its requester. */
  lemma RequesterDescriptor(reg: Registry, st: State, name: string, from: string, fuel: nat, i: nat)
    requires name in reg && i < |reg[name].params| && ReturnsArgument(reg[name], i)
    requires !Hit(st.cache, name)
    ensures ShowsDescriptor(reg[name].params[i], Get(reg, st, name, from, fuel).outcome, Descriptor(from))
  {
    if Get(reg, st, name, from, fuel).outcome.Ok? {
      ObservedArgument(reg, st, name, from, fuel, i);
    }
  }

  /** Argument lists compose: resolving `[p] + rest` resolves `p`, then
      `rest` from the state `p` left behind. */
  lemma ArgsCons(reg: Registry, st: State, p: Param, rest: seq<Param>, current: string, from: string, fuel: nat,
                 v: Value, st1: State, vs: seq<Value>, st2: State)
    requires ResolveParam(reg, st, p, current, from, fuel) == Resolved(Ok(v), st1)
    requires ResolveArgs(reg, st1, rest, current, from, fuel) == Resolved(Ok(vs), st2)
    ensures ResolveArgs(reg, st, [p] + rest, current, from, fuel) == Resolved(Ok([v] + vs), st2)
  {
    assert ([p] + rest)[0] == p;
    assert ([p] + rest)[1..] == rest;
  }

  /** A resolution that invokes a factory, in three steps: the arguments are
      resolved with the service as requester, the factory runs on the next
      receiver, and a non-transient result is stored. */
  lemma GetInvokes(reg: Registry, st: State, name: string, from: string, fuel: nat,
                   args: seq<Value>, st1: State, v: Value)
    requires !Hit(st.cache, name) && name in reg && fuel > 0
    requires ResolveArgs(reg, st, reg[name].params, name, from, fuel - 1) == Resolved(Ok(args), st1)
    requires reg[name].body(Instance(st1.next), args) == Returned(v) && v != Undefined
    ensures Get(reg, st, name, from, fuel)
            == Resolved(Ok(v), State(if reg[name].transient then st1.cache else st1.cache[name := v], st1.next + 1))
  {
    assert Construct(reg[name], Instance(st1.next), args) == Ok(v);
  }

  /** A failed argument list fails the read with the same failure, keeping
      what the arguments cached and invoking nothing. */
  lemma GetFails(reg: Registry, st: State, name: string, from: string, fuel: nat, e: Failure, st1: State)
    requires !Hit(st.cache, name) && name in reg && fuel > 0
    requires ResolveArgs(reg, st, reg[name].params, name, from, fuel - 1) == Resolved(Fail(e), st1)
    ensures Get(reg, st, name, from, fuel) == Resolved(Fail(e), st1)
  {
    assert Get(reg, st, name, from, fuel) == Invoke(name, reg[name], Resolved(Fail(e), st1));
  }

  /** Each member of a grouped parameter other than `module` maps to that
      name resolved with the current service as requester, in the state the
      earlier members left behind (for a repeated name, its last occurrence). */
  lemma GroupMember(reg: Registry, st: State, ns: seq<string>, current: string, from: string, fuel: nat, i: nat)
    requires i < |ns| && ns[i] != ModuleParam && ns[i] !in ns[i + 1..]
    requires ResolveArgs(reg, st, Singles(ns), current, from, fuel).outcome.Ok?
    ensures var before := ResolveArgs(reg, st, Singles(ns[..i]), current, from, fuel);
            && before.outcome.Ok?
            && ResolveParam(reg, st, Group(ns), current, from, fuel).outcome.Ok?
            && Get(reg, before.state, ns[i], current, fuel).outcome
               == Ok(ResolveParam(reg, st, Group(ns), current, from, fuel).outcome.value.fields[ns[i]])
  {
    var ps := Singles(ns);
    var members := ResolveArgs(reg, st, ps, current, from, fuel);
    var value := ResolveParam(reg, st, Group(ns), current, from, fuel).outcome.value;
    assert members.outcome.Ok? && value == Bundle(ZipMap(ns, members.outcome.value));
    assert value.fields[ns[i]] == members.outcome.value[i];
    var before := ResolveArgs(reg, st, Singles(ns[..i]), current, from, fuel);
    assert before.outcome.Ok? && ResolveParam(reg, before.state, ps[i], current, from, fuel).outcome
           == Ok(members.outcome.value[i]) by {
      ArgumentsInOrder(reg, st, ps, current, from, fuel, i);
      assert ps[..i] == Singles(ns[..i]);
    }
    assert ps[i] == Single(ns[i]);
  }
}
