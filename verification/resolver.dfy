/** The resolution engine: the inner `get(name, fromModule)` of
    `createContainer`, with its singleton cache passed as state. */
module Resolver {
  import opened Values

  /** The singleton cache (`instantiated`) and the allocation counter that
      numbers receivers. Every factory invocation allocates exactly one
      receiver, so `next` also counts invocations. */
  datatype State = State(cache: map<string, Value>, next: nat)

  /** Why a resolution did not produce a value. `OutOfFuel` stands for the
      unbounded recursion of a dependency cycle; the source has no such error. */
  datatype Failure =
    | UnknownDependency(message: string)
    | FactoryThrew(error: Value)
    | OutOfFuel

  datatype Outcome<+T> = Ok(value: T) | Fail(failure: Failure)

  /** An outcome together with the state it leaves behind. */
  datatype Resolved<+T> = Resolved(outcome: Outcome<T>, state: State)

  /** The cache test of `get`: an entry counts only when it is truthy. */
  predicate Hit(cache: map<string, Value>, name: string) {
    name in cache && Truthy(cache[name])
  }

  /** `fromModule.name || '()'` */
  function RequesterLabel(from: string): (shown: string) {
    if from == "" then "()" else from
  }

  function UnknownMessage(from: string, name: string): (message: string) {
    "Unknown dependency: " + RequesterLabel(from) + " -> " + name + "."
  }

  /** Calls a factory on a receiver: the value is what it returns, or the
      receiver when it returns `undefined`; a throw becomes a failure. */
  function Construct(f: Factory, recv: Value, args: seq<Value>): (r: Outcome<Value>)
    ensures r.Ok? <==> f.body(recv, args).Returned?
    ensures f.body(recv, args) == Returned(Undefined) ==> r == Ok(recv)
    ensures f.body(recv, args).Returned? && f.body(recv, args).value != Undefined ==>
              r == Ok(f.body(recv, args).value)
    ensures r.Ok? && r.value != recv ==> f.body(recv, args) == Returned(r.value)
    ensures f.body(recv, args).Threw? ==> r == Fail(FactoryThrew(f.body(recv, args).error))
    ensures recv != Undefined && r.Ok? ==> r.value != Undefined
  {
    match f.body(recv, args)
    case Threw(e) => Fail(FactoryThrew(e))
    case Returned(v) => Ok(if v == Undefined then recv else v)
  }

  /** `get(name, fromModule)` where `from` is the requester's name. Each
      level of nested factory invocation consumes one unit of fuel, so fuel
      bounds the depth of the resolution, not the number of invocations;
      running out stands for the endless recursion of a dependency cycle. */
  function Get(reg: Registry, st: State, name: string, from: string, fuel: nat): (res: Resolved<Value>)
    decreases fuel, 0
    ensures Hit(st.cache, name) ==> res == Resolved(Ok(st.cache[name]), st)
    ensures !Hit(st.cache, name) && name !in reg ==>
              res == Resolved(Fail(UnknownDependency(UnknownMessage(from, name))), st)
    ensures res.outcome.Ok? ==> res.outcome.value != Undefined
    ensures res.outcome.Ok? && name in reg && !reg[name].transient ==>
              name in res.state.cache && res.state.cache[name] == res.outcome.value
  {
    if Hit(st.cache, name) then Resolved(Ok(st.cache[name]), st)
    else if name !in reg then Resolved(Fail(UnknownDependency(UnknownMessage(from, name))), st)
    else if fuel == 0 then Resolved(Fail(OutOfFuel), st)
    else Invoke(name, reg[name], ResolveArgs(reg, st, reg[name].params, name, from, fuel - 1))
  }

  /** The second half of `get`: once the arguments are resolved, the factory
      runs on the next receiver and a non-transient result is stored under
      `name`. A failure of the arguments propagates unchanged. */
  function Invoke(name: string, f: Factory, args: Resolved<seq<Value>>): (res: Resolved<Value>)
    ensures args.outcome.Fail? ==> res == Resolved(Fail(args.outcome.failure), args.state)
    ensures args.outcome.Ok? ==> res.state.next == args.state.next + 1
    ensures args.outcome.Ok? ==> res.outcome == Construct(f, Instance(args.state.next), args.outcome.value)
    ensures res.outcome.Ok? ==> res.outcome.value != Undefined
    ensures f.transient || res.outcome.Fail? ==> res.state.cache == args.state.cache
    ensures !f.transient && res.outcome.Ok? ==> res.state.cache == args.state.cache[name := res.outcome.value]
  {
    if args.outcome.Fail? then Resolved(Fail(args.outcome.failure), args.state)
    else
      var recv := Instance(args.state.next);
      var st' := args.state.(next := args.state.next + 1);
      var r := Construct(f, recv, args.outcome.value);
      if r.Fail? || f.transient then Resolved(r, st')
      else Resolved(r, st'.(cache := st'.cache[name := r.value]))
  }

  /** Orders the recursion: groups resolve through single-name lists. */
  function Depth(p: Param): (d: nat) {
    if p.Single? then 1 else 2
  }

  function ListDepth(params: seq<Param>): (d: nat) {
    if forall i :: 0 <= i < |params| ==> params[i].Single? then 1 else 2
  }

  /** One declared parameter, resolved for service `current` requested by
      `from`: `module` is the requester's descriptor, any other name is
      resolved with `current` as its requester, and a group becomes an
      object keyed by its members. */
  function ResolveParam(reg: Registry, st: State, p: Param, current: string, from: string, fuel: nat): (res: Resolved<Value>)
    decreases fuel, Depth(p), 0
    ensures p == Single(ModuleParam) ==> res == Resolved(Ok(Descriptor(from)), st)
    ensures p.Single? && p.name != ModuleParam ==> res == Get(reg, st, p.name, current, fuel)
    ensures p.Group? && res.outcome.Ok? ==>
              res.outcome.value.Bundle? && res.outcome.value.fields.Keys == ParamNames(p)
    ensures p.Group? && res.outcome.Ok? && ModuleParam in p.names ==>
              res.outcome.value.fields[ModuleParam] == Descriptor(from)
  {
    match p
    case Single(n) =>
      if n == ModuleParam then Resolved(Ok(Descriptor(from)), st)
      else Get(reg, st, n, current, fuel)
    case Group(ns) =>
      var members := ResolveArgs(reg, st, Singles(ns), current, from, fuel);
      if members.outcome.Fail? then Resolved(Fail(members.outcome.failure), members.state)
      else Resolved(Ok(Bundle(ZipMap(ns, members.outcome.value))), members.state)
  }

  /** The argument list of a factory, resolved left to right with the state
      threaded through; the first failure ends the resolution and keeps
      whatever the earlier arguments cached. */
  function ResolveArgs(reg: Registry, st: State, params: seq<Param>, current: string, from: string, fuel: nat): (res: Resolved<seq<Value>>)
    decreases fuel, ListDepth(params), 1, |params|
    ensures res.outcome.Ok? ==> |res.outcome.value| == |params|
    ensures res.outcome.Ok? ==>
              forall i :: 0 <= i < |params| && params[i] == Single(ModuleParam) ==>
                res.outcome.value[i] == Descriptor(from)
    ensures res.outcome.Ok? ==>
              forall i :: 0 <= i < |params| && params[i].Group? ==>
                res.outcome.value[i].Bundle? && res.outcome.value[i].fields.Keys == ParamNames(params[i])
  {
    if |params| == 0 then Resolved(Ok([]), st)
    else
      var first := ResolveParam(reg, st, params[0], current, from, fuel);
      if first.outcome.Fail? then Resolved(Fail(first.outcome.failure), first.state)
      else
        var rest := ResolveArgs(reg, first.state, params[1..], current, from, fuel);
        if rest.outcome.Fail? then rest
        else Resolved(Ok([first.outcome.value] + rest.outcome.value), rest.state)
  }

  /** The object a group's `reduce` builds: each name maps to its value,
      a later duplicate overwriting an earlier one. */
  function ZipMap(ns: seq<string>, vs: seq<Value>): (r: map<string, Value>)
    requires |ns| == |vs|
    ensures r.Keys == set i | 0 <= i < |ns| :: ns[i]
    ensures forall i :: 0 <= i < |ns| && ns[i] !in ns[i + 1..] ==> r[ns[i]] == vs[i]
    ensures forall k :: k in r ==> exists i :: 0 <= i < |ns| && ns[i] == k && r[k] == vs[i]
  {
    if |ns| == 0 then map[]
    else
      var rest := ZipMap(ns[1..], vs[1..]);
      ZipStep(ns, vs, rest);
      map[ns[0] := vs[0]] + rest
  }

  /** One step of `ZipMap`: extending the map of the tail by the head. */
  lemma ZipStep(ns: seq<string>, vs: seq<Value>, rest: map<string, Value>)
    requires |ns| == |vs| > 0
    requires rest.Keys == set i | 0 <= i < |ns[1..]| :: ns[1..][i]
    requires forall i :: 0 <= i < |ns[1..]| && ns[1..][i] !in ns[1..][i + 1..] ==> rest[ns[1..][i]] == vs[1..][i]
    requires forall k :: k in rest ==> exists i :: 0 <= i < |ns[1..]| && ns[1..][i] == k && rest[k] == vs[1..][i]
    ensures var r := map[ns[0] := vs[0]] + rest;
            && r.Keys == (set i | 0 <= i < |ns| :: ns[i])
            && (forall i :: 0 <= i < |ns| && ns[i] !in ns[i + 1..] ==> r[ns[i]] == vs[i])
            && (forall k :: k in r ==> exists i :: 0 <= i < |ns| && ns[i] == k && r[k] == vs[i])
  {
    var r := map[ns[0] := vs[0]] + rest;
    var tl := ns[1..];
    assert r.Keys == (set i | 0 <= i < |ns| :: ns[i]) by {
      forall k | k in r ensures k in (set i | 0 <= i < |ns| :: ns[i]) {
        if k != ns[0] {
          var j :| 0 <= j < |tl| && tl[j] == k;
          assert ns[j + 1] == k;
        }
      }
      forall i | 0 <= i < |ns| ensures ns[i] in r {
        if i > 0 { assert ns[i] == tl[i - 1]; }
      }
    }
    assert forall i :: 0 <= i < |ns| && ns[i] !in ns[i + 1..] ==> r[ns[i]] == vs[i] by {
      forall i | 0 <= i < |ns| && ns[i] !in ns[i + 1..] ensures r[ns[i]] == vs[i] {
        if i > 0 {
          assert tl[i - 1] == ns[i] && tl[i - 1 + 1..] == ns[i + 1..];
          assert vs[1..][i - 1] == vs[i];
        }
      }
    }
    assert forall k :: k in r ==> exists i :: 0 <= i < |ns| && ns[i] == k && r[k] == vs[i] by {
      forall k | k in r ensures exists i :: 0 <= i < |ns| && ns[i] == k && r[k] == vs[i] {
        if k in rest {
          var j :| 0 <= j < |tl| && tl[j] == k && rest[k] == vs[1..][j];
          assert ns[j + 1] == k && r[k] == vs[j + 1];
        } else {
          assert ns[0] == k && r[k] == vs[0];
        }
      }
    }
  }
}
