# ioc container resolution engine in Dafny

The project models the small dependency-injection container of `index.js`.
`createContainer(factories)` gets a map from service names to factory
functions. It returns an object with one getter per service name. Reading a
getter resolves the service lazily with the inner `get(name, fromModule)`:

1. A truthy entry in the singleton cache is returned as is.
2. A name with no factory fails with `Unknown dependency: <requester> -> <name>.`
3. Otherwise each declared parameter is resolved in order:
   - a plain name recursively, with the current service as requester;
   - a destructured group of names member by member, into one object;
   - the reserved name `module`, which receives the requester's descriptor.
4. The factory then runs on a fresh receiver. Its return value is the service's
   value, or the receiver when it returns `undefined`.
5. The value is cached unless the factory was marked with
   `createContainer.transient`.

Files:

- `values.dfy` (module `Values`): JavaScript values with their truthiness,
  declared parameters, and factory definitions.
- `resolver.dfy` (module `Resolver`): `get` as the state-passing function
  `Get`, plus the argument resolution it performs. The state is the cache and
  an allocation counter.
- `resolver_facts.dfy` (module `ResolverFacts`): properties that relate
  several calls or hold through the whole recursion. These cover the cache
  frame, singleton and transient lifetimes, fuel, acyclicity and argument order.
- `container.dfy` (module `Container`): the root getters,
  `createContainer.transient`, and the demo application of `example.js`.

Modelling choices:

- The source has no cycle detection and recurses forever on a cycle. Here
  each level of nested factory invocation costs one unit of `fuel`: a
  service's arguments are all resolved with one unit less than the service
  itself, so fuel bounds the depth of a resolution, not the number of
  invocations. Running out gives the outcome `OutOfFuel`; no error of that
  kind exists in the source. The lemmas
  show that fuel never changes a result that finished (`GetFuel`). They show
  that an acyclic graph never runs out (`AcyclicTerminates`), and that a
  service depending on itself always does (`SelfDependencyDiverges`).
- Each invocation allocates one receiver `Instance(next)`. The counter `next`
  therefore also counts factory invocations.
- The parameter names a factory declares are given as data with each
  factory. The source extracts them with the external `fn-annotate` library.
- Notes on the code's behaviour:
  - The cache test is truthiness, so a falsy value (`0`, `""`, `false`,
    `null`) is stored but never reused. Its factory runs again on every access
    (`FalsyValueReinvoked`).
  - The root requester is named `(root)`. The `()` fallback of the message
    only appears for a requester whose name is the empty string.
  - `get("module")` at top level is an ordinary lookup. `module` is only
    special as a parameter or a group member.

## Model

| member | source | states |
|---|---|---|
| Resolver.Get | index.js:14-49 | A truthy cache entry is returned with the state unchanged. An uncached name without a factory fails with the exact `Unknown dependency` message and changes nothing. A resolved value is never `undefined`. A non-transient service's value is in the cache afterwards. |
| Resolver.Invoke | index.js:35-47 | After the arguments resolve, exactly one receiver is allocated: the one numbered by the counter the arguments left. The outcome is the factory called on that receiver and the arguments, as `Construct` defines it, and the value is never `undefined`. A non-transient value is stored under the service's name and nothing else in the cache changes; a transient or failed call leaves the cache as the arguments left it. A failure of the arguments is passed on with their state. |
| Resolver.Construct | index.js:35-42 | A return value other than `undefined` is the value, and `undefined` gives the receiver. Any value other than the receiver is what the factory returned. A throw becomes a failure carrying the thrown value. |
| Resolver.ResolveParam | index.js:20-33 | A `module` parameter yields the requester's descriptor and changes nothing. Any other name is `get(name)` with the current service as requester. A group yields an object whose keys are exactly the group's names, with `module` mapped to the requester's descriptor. |
| Resolver.ResolveArgs | index.js:19-33 | The argument list has one entry per declared parameter. `module` positions hold the requester's descriptor. Group positions hold objects keyed by exactly their names. |
| Resolver.ZipMap | index.js:22-29 | The object a group's `reduce` builds has exactly the listed names as keys. Each key maps to the value of its last occurrence. |
| ResolverFacts.GetFrame | index.js:44-47 | A resolution never removes a cache entry and never changes a truthy one. It only writes entries of registered non-transient services reachable from the requested name. The invocation counter never decreases, and it grows when the name was not a cache hit and the resolution succeeds. |
| ResolverFacts.ArgsFrame | index.js:20-33 | The same frame for resolving an argument list: only services reachable from the declared names are written. |
| ResolverFacts.SingletonIdentity | index.js:16-46 | Once a non-transient service has a truthy value, resolving any other name keeps it. Resolving the service again, from any requester, returns the identical value and leaves the state alone. |
| ResolverFacts.FalsyValueReinvoked | index.js:16 | A falsy resolved value is no cache hit afterwards, so the next resolution of that name invokes a factory again. |
| ResolverFacts.TransientReinvoked | index.js:44-47 | A transient service's cache entry is untouched by its own resolution, so every resolution invokes its factory again. |
| ResolverFacts.InvokedValue | index.js:35-47 | Once the arguments of an uncached service resolve, one receiver is allocated. If the factory returns `undefined` on that receiver and the arguments, the value is the receiver. Any other return value is the value itself. A throw is the failure of the resolution. |
| ResolverFacts.ConstructedReceiver | index.js:35-42 | When the factory returns `undefined` on this call, the service's value is the receiver allocated for this invocation, newer than anything allocated before. |
| ResolverFacts.CalledConstructor | index.js:35-42 | A successful resolution of an uncached service whose factory always returns `undefined` yields its own freshly allocated receiver. |
| ResolverFacts.TransientFresh | index.js:35-47 | Two resolutions of a transient constructor-style service yield different receivers. |
| ResolverFacts.GetFuel | index.js:14-49 | Fuel only cuts recursion off: a resolution that did not run out gives the identical result and state with any larger fuel. |
| ResolverFacts.AcyclicTerminates | index.js:14-49 | If a rank strictly decreases along every dependency, fuel above the requested service's rank never runs out. |
| ResolverFacts.SelfDependencyDiverges | index.js:17-32 | An uncached service whose first parameter is its own name runs out of fuel for every fuel, i.e. recurses without end. |
| ResolverFacts.ObservedArgument | index.js:20-43 | When a factory returns its argument at position `i`, the service's value is parameter `i` resolved, with the service as requester, in the state the earlier parameters left. |
| ResolverFacts.RequesterDescriptor | index.js:22-30 | A service asking for `module` at any position, alone or inside a group, receives its requester's descriptor. |
| ResolverFacts.DependencyDescriptor | index.js:15-32 | A dependency named by a plain parameter of a service, and asking for `module` itself, receives that service's descriptor, provided it is not cached after the service's earlier arguments. |
| ResolverFacts.ArgsFailAt | index.js:20-33 | When the parameters before position `j` resolve and parameter `j` fails, the whole argument list fails with that failure. It keeps the state parameter `j` left, so no later parameter is resolved. |
| ResolverFacts.GroupFailAt | index.js:21-29 | A failing member of a group fails the whole group the same way, after the members before it and with the state it left. |
| ResolverFacts.UnknownMemberEndsArgs | index.js:18-29 | An unregistered, uncached name at member `k` of the group at position `j` fails the argument list with the unknown-dependency message for the current service and that name. The state is the one the earlier parameters and members left. |
| ResolverFacts.GetFails | index.js:20-36 | When the arguments of an uncached service fail, the resolution fails with the same failure and state, and the factory is never invoked. |
| ResolverFacts.ArgumentsInOrder | index.js:20-36 | Argument `i` is parameter `i` resolved in the state left by the arguments before it. |
| ResolverFacts.GroupMember | index.js:21-29 | A non-`module` member of a group maps to `get(member)` with the current service as requester. It is resolved in the state the earlier members left. |
| Container.Access | index.js:53-58 | Reading an unregistered key gives `undefined` and changes nothing. A registered key returns its cached truthy value unchanged. Otherwise the value is never `undefined`, and it is cached unless transient. |
| Container.RootRequester | index.js:53-58 | A service read from the container that asks for `module`, at any parameter position and alone or inside a group, receives the `(root)` descriptor. |
| Container.DependencyRequester | index.js:15-32 | A dependency that asks for `module`, at any position and alone or inside a group, receives the descriptor of the service whose plain parameter names it, not the root's. This holds when the dependency is not yet cached after the service's earlier arguments; a cached one keeps the value built for its first requester. |
| Container.UnknownDependencyNamesBoth | index.js:18-33 | Reading a service whose plain parameter at position `j` names an unregistered service fails with `Unknown dependency: <service> -> <dependency>.` This holds once the earlier parameters have resolved. What they cached stays, and no later parameter is resolved. |
| Container.MarkTransient | index.js:62-65 | `transient(fn)` returns the same factory with the transient flag set and nothing else changed. |
| Container.TransientNeverCached | index.js:62-65 | A factory registered through `transient` gets no cache entry. A successful first read invokes it, and a successful second read invokes it again. |
| Container.DemoScenario | example.js:6-29 | Reading `demo` from a fresh demo container gives `example == 6` and a logger made for `demo`. It takes six factory invocations, and everything except the transient logger is cached. |
| Container.DemoExampleArgs | example.js:9-14 | The arguments of `example` are 1, 2 and 3, the values of `x`, `y` and `z`. Resolving them takes three invocations and caches the three. |
| Container.DemoExample | example.js:9-14 | In the demo, `example` resolves to 6 with four factory invocations, and `x`, `y`, `z` and `example` are cached afterwards. |
| Container.DemoLog | example.js:8 | The transient demo logger is rebuilt for its requester `demo` on every resolution and never cached. |

## Left out

- Parameter-name extraction (`fn-annotate`, index.js:1 and 19) is an external library. Each factory carries its parameter list as data.
- Receivers are abstract. The model keeps the receiver's identity only: `Object.create(ctor.prototype || {})`, prototypes, and what a constructor-style factory writes into the receiver are not modelled.
- Module descriptors and group objects are compared by contents. In JavaScript each is a fresh object with its own identity.
- Factory bodies are pure functions of the receiver and the arguments. Their side effects and any access to the container through a closure are not modelled.
- `Object.defineProperty` details (enumerability, no setter) are not modelled. Prototype-chain lookups are not modelled either: in `factories[name]` and `instantiated[name]` (for example a service named `toString`), and on the container object itself, where keys such as `toString`, `constructor` or `__proto__` read inherited values rather than `undefined`. Both maps and the container are plain finite maps here, so `Access` gives `undefined` for every unregistered key.
- Registering a non-function value is not modelled. A falsy one would read as an unknown dependency, and a truthy one would fail inside `annotate`.
- `transient(fn)` mutates the function object, so a function registered under two names becomes transient under both. `MarkTransient` returns an updated value instead.
- Numbers are integers; floating point, `NaN` and `-0` are not modelled.
- Unbounded recursion on a dependency cycle is replaced by fuel, as described above.
- UnknownDependencyNamesBoth: covers an unregistered name given as a plain parameter. For an unregistered member of a grouped parameter, ResolverFacts.UnknownMemberEndsArgs states the failure of the argument list and ResolverFacts.GetFails carries it to the resolution; no single lemma states it for a root read.
- DependencyRequester: covers a dependency named by a plain parameter of the service. A dependency reached as a member of a grouped parameter is not covered here; GroupMember relates such a member to its own resolution.
- SelfDependencyDiverges: covers only a service whose first parameter is its own name. Longer cycles also recurse without end in the source but are not characterised here.
- The external logger of `example.js` (`@aantthony/logger`) is replaced by an object recording the module name it was made for. The demo's `run` method is not modelled; its object only records the values `run` would use.
