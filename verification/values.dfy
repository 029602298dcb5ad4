/** JavaScript values as far as the container can observe them, and the
    factory definitions a container is created from. */
module Values {

  /** A JavaScript value. Numbers are integers: floating point, NaN and -0
      are not modelled. Objects carry no heap identity except receivers,
      which are numbered by the allocation counter of the resolver. */
  datatype Value =
    | Undefined
    | Null
    | Bool(b: bool)
    | Num(n: int)
    | Str(s: string)
      /** A module descriptor `{ name }`. */
    | Descriptor(name: string)
      /** A plain object with the given own properties: the object assembled
          for a grouped parameter, or any other object a factory returns. */
    | Bundle(fields: map<string, Value>)
      /** A receiver created for one factory invocation. */
    | Instance(id: nat)
      /** An object or function whose contents the container never inspects. */
    | Other(tag: nat)

  /** JavaScript truthiness: `undefined`, `null`, `false`, `0` and `""` are
      falsy, every object is truthy. */
  predicate Truthy(v: Value) {
    match v
    case Undefined => false
    case Null => false
    case Bool(b) => b
    case Num(n) => n != 0
    case Str(s) => s != ""
    case _ => true
  }

  /** The reserved parameter name that receives the requester's descriptor. */
  const ModuleParam: string := "module"

  /** A declared parameter: one service name, or a destructured group of names
      bundled into a single object argument. */
  datatype Param = Single(name: string) | Group(names: seq<string>)

  /** How a factory call ends: with a return value (possibly `undefined`) or
      by throwing. */
  datatype Completion = Returned(value: Value) | Threw(error: Value)

  /** A registered factory: its declared parameters (the names a parameter
      extractor would report), the transient flag, and the call itself, which
      receives the fresh receiver and the positional arguments. */
  datatype Factory = Factory(params: seq<Param>, transient: bool, body: (Value, seq<Value>) -> Completion)

  /** The `factories` object handed to the container. */
  type Registry = map<string, Factory>

  /** The names a parameter mentions. */
  function ParamNames(p: Param): (r: set<string>)
  {
    match p
    case Single(n) => {n}
    case Group(ns) => set i | 0 <= i < |ns| :: ns[i]
  }

  /** The service names a parameter list resolves through the registry:
      every mentioned name except the reserved `module`. */
  function DepNames(params: seq<Param>): (r: set<string>)
  {
    set i, n | 0 <= i < |params| && n in ParamNames(params[i]) && n != ModuleParam :: n
  }

  /** The single-name parameters a group resolves, one per member. */
  function Singles(ns: seq<string>): (r: seq<Param>)
    ensures |r| == |ns|
    ensures forall i :: 0 <= i < |ns| ==> r[i] == Single(ns[i])
  {
    seq(|ns|, i requires 0 <= i < |ns| => Single(ns[i]))
  }
}
