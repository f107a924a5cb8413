/** The slice of Python's object model that the request pipeline inspects:
    JSON-shaped values, callables as `inspect` sees them, and everything else
    as an opaque object with a type name. */
module Python {
  import opened Wrappers

  /** How `asyncio.iscoroutinefunction` and `inspect.isasyncgenfunction`
      classify a callable. */
  datatype FuncKind = Coroutine | AsyncGenerator | Plain

  /** One parameter of `inspect.signature(...)`; `default` is `None` when the
      parameter declares no default (`Parameter.empty`). */
  datatype Param = Param(name: string, default: Option<Obj>)

  /** A callable as introspection sees it. `definedIn` is its `__module__`;
      `hints` is what `typing.get_type_hints` returns, each hint kept as
      its source text. */
  datatype Callable = Callable(
    qualname: string,
    definedIn: string,
    kind: FuncKind,
    params: seq<Param>,
    hints: map<string, string>)

  /** A Python value. Dictionary keys are objects, so a dictionary whose keys
      are not all strings is representable. `Other` is any object outside the
      JSON shapes, with its type name and its truth value. */
  datatype Obj =
    | NoneObj
    | Bool(b: bool)
    | Int(i: int)
    | Str(s: string)
    | List(items: seq<Obj>)
    | Dict(entries: map<Obj, Obj>)
    | Func(callable: Callable)
    | Other(typeName: string, truthy: bool)

  /** Python's truth value (`bool(o)`). */
  predicate Truthy(o: Obj) {
    match o
    case NoneObj => false
    case Bool(b) => b
    case Int(i) => i != 0
    case Str(s) => s != ""
    case List(items) => items != []
    case Dict(entries) => entries != map[]
    case Func(_) => true
    case Other(_, t) => t
  }

  /** The name of `type(o)`. */
  function TypeName(o: Obj): string {
    match o
    case NoneObj => "NoneType"
    case Bool(_) => "bool"
    case Int(_) => "int"
    case Str(_) => "str"
    case List(_) => "list"
    case Dict(_) => "dict"
    case Func(_) => "function"
    case Other(n, _) => n
  }

  /** `getattr(o, "__module__", "")` as far as the loader needs it: only a
      callable's defining module is ever compared. */
  function ModuleOf(o: Obj): string {
    if o.Func? then o.callable.definedIn else ""
  }

  /** `iscoroutinefunction(o) or isasyncgenfunction(o)`. */
  predicate IsCoroutineLike(o: Obj) {
    o.Func? && o.callable.kind != Plain
  }
}
