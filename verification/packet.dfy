/** A WebSocket packet (pygweblet/packet.py): a named handler, the argument
    validator derived from its signature, and the frames it sends back. */
module Packets {
  import opened Wrappers
  import opened Python
  import Seqs

  /** The validator class built for a handler: its field defaults (the class
      attributes) and its field annotations. */
  datatype Validator = Validator(defaults: map<string, Obj>, annotations: map<string, string>)

  /** A packet: its dotted path, its handler and its validator. */
  datatype Packet = Packet(path: string, handler: Callable, validator: Validator)

  /** What running a handler gives, for given keyword arguments: the value a
      coroutine returns once awaited, and the values an async generator
      yields, in order. */
  datatype Runtime = Runtime(
    awaited: (Callable, map<string, Obj>) -> Obj,
    yielded: (Callable, map<string, Obj>) -> seq<Obj>)

  /** Parameter names are unique, as in every Python signature. */
  predicate DistinctNames(params: seq<Param>) {
    forall i, j :: 0 <= i < j < |params| ==> params[i].name != params[j].name
  }

  /** `{p.name: p.default for p in params if p.default is not p.empty}`. */
  function DefaultsOf(params: seq<Param>): (r: map<string, Obj>)
    ensures forall n :: n in r <==>
      exists i :: 0 <= i < |params| && params[i].name == n && params[i].default.Some?
    decreases |params|
  {
    if params == [] then map[]
    else
      var init := params[..|params| - 1];
      var last := params[|params| - 1];
      assert forall i :: 0 <= i < |init| ==> init[i] == params[i];
      var r := DefaultsOf(init);
      if last.default.Some? then r[last.name := last.default.value] else r
  }

  /** Each parameter that declares a default is mapped to that default. */
  lemma {:induction false} DefaultsOfValue(params: seq<Param>, i: nat)
    requires DistinctNames(params)
    requires i < |params| && params[i].default.Some?
    ensures params[i].name in DefaultsOf(params)
    ensures DefaultsOf(params)[params[i].name] == params[i].default.value
    decreases |params|
  {
    var init := params[..|params| - 1];
    if i < |params| - 1 {
      assert init[i] == params[i];
      DefaultsOfValue(init, i);
    }
  }

  /** Class attributes the validator's namespace sets after the defaults,
      overwriting a default of the same name. */
  const ReservedAttributes: set<string> := {"__annotations__", "Config"}

  /** Builds the packet for a handler: the defaults become the validator's
      class attributes and the type hints, less `return`, its annotations. */
  function FromCoroutine(path: string, handler: Callable): (p: Packet)
    ensures p.path == path && p.handler == handler
    ensures forall n :: n in p.validator.defaults <==>
      n !in ReservedAttributes
      && exists i :: 0 <= i < |handler.params| && handler.params[i].name == n
                     && handler.params[i].default.Some?
    ensures forall n :: n in p.validator.annotations <==> n in handler.hints && n != "return"
    ensures forall n :: n in p.validator.annotations ==> p.validator.annotations[n] == handler.hints[n]
  {
    var defaults := DefaultsOf(handler.params);
    var hints := handler.hints - {"return"};
    Packet(path, handler, Validator(defaults - ReservedAttributes, hints))
  }

  /** The annotated fields without a field default. pydantic decides which of
      them a client must send: an `Optional` or `Any` field defaults to None. */
  function UndefaultedFields(v: Validator): set<string> {
    set n | n in v.annotations && n !in v.defaults
  }

  /** A parameter's declared default becomes the default of its field. */
  lemma DefaultBecomesFieldDefault(path: string, handler: Callable, i: nat)
    requires DistinctNames(handler.params)
    requires i < |handler.params| && handler.params[i].default.Some?
    requires handler.params[i].name !in ReservedAttributes
    ensures var v := FromCoroutine(path, handler).validator;
      handler.params[i].name in v.defaults
      && v.defaults[handler.params[i].name] == handler.params[i].default.value
  {
    DefaultsOfValue(handler.params, i);
  }

  /** A hinted parameter without a default gets an annotated field with no
      field default. */
  lemma HintedWithoutDefaultIsUndefaulted(path: string, handler: Callable, i: nat)
    requires DistinctNames(handler.params)
    requires i < |handler.params| && handler.params[i].default.None?
    requires handler.params[i].name in handler.hints && handler.params[i].name != "return"
    ensures handler.params[i].name in UndefaultedFields(FromCoroutine(path, handler).validator)
  {
  }

  predicate IsDict(o: Obj) {
    o.Dict?
  }

  /** The yielded values that are sent: the dictionaries, in yield order. */
  function SentOf(ys: seq<Obj>): (r: seq<Obj>)
    ensures forall x :: x in r <==> x in ys && x.Dict?
  {
    Seqs.Filter(ys, IsDict)
  }

  /** The frames a packet sends for validated arguments: a coroutine's
      result once, if it is a dictionary; each dictionary an async generator
      yields; nothing for any other handler. */
  function Handle(p: Packet, arguments: map<string, Obj>, rt: Runtime): (frames: seq<Obj>)
    ensures p.handler.kind == Coroutine ==>
      var res := rt.awaited(p.handler, arguments);
      frames == (if res.Dict? then [res] else [])
    ensures p.handler.kind == AsyncGenerator ==> frames == SentOf(rt.yielded(p.handler, arguments))
    ensures p.handler.kind == Plain ==> frames == []
  {
    match p.handler.kind
    case Coroutine =>
      var res := rt.awaited(p.handler, arguments);
      if res.Dict? then [res] else []
    case AsyncGenerator => SentOf(rt.yielded(p.handler, arguments))
    case Plain => []
  }

  /** Frames of consecutive yields are sent in yield order. */
  lemma StreamKeepsOrder(a: seq<Obj>, b: seq<Obj>)
    ensures SentOf(a + b) == SentOf(a) + SentOf(b)
  {
    Seqs.FilterAppend(a, b, IsDict);
  }

  /** The async-generator loop: iterates the yields, sending each
      dictionary as it comes. */
  method SendYields(ys: seq<Obj>) returns (sent: seq<Obj>)
    ensures sent == SentOf(ys)
    ensures |sent| <= |ys|
    ensures forall i :: 0 <= i < |sent| ==> sent[i].Dict?
  {
    sent := [];
    var i := 0;
    while i < |ys|
      invariant 0 <= i <= |ys|
      invariant sent == SentOf(ys[..i])
    {
      StreamKeepsOrder(ys[..i], [ys[i]]);
      assert ys[..i + 1] == ys[..i] + [ys[i]];
      if ys[i].Dict? {
        sent := sent + [ys[i]];
      }
      i := i + 1;
    }
    assert ys[..i] == ys;
  }
}
