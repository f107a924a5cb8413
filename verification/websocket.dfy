/** The WebSocket router (pygweblet/websocket.py): packets loaded from files
    below `packets/`, the two-element JSON envelope every message carries,
    and the per-connection read loop that dispatches messages to packets. */
module WebSocket {
  import opened Wrappers
  import opened Python
  import opened Paths
  import opened Packets
  import Seqs

  /** Packets by dotted path. */
  type PacketTable = map<string, Packet>

  /** `json.loads`: a decoded value, or the decoder's error text. */
  type Decoder = string -> Result<Obj, string>

  /** Instantiating a packet's validator with keyword arguments: the
      validated arguments (`.dict()`), or the validation error's text. */
  type Validate = (Validator, map<string, Obj>) -> Result<map<string, Obj>, string>

  /** What the router works with while serving one connection. */
  datatype Endpoint = Endpoint(
    packets: PacketTable,
    decode: Decoder,
    validate: Validate,
    rt: Runtime)

  // ---------------------------------------------------------------------
  // The envelope

  /** A parsed message: the packet name and its arguments, or an error. */
  datatype Parsed = Envelope(name: string, arguments: map<Obj, Obj>) | ParseError(message: string)

  const NotAList := "the packet should be a list [packet name, {arg1: whatever, ...}]"

  const WrongLength :=
    "two (2) elements should be included in the list: the packet name (as a string) "
    + "and the argments (as a dictionary).  It can be an empty dictionary, but it has to be present."

  function NameNotString(received: Obj): string {
    "the first element should be a string, but " + TypeName(received) + " received"
  }

  function ArgumentsNotDict(received: Obj): string {
    "the second element should be a dictionary, but " + TypeName(received) + " received"
  }

  const NonStringKey :=
    "the second element should be a dictionary containing only strings as keys.  "
    + "The specified arguments aren't valid."

  predicate StringKeys(d: map<Obj, Obj>) {
    forall k :: k in d ==> k.Str?
  }

  /** A well-formed envelope: a list of a string and a dictionary whose keys
      are all strings. */
  predicate IsEnvelope(v: Obj) {
    && v.List?
    && |v.items| == 2
    && v.items[0].Str?
    && v.items[1].Dict?
    && StringKeys(v.items[1].entries)
  }

  /** Checks a decoded message. The first failing check gives the error:
      decoding, then list, length, name, arguments, argument keys. */
  function ParseDecoded(decoded: Result<Obj, string>): (r: Parsed)
    ensures r.Envelope? <==> decoded.Ok? && IsEnvelope(decoded.value)
    ensures r.Envelope? ==>
      r.name == decoded.value.items[0].s && r.arguments == decoded.value.items[1].entries
    ensures decoded.Err? ==> r == ParseError(decoded.error)
    ensures decoded.Ok? && !decoded.value.List? ==> r == ParseError(NotAList)
    ensures decoded.Ok? && decoded.value.List? && |decoded.value.items| != 2 ==>
      r == ParseError(WrongLength)
    ensures (decoded.Ok? && decoded.value.List? && |decoded.value.items| == 2
             && !decoded.value.items[0].Str?) ==>
      r == ParseError(NameNotString(decoded.value.items[0]))
    ensures (decoded.Ok? && decoded.value.List? && |decoded.value.items| == 2
             && decoded.value.items[0].Str? && !decoded.value.items[1].Dict?) ==>
      r == ParseError(ArgumentsNotDict(decoded.value.items[1]))
    ensures (decoded.Ok? && decoded.value.List? && |decoded.value.items| == 2
             && decoded.value.items[0].Str? && decoded.value.items[1].Dict?
             && !StringKeys(decoded.value.items[1].entries)) ==>
      r == ParseError(NonStringKey)
  {
    match decoded
    case Err(e) => ParseError(e)
    case Ok(v) =>
      if !v.List? then ParseError(NotAList)
      else if |v.items| != 2 then ParseError(WrongLength)
      else if !v.items[0].Str? then ParseError(NameNotString(v.items[0]))
      else if !v.items[1].Dict? then ParseError(ArgumentsNotDict(v.items[1]))
      else if !StringKeys(v.items[1].entries) then ParseError(NonStringKey)
      else Envelope(v.items[0].s, v.items[1].entries)
  }

  /** Parses one text message: `json.loads`, then the envelope checks. A
      decoding error is returned as its message. */
  function Parse(decode: Decoder, message: string): (r: Parsed)
    ensures r.Envelope? <==> decode(message).Ok? && IsEnvelope(decode(message).value)
    ensures r.Envelope? ==>
      Obj.List([Str(r.name), Dict(r.arguments)]) == decode(message).value
    ensures decode(message).Err? ==> r == ParseError(decode(message).error)
  {
    ParseDecoded(decode(message))
  }

  /** The arguments as keyword arguments (`**arguments`). */
  function Kwargs(d: map<Obj, Obj>): (r: map<string, Obj>)
    requires StringKeys(d)
    ensures forall n :: n in r <==> Str(n) in d
    ensures forall n :: n in r ==> r[n] == d[Str(n)]
  {
    map k | k in d :: k.s := d[k]
  }

  // ---------------------------------------------------------------------
  // Dispatching one message

  /** The frame reporting an error: `{"error": message}`. */
  function ErrorFrame(message: string): Obj {
    Dict(map[Str("error") := Str(message)])
  }

  function UnknownPacket(name: string): string {
    "the packet name " + name + " is not valid"
  }

  /** What a message leads to: one error reply, or one packet invocation. */
  datatype Action = Reply(error: string) | Invoke(packet: Packet, arguments: map<string, Obj>)

  /** Routes a decoded message: a parse error, an unknown packet name or a
      validation failure is replied to; otherwise the packet is invoked
      with the validator's output. */
  function Decide(e: Endpoint, decoded: Result<Obj, string>): (a: Action)
    ensures ParseDecoded(decoded).ParseError? ==> a == Reply(ParseDecoded(decoded).message)
    ensures decoded.Ok? && IsEnvelope(decoded.value) && decoded.value.items[0].s !in e.packets ==>
      a == Reply(UnknownPacket(decoded.value.items[0].s))
    ensures decoded.Ok? && IsEnvelope(decoded.value) && decoded.value.items[0].s in e.packets ==>
      var v := e.validate(e.packets[decoded.value.items[0].s].validator, Kwargs(decoded.value.items[1].entries));
      v.Err? ==> a == Reply(v.error)
    ensures a.Invoke? <==>
      && decoded.Ok? && IsEnvelope(decoded.value)
      && decoded.value.items[0].s in e.packets
      && e.validate(e.packets[decoded.value.items[0].s].validator,
                    Kwargs(decoded.value.items[1].entries)).Ok?
    ensures a.Invoke? ==>
      var packet := e.packets[decoded.value.items[0].s];
      && a.packet == packet
      && a.arguments == e.validate(packet.validator, Kwargs(decoded.value.items[1].entries)).value
  {
    match ParseDecoded(decoded)
    case ParseError(m) => Reply(m)
    case Envelope(name, args) =>
      if name !in e.packets then Reply(UnknownPacket(name))
      else
        var packet := e.packets[name];
        match e.validate(packet.validator, Kwargs(args))
        case Err(err) => Reply(err)
        case Ok(valid) => Invoke(packet, valid)
  }

  /** The frames sent for one text message. */
  function HandleMessage(e: Endpoint, message: string): (frames: seq<Obj>)
    ensures Parse(e.decode, message).ParseError? ==>
      frames == [ErrorFrame(Parse(e.decode, message).message)]
    ensures Parse(e.decode, message).Envelope? && Parse(e.decode, message).name !in e.packets ==>
      frames == [ErrorFrame(UnknownPacket(Parse(e.decode, message).name))]
    ensures Parse(e.decode, message).Envelope? && Parse(e.decode, message).name in e.packets ==>
      var p := Parse(e.decode, message);
      var packet := e.packets[p.name];
      match e.validate(packet.validator, Kwargs(p.arguments))
      case Err(err) => frames == [ErrorFrame(err)]
      case Ok(valid) => frames == Packets.Handle(packet, valid, e.rt)
  {
    match Decide(e, e.decode(message))
    case Reply(err) => [ErrorFrame(err)]
    case Invoke(packet, arguments) => Packets.Handle(packet, arguments, e.rt)
  }

  /** Worked case: a well-formed envelope naming no packet. */
  lemma UnknownPingExample(e: Endpoint, message: string)
    requires e.decode(message) == Ok(List([Str("ping"), Dict(map[])]))
    requires "ping" !in e.packets
    ensures HandleMessage(e, message) == [ErrorFrame("the packet name ping is not valid")]
  {
    var v := List([Str("ping"), Dict(map[])]);
    assert IsEnvelope(v);
    assert Parse(e.decode, message) == Envelope("ping", map[]);
    assert UnknownPacket("ping") == "the packet name ping is not valid";
  }

  // ---------------------------------------------------------------------
  // The connection loop

  /** `aiohttp.WSMsgType`. */
  datatype MsgType = Continuation | Text | Binary | Ping | Pong | Close | Closing | Closed | Error

  /** The messages that end the read loop: an ERROR message breaks out of
      it, and aiohttp's message iterator stops at CLOSE, CLOSING and
      CLOSED. */
  predicate Stops(kind: MsgType) {
    kind == Error || kind == Close || kind == Closing || kind == Closed
  }

  /** An inbound message; `data` is the text of a TEXT message. */
  datatype WSMessage = WSMessage(kind: MsgType, data: string)

  /** The read loop over the messages of one connection, in arrival order:
      a TEXT message is handled, a stopping message ends the loop, any other
      message is skipped. */
  function Serve(e: Endpoint, msgs: seq<WSMessage>): seq<Obj>
    decreases |msgs|
  {
    if msgs == [] || Stops(msgs[0].kind) then []
    else if msgs[0].kind == Text then HandleMessage(e, msgs[0].data) + Serve(e, msgs[1..])
    else Serve(e, msgs[1..])
  }

  /** The position of the first stopping message, or the length if none. */
  function FirstStop(msgs: seq<WSMessage>): (i: nat)
    ensures i <= |msgs|
    ensures forall j :: 0 <= j < i ==> !Stops(msgs[j].kind)
    ensures i < |msgs| ==> Stops(msgs[i].kind)
    decreases |msgs|
  {
    if msgs == [] || Stops(msgs[0].kind) then 0 else 1 + FirstStop(msgs[1..])
  }

  /** The texts of the TEXT messages, in order. */
  function Texts(msgs: seq<WSMessage>): seq<string>
    decreases |msgs|
  {
    if msgs == [] then []
    else if msgs[0].kind == Text then [msgs[0].data] + Texts(msgs[1..])
    else Texts(msgs[1..])
  }

  /** The texts a connection handles: those that arrive before the first
      stopping message. */
  function ProcessedTexts(msgs: seq<WSMessage>): seq<string> {
    Texts(msgs[..FirstStop(msgs)])
  }

  /** The frames sent for a series of text messages, one after another. */
  function Replies(e: Endpoint, texts: seq<string>): seq<Obj>
    decreases |texts|
  {
    if texts == [] then [] else HandleMessage(e, texts[0]) + Replies(e, texts[1..])
  }

  /** One step of `ProcessedTexts`: how the first message contributes. */
  lemma ProcessedTextsStep(msgs: seq<WSMessage>)
    requires msgs != []
    ensures Stops(msgs[0].kind) ==> ProcessedTexts(msgs) == []
    ensures msgs[0].kind == Text ==>
      ProcessedTexts(msgs) == [msgs[0].data] + ProcessedTexts(msgs[1..])
    ensures msgs[0].kind != Text && !Stops(msgs[0].kind) ==>
      ProcessedTexts(msgs) == ProcessedTexts(msgs[1..])
  {
    if !Stops(msgs[0].kind) {
      var n := FirstStop(msgs[1..]);
      assert msgs[..FirstStop(msgs)] == [msgs[0]] + msgs[1..][..n];
      assert ([msgs[0]] + msgs[1..][..n])[1..] == msgs[1..][..n];
    }
  }

  /** A connection sends exactly the replies to the texts that arrive
      before the first stopping message, in arrival order. */
  lemma {:induction false} ServeRepliesToProcessedTexts(e: Endpoint, msgs: seq<WSMessage>)
    ensures Serve(e, msgs) == Replies(e, ProcessedTexts(msgs))
    decreases |msgs|
  {
    if msgs != [] {
      ProcessedTextsStep(msgs);
      if !Stops(msgs[0].kind) {
        ServeRepliesToProcessedTexts(e, msgs[1..]);
      }
      if msgs[0].kind == Text {
        assert ([msgs[0].data] + ProcessedTexts(msgs[1..]))[1..] == ProcessedTexts(msgs[1..]);
      }
    }
  }

  predicate NoStop(msgs: seq<WSMessage>) {
    forall i :: 0 <= i < |msgs| ==> !Stops(msgs[i].kind)
  }

  /** Without a stopping message in the first part, the connection goes on
      to the second: error replies do not close it. */
  lemma {:induction false} ServeAppend(e: Endpoint, a: seq<WSMessage>, b: seq<WSMessage>)
    requires NoStop(a)
    ensures Serve(e, a + b) == Serve(e, a) + Serve(e, b)
    decreases |a|
  {
    if a == [] {
      assert a + b == b;
    } else {
      assert (a + b)[0] == a[0];
      assert (a + b)[1..] == a[1..] + b;
      assert !Stops(a[0].kind);
      assert NoStop(a[1..]) by {
        forall i | 0 <= i < |a[1..]| ensures !Stops(a[1..][i].kind) {
          assert a[1..][i] == a[i + 1];
        }
      }
      ServeAppend(e, a[1..], b);
    }
  }

  /** The first stopping message ends the loop: nothing after it is
      handled. */
  lemma StopEndsLoop(e: Endpoint, a: seq<WSMessage>, m: WSMessage, b: seq<WSMessage>)
    requires NoStop(a) && Stops(m.kind)
    ensures Serve(e, a + [m] + b) == Serve(e, a)
  {
    ServeAppend(e, a, [m] + b);
    assert a + [m] + b == a + ([m] + b);
  }

  /** Messages that neither are TEXT nor stop the loop are skipped. */
  lemma {:induction false} OthersSkipped(e: Endpoint, a: seq<WSMessage>, m: WSMessage, b: seq<WSMessage>)
    requires m.kind != Text && !Stops(m.kind)
    ensures Serve(e, a + [m] + b) == Serve(e, a + b)
    decreases |a|
  {
    if a == [] {
      assert a + [m] + b == [m] + b && a + b == b;
      assert ([m] + b)[1..] == b;
    } else {
      assert (a + [m] + b)[0] == a[0] && (a + b)[0] == a[0];
      assert (a + [m] + b)[1..] == a[1..] + [m] + b;
      assert (a + b)[1..] == a[1..] + b;
      OthersSkipped(e, a[1..], m, b);
    }
  }

  /** One step of the read loop: how the first message contributes. */
  lemma ServeStep(e: Endpoint, msgs: seq<WSMessage>)
    requires msgs != []
    ensures Stops(msgs[0].kind) ==> Serve(e, msgs) == []
    ensures msgs[0].kind == Text ==>
      Serve(e, msgs) == HandleMessage(e, msgs[0].data) + Serve(e, msgs[1..])
    ensures msgs[0].kind != Text && !Stops(msgs[0].kind) ==>
      Serve(e, msgs) == Serve(e, msgs[1..])
  {
  }

  /** One iteration of the read loop, at a message that does not stop it. */
  lemma ReadLoopStep(e: Endpoint, msgs: seq<WSMessage>, i: nat)
    requires i < |msgs| && !Stops(msgs[i].kind)
    ensures Serve(e, msgs[i..]) ==
      (if msgs[i].kind == Text then HandleMessage(e, msgs[i].data) else []) + Serve(e, msgs[i + 1..])
    ensures ProcessedTexts(msgs[i..]) ==
      (if msgs[i].kind == Text then [msgs[i].data] else []) + ProcessedTexts(msgs[i + 1..])
  {
    assert msgs[i..][0] == msgs[i] && msgs[i..][1..] == msgs[i + 1..];
    ServeStep(e, msgs[i..]);
    ProcessedTextsStep(msgs[i..]);
  }

  /** The read loop: handles the messages in arrival order and stops at the
      first stopping message. Returns the frames sent and the texts handled. */
  method HandleConnection(e: Endpoint, msgs: seq<WSMessage>) returns (frames: seq<Obj>, handled: seq<string>)
    ensures frames == Serve(e, msgs)
    ensures handled == ProcessedTexts(msgs)
  {
    frames := [];
    handled := [];
    var i := 0;
    while i < |msgs| && !Stops(msgs[i].kind)
      invariant 0 <= i <= |msgs|
      invariant frames + Serve(e, msgs[i..]) == Serve(e, msgs)
      invariant handled + ProcessedTexts(msgs[i..]) == ProcessedTexts(msgs)
    {
      var m := msgs[i];
      ReadLoopStep(e, msgs, i);
      var replies := if m.kind == Text then HandleMessage(e, m.data) else [];
      var texts := if m.kind == Text then [m.data] else [];
      Seqs.AppendAssoc(frames, replies, Serve(e, msgs[i + 1..]));
      Seqs.AppendAssoc(handled, texts, ProcessedTexts(msgs[i + 1..]));
      frames := frames + replies;
      handled := handled + texts;
      i := i + 1;
    }
    assert Serve(e, msgs[i..]) == [] && ProcessedTexts(msgs[i..]) == [] by {
      if i < |msgs| {
        assert msgs[i..][0] == msgs[i];
        ServeStep(e, msgs[i..]);
        ProcessedTextsStep(msgs[i..]);
      }
    }
  }

  // ---------------------------------------------------------------------
  // Loading packets

  /** A packet file found below the packets directory: its path and the
      symbols its execution defines, in definition order. */
  datatype PacketFile = PacketFile(path: FilePath, symbols: seq<(string, Obj)>)

  predicate NotIndex(part: string) {
    part != "index"
  }

  /** The components of a packet path: the directories other than `index`,
      then the file stem unless it is `index`, then the symbol name. */
  function PacketParts(p: FilePath, name: string): (r: seq<string>)
    ensures r != [] && r[|r| - 1] == name
    ensures forall i :: 0 <= i < |r| - 1 ==> r[i] != "index"
    ensures forall i :: 0 <= i < |r| - 1 ==> r[i] in p.dirs || r[i] == Stem(p.name)
    ensures forall d :: d in p.dirs && d != "index" ==> d in r
    ensures Stem(p.name) != "index" ==> Stem(p.name) in r
    ensures r[..|r| - 1] == Seqs.Filter(p.dirs + [Stem(p.name)], NotIndex)
  {
    var stem := Stem(p.name);
    var kept := Seqs.Filter(p.dirs, NotIndex);
    var init := kept + (if stem != "index" then [stem] else []);
    assert init == Seqs.Filter(p.dirs + [stem], NotIndex) by {
      Seqs.FilterAppend(p.dirs, [stem], NotIndex);
      assert [stem][..0] == [];
    }
    assert forall i :: 0 <= i < |kept| ==> kept[i] in kept;
    assert forall i :: 0 <= i < |init| ==> init[i] != "index" && (init[i] in p.dirs || init[i] == stem);
    init + [name]
  }

  /** The dotted packet path of symbol `name` defined in file `p`. */
  function MakePathFor(p: FilePath, name: string): string {
    Join(PacketParts(p, name), ".")
  }

  /** The last component of a packet path is the symbol name: the path ends
      with it, preceded by a dot whenever anything comes before it. */
  lemma PacketPathEndsWithName(p: FilePath, name: string)
    ensures var r := MakePathFor(p, name);
      && |r| >= |name| && r[|r| - |name|..] == name
      && (|r| > |name| ==> r[|r| - |name| - 1] == '.')
  {
    var parts := PacketParts(p, name);
    var init := parts[..|parts| - 1];
    assert parts == init + [name];
    if init != [] {
      JoinSnoc(init, name, ".");
    }
  }

  /** When no component holds a dot, splitting a packet path on dots gives
      back its components. */
  lemma PacketPathComponents(p: FilePath, name: string)
    requires forall i :: 0 <= i < |p.dirs| ==> '.' !in p.dirs[i]
    requires '.' !in Stem(p.name) && '.' !in name
    ensures Split(MakePathFor(p, name), '.') == PacketParts(p, name)
  {
    var parts := PacketParts(p, name);
    forall i | 0 <= i < |parts|
      ensures '.' !in parts[i]
    {
      if i < |parts| - 1 && parts[i] in p.dirs {
        var j :| 0 <= j < |p.dirs| && p.dirs[j] == parts[i];
      }
    }
    SplitJoin(parts, '.');
  }

  /** Worked case: an `index` file in an `index` directory leaves only the
      symbol name. */
  lemma IndexFileExample()
    ensures MakePathFor(FilePath(["index"], "index.py"), "ping") == "ping"
  {
    IndexStem();
    assert Seqs.Filter(["index"], NotIndex) == [] by {
      assert ["index"][..0] == [];
    }
    assert PacketParts(FilePath(["index"], "index.py"), "ping") == ["ping"];
  }

  /** `__name__` of the module a packet file is executed in. */
  function VirtualModuleName(full: seq<string>): string {
    "virtual module at " + Join(full, "/")
  }

  /** A symbol becomes a packet: a public name, defined in the file's own
      module, bound to a coroutine or async-generator function. */
  predicate Registers(moduleName: string, symbol: (string, Obj)) {
    && !IsPrivate(symbol.0)
    && ModuleOf(symbol.1) == moduleName
    && IsCoroutineLike(symbol.1)
  }

  /** Every packet sits under its own path and was built from a coroutine or
      async-generator handler. */
  predicate WellFormedPackets(t: PacketTable) {
    forall k :: k in t ==>
      t[k] == FromCoroutine(k, t[k].handler) && t[k].handler.kind != Plain
  }

  /** The symbol qualifies and its packet path is `k`. */
  predicate Places(p: FilePath, moduleName: string, symbol: (string, Obj), k: string) {
    Registers(moduleName, symbol) && MakePathFor(p, symbol.0) == k
  }

  /** Registers one symbol, if it qualifies, under its packet path. */
  function LoadSymbol(t: PacketTable, p: FilePath, moduleName: string, symbol: (string, Obj)): (r: PacketTable)
    ensures forall k :: k in r <==> k in t || Places(p, moduleName, symbol, k)
    ensures forall k :: k in t && !Places(p, moduleName, symbol, k) ==> r[k] == t[k]
    ensures Registers(moduleName, symbol) ==>
      var path := MakePathFor(p, symbol.0);
      path in r && r[path] == FromCoroutine(path, symbol.1.callable)
    ensures WellFormedPackets(t) ==> WellFormedPackets(r)
  {
    if Registers(moduleName, symbol) then
      var path := MakePathFor(p, symbol.0);
      t[path := FromCoroutine(path, symbol.1.callable)]
    else t
  }

  /** Registering one more symbol extends what the earlier symbols placed. */
  lemma LoadSymbolExtends(t: PacketTable, p: FilePath, moduleName: string,
                          symbols: seq<(string, Obj)>, prev: PacketTable)
    requires symbols != []
    requires forall k :: k in prev <==>
      k in t || exists i :: 0 <= i < |symbols| - 1 && Places(p, moduleName, symbols[i], k)
    requires forall k :: k in t && (forall i :: 0 <= i < |symbols| - 1 ==> !Places(p, moduleName, symbols[i], k)) ==>
      prev[k] == t[k]
    ensures var r := LoadSymbol(prev, p, moduleName, symbols[|symbols| - 1]);
      && (forall k :: k in r <==> k in t || exists i :: 0 <= i < |symbols| && Places(p, moduleName, symbols[i], k))
      && (forall k :: k in t && (forall i :: 0 <= i < |symbols| ==> !Places(p, moduleName, symbols[i], k)) ==>
            r[k] == t[k])
  {
    var last := symbols[|symbols| - 1];
    var r := LoadSymbol(prev, p, moduleName, last);
    forall k | k in r
      ensures k in t || exists i :: 0 <= i < |symbols| && Places(p, moduleName, symbols[i], k)
    {
      if !Places(p, moduleName, last, k) {
        assert k in prev;
      }
    }
  }

  /** Registers the packets of one file's symbols, in definition order;
      a packet replaces any packet already at its path. */
  function LoadPacket(t: PacketTable, p: FilePath, moduleName: string,
                      symbols: seq<(string, Obj)>): (r: PacketTable)
    ensures forall k :: k in r <==>
      k in t || exists i :: 0 <= i < |symbols| && Places(p, moduleName, symbols[i], k)
    ensures forall k :: k in t && (forall i :: 0 <= i < |symbols| ==> !Places(p, moduleName, symbols[i], k)) ==>
      r[k] == t[k]
    ensures WellFormedPackets(t) ==> WellFormedPackets(r)
    decreases |symbols|
  {
    if symbols == [] then t
    else
      var init := symbols[..|symbols| - 1];
      var prev := LoadPacket(t, p, moduleName, init);
      assert forall i :: 0 <= i < |init| ==> init[i] == symbols[i];
      LoadSymbolExtends(t, p, moduleName, symbols, prev);
      LoadSymbol(prev, p, moduleName, symbols[|symbols| - 1])
  }

  /** Of several symbols registered at one path, the last one holds it. */
  lemma {:induction false} LastSymbolWins(t: PacketTable, p: FilePath, moduleName: string,
                                          symbols: seq<(string, Obj)>, i: nat)
    requires i < |symbols| && Registers(moduleName, symbols[i])
    requires forall j :: i < j < |symbols| ==> !Places(p, moduleName, symbols[j], MakePathFor(p, symbols[i].0))
    ensures var path := MakePathFor(p, symbols[i].0);
      LoadPacket(t, p, moduleName, symbols)[path] == FromCoroutine(path, symbols[i].1.callable)
    decreases |symbols|
  {
    var init := symbols[..|symbols| - 1];
    var last := symbols[|symbols| - 1];
    var path := MakePathFor(p, symbols[i].0);
    if i < |symbols| - 1 {
      var prev := LoadPacket(t, p, moduleName, init);
      assert prev[path] == FromCoroutine(path, symbols[i].1.callable) by {
        assert forall j :: i < j < |init| ==> init[j] == symbols[j];
        LastSymbolWins(t, p, moduleName, init, i);
      }
      assert path in prev by {
        assert init[i] == symbols[i];
      }
      assert !Places(p, moduleName, last, path);
    }
  }

  /** Path `k` of table `r` holds the packet built from one of the
      symbols placed at `k`. */
  predicate HoldsPacketOf(r: PacketTable, p: FilePath, moduleName: string,
                          symbols: seq<(string, Obj)>, k: string) {
    && k in r
    && exists j :: 0 <= j < |symbols| && Places(p, moduleName, symbols[j], k)
                   && r[k] == FromCoroutine(k, symbols[j].1.callable)
  }

  /** Symbol `j` placed at `k` gives the packet there. */
  lemma HoldsPacketIntro(r: PacketTable, p: FilePath, moduleName: string,
                         symbols: seq<(string, Obj)>, j: nat, k: string)
    requires j < |symbols| && Places(p, moduleName, symbols[j], k)
    requires k in r && r[k] == FromCoroutine(k, symbols[j].1.callable)
    ensures HoldsPacketOf(r, p, moduleName, symbols, k)
  {
  }

  /** The index of the last symbol placed at `k`, or -1 when none is. */
  function LastPlacing(p: FilePath, moduleName: string, symbols: seq<(string, Obj)>, k: string): (j: int)
    ensures -1 <= j < |symbols|
    ensures j >= 0 ==> Places(p, moduleName, symbols[j], k)
    ensures forall j' :: j < j' < |symbols| ==> !Places(p, moduleName, symbols[j'], k)
    decreases |symbols|
  {
    if symbols == [] then -1
    else if Places(p, moduleName, symbols[|symbols| - 1], k) then |symbols| - 1
    else
      var init := symbols[..|symbols| - 1];
      assert forall j' :: 0 <= j' < |init| ==> init[j'] == symbols[j'];
      LastPlacing(p, moduleName, init, k)
  }

  /** Every path a file's symbols are placed at holds the packet built from
      one of those symbols: the last one placed there. */
  lemma PlacedHoldsPacket(t: PacketTable, p: FilePath, moduleName: string,
                          symbols: seq<(string, Obj)>, i: nat, k: string)
    requires i < |symbols| && Places(p, moduleName, symbols[i], k)
    ensures HoldsPacketOf(LoadPacket(t, p, moduleName, symbols), p, moduleName, symbols, k)
  {
    var j := LastPlacing(p, moduleName, symbols, k);
    assert j >= 0;
    var r := LoadPacket(t, p, moduleName, symbols);
    LastSymbolWins(t, p, moduleName, symbols, j);
    HoldsPacketIntro(r, p, moduleName, symbols, j, k);
  }

  /** File `f` below `dir` registers packet path `k`: the file is not
      excluded and one of its symbols is placed at `k`. */
  predicate Adds(dir: seq<string>, f: PacketFile, k: string) {
    var full := FullPath(dir, f.path);
    && !Excluded(full)
    && exists j :: 0 <= j < |f.symbols| && Places(f.path, VirtualModuleName(full), f.symbols[j], k)
  }

  /** Loads one packet file: an excluded file is skipped, any other is run
      in its own module and its symbols are registered. */
  function LoadPacketFile(t: PacketTable, dir: seq<string>, f: PacketFile): (r: PacketTable)
    ensures forall k :: k in r <==> k in t || Adds(dir, f, k)
    ensures forall k :: k in t && !Adds(dir, f, k) ==> r[k] == t[k]
    ensures forall k :: Adds(dir, f, k) ==>
      HoldsPacketOf(r, f.path, VirtualModuleName(FullPath(dir, f.path)), f.symbols, k)
    ensures WellFormedPackets(t) ==> WellFormedPackets(r)
  {
    var full := FullPath(dir, f.path);
    if Excluded(full) then t
    else
      var moduleName := VirtualModuleName(full);
      assert forall k :: Adds(dir, f, k) ==>
        HoldsPacketOf(LoadPacket(t, f.path, moduleName, f.symbols), f.path, moduleName, f.symbols, k) by {
        forall k | Adds(dir, f, k)
          ensures HoldsPacketOf(LoadPacket(t, f.path, moduleName, f.symbols), f.path, moduleName, f.symbols, k)
        {
          var i :| 0 <= i < |f.symbols| && Places(f.path, moduleName, f.symbols[i], k);
          PlacedHoldsPacket(t, f.path, moduleName, f.symbols, i, k);
        }
      }
      LoadPacket(t, f.path, moduleName, f.symbols)
  }

  /** Loading one more packet file extends what the earlier files added. */
  lemma LoadPacketFileExtends(t: PacketTable, dir: seq<string>, files: seq<PacketFile>, prev: PacketTable)
    requires files != []
    requires forall k :: k in prev <==>
      k in t || exists i :: 0 <= i < |files| - 1 && Adds(dir, files[i], k)
    requires forall k :: k in t && (forall i :: 0 <= i < |files| - 1 ==> !Adds(dir, files[i], k)) ==>
      prev[k] == t[k]
    ensures var r := LoadPacketFile(prev, dir, files[|files| - 1]);
      && (forall k :: k in r <==> k in t || exists i :: 0 <= i < |files| && Adds(dir, files[i], k))
      && (forall k :: k in t && (forall i :: 0 <= i < |files| ==> !Adds(dir, files[i], k)) ==> r[k] == t[k])
  {
    var f := files[|files| - 1];
    var r := LoadPacketFile(prev, dir, f);
    forall k | k in r
      ensures k in t || exists i :: 0 <= i < |files| && Adds(dir, files[i], k)
    {
      if !Adds(dir, f, k) {
        assert k in prev;
      }
    }
  }

  /** Loads the packet files in discovery order, skipping excluded ones;
      each file runs in its own module. The table gains exactly the paths
      some non-excluded file registers; other entries are kept. */
  function LoadPackets(t: PacketTable, dir: seq<string>, files: seq<PacketFile>): (r: PacketTable)
    ensures forall k :: k in r <==>
      k in t || exists i :: 0 <= i < |files| && Adds(dir, files[i], k)
    ensures forall k :: k in t && (forall i :: 0 <= i < |files| ==> !Adds(dir, files[i], k)) ==>
      r[k] == t[k]
    ensures WellFormedPackets(t) ==> WellFormedPackets(r)
    decreases |files|
  {
    if files == [] then t
    else
      var init := files[..|files| - 1];
      var prev := LoadPackets(t, dir, init);
      assert forall i :: 0 <= i < |init| ==> init[i] == files[i];
      LoadPacketFileExtends(t, dir, files, prev);
      LoadPacketFile(prev, dir, files[|files| - 1])
  }

  /** One step of `LoadPackets`: the last file is loaded after the others. */
  lemma LoadPacketsUnfold(t: PacketTable, dir: seq<string>, files: seq<PacketFile>)
    requires files != []
    ensures LoadPackets(t, dir, files) ==
      LoadPacketFile(LoadPackets(t, dir, files[..|files| - 1]), dir, files[|files| - 1])
  {
  }

  /** File `f` below `dir` registers `k`, and `k` holds the packet built
      from one of the file's symbols. */
  predicate FileHolds(dir: seq<string>, f: PacketFile, r: PacketTable, k: string) {
    Adds(dir, f, k) && HoldsPacketOf(r, f.path, VirtualModuleName(FullPath(dir, f.path)), f.symbols, k)
  }

  /** A path the last file does not register keeps its entry. */
  lemma LaterFileKeeps(t: PacketTable, dir: seq<string>, files: seq<PacketFile>, k: string)
    requires files != [] && !Adds(dir, files[|files| - 1], k)
    requires k in LoadPackets(t, dir, files[..|files| - 1])
    ensures k in LoadPackets(t, dir, files)
    ensures LoadPackets(t, dir, files)[k] == LoadPackets(t, dir, files[..|files| - 1])[k]
  {
    LoadPacketsUnfold(t, dir, files);
  }

  /** The index of the last file registering `k`, or -1 when none does. */
  function LastAdding(dir: seq<string>, files: seq<PacketFile>, k: string): (i: int)
    ensures -1 <= i < |files|
    ensures i >= 0 ==> Adds(dir, files[i], k)
    ensures forall i' :: i < i' < |files| ==> !Adds(dir, files[i'], k)
    decreases |files|
  {
    if files == [] then -1
    else if Adds(dir, files[|files| - 1], k) then |files| - 1
    else
      var init := files[..|files| - 1];
      assert forall i' :: 0 <= i' < |init| ==> init[i'] == files[i'];
      LastAdding(dir, init, k)
  }

  /** Every path some file registers holds the packet built from a symbol of
      a file that registers it: the last such symbol of the last such file.
      No packet comes from anywhere else. */
  lemma AddedHoldsPacket(t: PacketTable, dir: seq<string>, files: seq<PacketFile>, i: nat, k: string)
    requires i < |files| && Adds(dir, files[i], k)
    ensures exists i' :: 0 <= i' < |files| && FileHolds(dir, files[i'], LoadPackets(t, dir, files), k)
  {
    var last := LastAdding(dir, files, k);
    assert last >= 0;
    var f := files[last];
    var moduleName := VirtualModuleName(FullPath(dir, f.path));
    var j0 :| 0 <= j0 < |f.symbols| && Places(f.path, moduleName, f.symbols[j0], k);
    var j := LastPlacing(f.path, moduleName, f.symbols, k);
    assert j >= 0;
    LastPacketFileWins(t, dir, files, last, j, k);
    HoldsPacketIntro(LoadPackets(t, dir, files), f.path, moduleName, f.symbols, j, k);
    assert FileHolds(dir, files[last], LoadPackets(t, dir, files), k);
  }

  /** Within the last file, the last symbol placed at `k` holds it. */
  lemma LastFileLastSymbolWins(t: PacketTable, dir: seq<string>, files: seq<PacketFile>, j: nat, k: string)
    requires files != [] && j < |files[|files| - 1].symbols|
    requires !Excluded(FullPath(dir, files[|files| - 1].path))
    requires var f := files[|files| - 1];
      Places(f.path, VirtualModuleName(FullPath(dir, f.path)), f.symbols[j], k)
    requires var f := files[|files| - 1];
      forall j' :: j < j' < |f.symbols| ==>
        !Places(f.path, VirtualModuleName(FullPath(dir, f.path)), f.symbols[j'], k)
    ensures k in LoadPackets(t, dir, files)
    ensures LoadPackets(t, dir, files)[k] == FromCoroutine(k, files[|files| - 1].symbols[j].1.callable)
  {
    var f := files[|files| - 1];
    var moduleName := VirtualModuleName(FullPath(dir, f.path));
    var prev := LoadPackets(t, dir, files[..|files| - 1]);
    LoadPacketsUnfold(t, dir, files);
    assert LoadPacketFile(prev, dir, f) == LoadPacket(prev, f.path, moduleName, f.symbols);
    LastSymbolWins(prev, f.path, moduleName, f.symbols, j);
  }

  /** Of several packet files registering one path, the last one holds it,
      with the packet of its last symbol placed there: a later packet
      replaces an earlier one and nothing is merged. (`a.py` and
      `a/index.py` both give path `a.<name>`.) */
  lemma {:induction false} LastPacketFileWins(t: PacketTable, dir: seq<string>, files: seq<PacketFile>,
                                              i: nat, j: nat, k: string)
    requires i < |files| && j < |files[i].symbols|
    requires !Excluded(FullPath(dir, files[i].path))
    requires Places(files[i].path, VirtualModuleName(FullPath(dir, files[i].path)), files[i].symbols[j], k)
    requires forall j' :: j < j' < |files[i].symbols| ==>
      !Places(files[i].path, VirtualModuleName(FullPath(dir, files[i].path)), files[i].symbols[j'], k)
    requires forall i' :: i < i' < |files| ==> !Adds(dir, files[i'], k)
    ensures k in LoadPackets(t, dir, files)
    ensures LoadPackets(t, dir, files)[k] == FromCoroutine(k, files[i].symbols[j].1.callable)
    decreases |files|
  {
    var n := |files| - 1;
    if i == n {
      LastFileLastSymbolWins(t, dir, files, j, k);
    } else {
      var init := files[..n];
      assert init[i] == files[i];
      assert forall i' :: i < i' < |init| ==> init[i'] == files[i'];
      LastPacketFileWins(t, dir, init, i, j, k);
      LaterFileKeeps(t, dir, files, k);
    }
  }

  /** A file whose name or a directory of which, below the packets
      directory, starts with `_` registers nothing. */
  lemma PrivateFileAddsNothing(dir: seq<string>, f: PacketFile, k: string)
    requires IsPrivate(f.path.name) || exists i :: 0 <= i < |f.path.dirs| && IsPrivate(f.path.dirs[i])
    ensures !Adds(dir, f, k)
  {
    var full := FullPath(dir, f.path);
    if IsPrivate(f.path.name) {
      assert full[|full| - 1] == f.path.name;
    } else {
      var i :| 0 <= i < |f.path.dirs| && IsPrivate(f.path.dirs[i]);
      assert full[|dir| + i] == f.path.dirs[i];
    }
  }

  /** When a directory above the packets is private, no packet is loaded. */
  lemma {:induction false} PrivateDirLoadsNoPackets(t: PacketTable, dir: seq<string>, files: seq<PacketFile>)
    requires Excluded(dir)
    ensures LoadPackets(t, dir, files) == t
    decreases |files|
  {
    if files != [] {
      PrivateBaseExcludes(dir, files[|files| - 1].path);
      PrivateDirLoadsNoPackets(t, dir, files[..|files| - 1]);
    }
  }

  lemma EmptyWellFormed()
    ensures WellFormedPackets(map[])
  {
  }

  /** Loads the packets of a site from `base/packets`. The table holds
      exactly the paths some packet file registers, each holding a packet
      built from a coroutine or async-generator handler. */
  function Load(base: seq<string>, files: seq<PacketFile>): (r: PacketTable)
    ensures forall k :: k in r <==>
      exists i :: 0 <= i < |files| && Adds(base + ["packets"], files[i], k)
    ensures forall k :: k in r ==>
      exists i :: 0 <= i < |files| && FileHolds(base + ["packets"], files[i], r, k)
    ensures WellFormedPackets(r)
  {
    var dir := base + ["packets"];
    var loaded := LoadPackets(map[], dir, files);
    assert WellFormedPackets(loaded) by {
      EmptyWellFormed();
    }
    assert forall k :: k in loaded ==> exists i :: 0 <= i < |files| && FileHolds(dir, files[i], loaded, k) by {
      forall k | k in loaded
        ensures exists i :: 0 <= i < |files| && FileHolds(dir, files[i], loaded, k)
      {
        var i :| 0 <= i < |files| && Adds(dir, files[i], k);
        AddedHoldsPacket(map[], dir, files, i, k);
      }
    }
    loaded
  }
}
