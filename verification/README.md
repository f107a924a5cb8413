# pygweblet request pipeline, modelled in Dafny

This project models the request pipeline of pygweblet. pygweblet is a small
convention-based web layer: files below `programs/` become HTTP routes, and
files below `packets/` become WebSocket message handlers ("packets"). The
model covers four pieces:

- **WebSocket router** (`websocket.dfy`, module `WebSocket`). It checks the
  two-element JSON envelope `[name, {args}]`, routes each message to an error
  frame or a packet call, runs the per-connection read loop, and loads packets.
  A packet is named by a dotted path built from its file path and symbol name.
- **HTTP router** (`router.dfy`, module `Router`). It turns a program file's
  path into a URI path and fills the route table keyed by (method, path).
- **Packets** (`packet.dfy`, module `Packets`). It derives a packet's
  validator from the handler signature and maps a handler's result to
  outbound frames.
- **Routes** (`route.dfy`, module `Routes`). It decides the response to an
  HTTP request.

The supporting modules are `Python` (`python.dfy`), `Paths` (`paths.dfy`),
`Seqs` (`seqs.dfy`) and `Wrappers` (`wrappers.dfy`). `Python` holds the
Python values the pipeline inspects. `Paths` holds the `pathlib` properties,
the joins and the exclusion rule.

Python's values are one datatype, `Python.Obj`. A dictionary is a
`map<Obj, Obj>`, so keys that are not strings can be represented. Callables
carry the facts introspection reads: whether they are coroutine or
async-generator functions, their `__module__`, their parameters and their type
hints. A file is a `Paths.FilePath`: the directory parts relative to the scanned
directory, plus the file name. The scanned directory's own components are
passed separately. The exclusion rule looks at every component of the full
path, not only the relative ones.

The model follows the code in these places:

- A program file's URI path is the parent directory text followed directly by
  the stem, with no slash between them: `blog/view.py` is served at
  `/blogview`.
- Parenthesised directory names are kept as written.
- Template discovery is an empty stub.
- A second program at the same (method, path) replaces the first.
- Parameters are not classified into roles, and query or POST data is not
  bound to them.
- The route handler receives only the request. It ignores the route's
  template.

pygweblet has none of the following: no rewriting of `(name)` directory names
to `{name}` route parameters, no merging of a route with its template, no
parameter roles, and no binding of query or POST data.

Effects are parameters of the model:
- `json.loads` is a `Decoder` function from text to a value or an error text.
- A packet's pydantic validator is a `Validate` function from a validator and
  keyword arguments to the validated arguments or an error text.
- Running a handler is a `Runtime`: the value an awaited coroutine returns,
  and the values an async generator yields.
- Running a route program is a function from the program to its result.
- Outbound frames are the dictionaries sent, not their JSON text.

## Model

| member | source | states |
|---|---|---|
| WebSocket.Parse | pygweblet/websocket.py:205-208 | A text message is accepted exactly when `json.loads` succeeds and gives a well-formed envelope; the name and arguments then rebuild the decoded list. A decoding error is answered with its own message. The remaining error order is stated by `ParseDecoded`. |
| WebSocket.ParseDecoded | pygweblet/websocket.py:205-246 | The message is accepted exactly when it decodes to a two-element list of a string and a dictionary with only string keys. Both elements are then returned unchanged. Otherwise the first failing check gives the error: the decoder's text, then not-a-list, wrong length, name not a string, arguments not a dictionary, non-string key. |
| WebSocket.Kwargs | pygweblet/websocket.py:187 | Passing the arguments as `**kwargs` keeps every string key with its value and adds nothing. |
| WebSocket.Decide | pygweblet/websocket.py:173-191 | A parse error is replied to with its message. An unknown name is replied to with "the packet name <name> is not valid". A validation failure is replied to with the validator's error text. The packet is invoked exactly when the envelope is valid, the name is registered and validation succeeds. It is then invoked with the registered packet and the validator's output. |
| WebSocket.HandleMessage | pygweblet/websocket.py:173-191 | A parse failure, an unknown packet or a validation failure each send exactly one `{"error": ...}` frame and call no handler. Otherwise the frames are the packet's own output for the validated arguments. |
| WebSocket.UnknownPingExample | pygweblet/websocket.py:179-183 | `["ping", {}]` with no `ping` packet sends exactly `{"error": "the packet name ping is not valid"}`. |
| WebSocket.Serve | pygweblet/websocket.py:145-149 | The read loop itself. It has no contract of its own: `ServeRepliesToProcessedTexts` relates it to the independent `FirstStop`/`Texts`/`Replies` definitions, and `ServeAppend`, `StopEndsLoop` and `OthersSkipped` state its step behaviour. |
| WebSocket.ServeRepliesToProcessedTexts | pygweblet/websocket.py:145-149 | A connection sends exactly the replies to the TEXT messages that arrive before the first stopping message (ERROR, CLOSE, CLOSING or CLOSED), concatenated in arrival order. |
| WebSocket.ServeAppend | pygweblet/websocket.py:145-149 | Before any stopping message, the loop goes on to later messages, including after an error reply. The frames of two stretches are concatenated. |
| WebSocket.StopEndsLoop | pygweblet/websocket.py:145-149 | The first stopping message ends the loop: nothing after it is processed. ERROR breaks out of the loop; CLOSE, CLOSING and CLOSED end aiohttp's message iteration. |
| WebSocket.OthersSkipped | pygweblet/websocket.py:145-149 | A message that is neither TEXT nor a stopping message has no effect on what is sent. |
| WebSocket.HandleConnection | pygweblet/websocket.py:134-151 | The loop's frames are those of the read-loop definition. The texts it handles are exactly the TEXT messages before the first stopping message, in order. |
| WebSocket.PacketParts | pygweblet/websocket.py:260-265 | The last component is the symbol name. The components before it are the directories followed by the stem, in that order, with every `index` dropped: no earlier component is `index`, every directory other than `index` is kept, and so is the stem unless it is `index`. |
| WebSocket.MakePathFor | pygweblet/websocket.py:248-266 | `_make_path_for`: the packet parts joined with `.`. It has no contract of its own: `PacketParts` fixes the components, `PacketPathEndsWithName` the final name, `PacketPathComponents` that splitting on `.` recovers the components, and `IndexFileExample` a concrete case. |
| WebSocket.PacketPathEndsWithName | pygweblet/websocket.py:248-266 | The packet path ends with the symbol name. When anything precedes the name, a `.` separates them. |
| WebSocket.PacketPathComponents | pygweblet/websocket.py:260-266 | If no component contains a dot, splitting the packet path on `.` gives back its components. |
| WebSocket.IndexFileExample | pygweblet/websocket.py:260-266 | `index/index.py` with symbol `ping` gives packet path `ping`. |
| WebSocket.LoadSymbol | pygweblet/websocket.py:120-132 | A symbol is registered only if its name is public, it was defined in the file's own module and it is a coroutine or async-generator function. It is then stored under its packet path as the packet built from it, and every other entry is unchanged. |
| WebSocket.LoadPacket | pygweblet/websocket.py:119-132 | The file's packet paths are exactly the table's old keys plus the paths of its registering symbols. Paths that no registering symbol targets keep their packet. Every entry stays a packet built from a coroutine-like handler under its own path. |
| WebSocket.LastSymbolWins | pygweblet/websocket.py:130-132 | Within one file's symbol list, the last symbol placed at a path holds that path. A module dictionary never repeats a name, and distinct names give distinct paths, so in pygweblet this only matters through `LastPacketFileWins`. |
| WebSocket.LoadPacketFile | pygweblet/websocket.py:93-103 | A file whose name or any ancestor's name starts with `_` adds nothing. Any other file is run in a module named after its full path and adds exactly the paths its registering symbols map to. Each added path holds the packet built, under that path, from one of the file's symbols placed there. Other entries are unchanged, and every entry stays well formed. |
| WebSocket.PlacedHoldsPacket | pygweblet/websocket.py:119-132 | After a file's symbols are loaded, every path one of them is placed at holds the packet built from a symbol placed there. |
| WebSocket.LoadPackets | pygweblet/websocket.py:93-103 | The table's keys are the old keys plus the paths some non-excluded file registers. Keys no file registers keep their packet. Every entry stays well formed. |
| WebSocket.AddedHoldsPacket | pygweblet/websocket.py:93-103 | A path some file registers holds the packet built from a symbol of a file that registers that path. |
| WebSocket.LastPacketFileWins | pygweblet/websocket.py:93-103 | When several files register one path (for example `a.py` and `a/index.py` both give `a.ping`), the path holds the packet from the last symbol placed there in the last such file. |
| WebSocket.LastPlacing | pygweblet/websocket.py:126-132 | Gives the index of the last symbol placed at a path, or -1 when no symbol is: the symbol found is placed there and no later one is. |
| WebSocket.LastAdding | pygweblet/websocket.py:93-103 | Gives the index of the last file registering a path, or -1 when none does: the file found registers it and no later one does. |
| WebSocket.PrivateFileAddsNothing | pygweblet/websocket.py:94-97 | A file whose own name, or the name of a directory below the packets directory, starts with `_` registers no packet. |
| WebSocket.PrivateDirLoadsNoPackets | pygweblet/websocket.py:93-97 | If a directory above the packets directory starts with `_`, no packet is loaded. |
| WebSocket.Load | pygweblet/websocket.py:81-103 | A site's packet table holds exactly the paths some non-excluded packet file registers. Each path holds the packet built from a symbol of a file that registers that path. Each packet sits under its own path and was built from a coroutine or async-generator handler by the signature rules. |
| Router.MakePathFrom | pygweblet/router.py:130-150 | A program's URI path always starts with `/`. |
| Router.RootIndexIsSlash | pygweblet/router.py:138-146 | An `index` file at the root is served at exactly `/`. |
| Router.NestedIndexPath | pygweblet/router.py:139-146 | An `index` file below directories `P` is served at `"/" + P + "/"`. The path ends with `/` and never contains `//`. |
| Router.NonIndexPath | pygweblet/router.py:139-148 | Any other file is served at `"/" + stem` at the root. Below directories `P` it is served at `"/" + P + stem`, with no separator. |
| Router.BlogViewExample | pygweblet/router.py:139-148 | `blog/view.py` is served at `/blogview`. |
| Router.BlogIndexExample | pygweblet/router.py:139-146 | `blog/index.py` is served at `/blog/`. |
| Router.ParenthesisedSegmentExample | pygweblet/router.py:139-141 | `blog/(slug)/view.py` is served at `/blog/(slug)view`. The parenthesised part is not rewritten. |
| Router.LoadProgram | pygweblet/router.py:120-125 | For each of the seven methods whose lowercase name the file exports, `(method, path)` gets a new route. The route holds that handler and no template. No other key is added, and keys the file does not export keep their route. |
| Router.LoadFile | pygweblet/router.py:90-102 | An excluded file writes nothing. Otherwise the file writes exactly its exported methods at its URI path, and all other keys are unchanged. |
| Router.LoadPrograms | pygweblet/router.py:83-102 | The table's keys are the old keys plus those some non-excluded file writes. Keys that no file writes keep their route. Every route stays a program-only route under its own method and path. |
| Router.LastProgramWins | pygweblet/router.py:123-125 | For two programs at the same (method, path), the later one holds the route, with that handler and no template. Nothing is merged. |
| Router.PrivateDirLoadsNothing | pygweblet/router.py:92-95 | If any directory above the programs, including one outside the scanned tree, starts with `_`, no route is loaded. |
| Router.LoadTemplates | pygweblet/router.py:127-128 | `_load_templates` is a stub: the table keeps exactly its keys, each with its route. |
| Router.Load | pygweblet/router.py:69-81 | A site's table holds exactly the keys some program file writes, each with a program-only route. Loading templates adds no route. |
| Routes.NewRoute | pygweblet/route.py:62-74 | A route keeps the path, method, program and template it was built with. The program and the template default to absent. |
| Routes.BareRouteAnswersNothing | pygweblet/route.py:62-86 | A route built from only a path and a method has neither program nor template, and gives no response. |
| Routes.Handle | pygweblet/route.py:76-86 | A response exists exactly when the route has a truthy program whose result is a string. That response's text is the string and its content type is `text/html`. |
| Routes.TemplateNeverRead | pygweblet/route.py:76-86 | Changing the route's template never changes the response. |
| Routes.NoProgramNoResponse | pygweblet/route.py:83-86 | A route without a program gives no response, even when it has a template. |
| Packets.DefaultsOf | pygweblet/packet.py:106-110 | The defaults map holds exactly the parameters that declare a default. |
| Packets.DefaultsOfValue | pygweblet/packet.py:106-110 | Each parameter that declares a default is mapped to that default. |
| Packets.FromCoroutine | pygweblet/packet.py:92-118 | The packet keeps the given path and handler. The validator's defaults are the declared defaults, except names the class namespace reserves (`__annotations__`, `Config`). Its annotations are exactly the type hints without `return`, with the same types. |
| Packets.DefaultBecomesFieldDefault | pygweblet/packet.py:106-117 | A parameter's default becomes its field's default. |
| Packets.HintedWithoutDefaultIsUndefaulted | pygweblet/packet.py:106-117 | A hinted parameter without a default gets an annotation and no field default. Whether pydantic then requires the field is pydantic's decision: an `Optional[...]` or `Any` field still defaults to None. |
| Packets.SentOf | pygweblet/packet.py:84-89 | The yields that are sent are exactly the yielded dictionaries. |
| Packets.Handle | pygweblet/packet.py:68-89 | A coroutine's result is sent once, if it is a dictionary; otherwise nothing is sent. An async generator sends one frame per dictionary it yields, in yield order, and nothing else. Any other handler sends nothing. |
| Packets.StreamKeepsOrder | pygweblet/packet.py:84-89 | The frames of consecutive yields are sent in yield order. |
| Packets.SendYields | pygweblet/packet.py:84-89 | The async-generator loop sends exactly the yielded dictionaries, in yield order. |
| Paths.StemOfPy | pygweblet/router.py:143 | The stem of `<base>.py` is `<base>` when the base is not empty. |
| Paths.Excluded | pygweblet/router.py:92-95 | The exclusion rule of both loaders (also websocket.py:94-96): the file's name or the name of any directory above it starts with `_`. Its contract is stated by `ExcludedFullPath`. |
| Paths.ExcludedFullPath | pygweblet/websocket.py:94-96 | A file is excluded exactly when a directory above the scanned directory, a directory between it and the file, or the file itself has a name starting with `_`. |
| Paths.PrivateBaseExcludes | pygweblet/router.py:92-95 | A private directory anywhere above a file excludes that file. |

## Left out

- `pygweblet/server.py`: the aiohttp application, the TCP site, and the task and event lifecycle (`serve`, `cancel`, `_serve`, `serve_web`, `add_websocket`). Its `load` only passes the route tables to aiohttp.
- `pygweblet/template_loader.py`: it only does file reads and modification-time checks.
- Reading and `exec` of a file, `rglob` directory walking and `relative_to`: they are I/O. The model takes the discovered files, in discovery order, and each file's symbols as inputs.
- `json.loads` and `json.dumps`: a `Decoder` function replaces decoding, and frames are the dictionaries rather than their JSON text. Real decoded JSON objects always have string keys, so the non-string-key check can only be reached through the abstract decoder.
- pydantic validation: the validator is opaque. The model keeps only its inputs: the class attributes (defaults) and the annotations. The `Config` class with `arbitrary_types_allowed` is not modelled.
- WebSocket.ParseDecoded: error messages name the offending type with `TypeName` (for example `int`). The source embeds `type(...)`'s repr (`<class 'int'>`).
- `json.dumps` failures: a frame dictionary holding a value JSON cannot encode (a function or another object), or a key that is not a string, number, bool or None (for example a tuple), raises `TypeError`. That leaves `handle_message` and ends the connection loop. The model sends every dictionary as a frame and keeps serving. It also does not model that `json.dumps` turns number, bool and None keys into strings: `{1: 2}` is sent as `{"1": 2}`.
- Awaiting, handler exceptions and how they propagate, and the aiohttp `Response` object. A response is a `Routes.Response` holding text and content type.
- The connection loop takes the messages the connection receives. aiohttp's iterator ends at CLOSE, CLOSING and CLOSED; the model stops there too, but does not model the closing handshake aiohttp performs.
- `__repr__`, `__str__` and `__iter__` of the routers and the packet, and the `router`/`server` back-references. They are for display and navigation only.
- Router.Lower: lowercases ASCII letters only. The method names are ASCII.
- Python.ModuleOf: returns "" for non-callables. That ignores the `__module__` that class instances inherit, but such objects are never coroutine functions, so the set of registered packets is the same.
- Handlers are modelled as functions of the handler and its arguments only: the `Runtime`'s results cannot depend on state kept between messages, on globals, on the clock or on earlier calls. Real handlers may do all of these. `WebSocket.ServeAppend` and `WebSocket.Replies` rely on this.
- Every handler is assumed to finish: `Runtime.awaited` is total and `Runtime.yielded` is a finite sequence. A handler that never returns, or an async generator that never ends, blocks all later messages on the connection (packet.py:81 and 87-89, websocket.py:145-147). `WebSocket.ServeAppend` and `WebSocket.ServeRepliesToProcessedTexts` rely on this.
- Python dictionaries treat `True` and `1` as the same key. `Python.Obj` keeps them apart.
