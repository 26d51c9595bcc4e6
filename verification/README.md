# Verification of lightsd

lightsd is a daemon that drives LIFX light bulbs over UDP and takes JSON-RPC commands on sockets and pipes. This project
models the parts of it whose state is hard to keep right, and proves what they promise.

- **The JSON front end**: the two-pass jsmn tokenizer in strict mode (`Jsmn`, `JsmnParser`), its meaning in terms of a
  JSON syntax tree (`Json`, `JsmnGrammar`, `JsmnPrefix`, `JsmnTheorems`) and the texts it refuses (`JsmnRefusal`), the
  framing of the command pipe (`Pipe`, `PipeFraming`) over garbage and ends of file (`PipeRecovery`), the token walker and
  the dictionary extraction (`JsonRpc`), requests, notifications and batches (`JsonRpcDispatch`, `JsonBatch`) and what they
  ask for by their members and are answered (`JsonRequest`, `JsonReplies`), the way from the bytes on the pipe to the methods
  that are called (`FrontEnd`, `PipeCalls`, `PipeRequests`), and decimals (`Decimal`). JSON is RFC 8259; batches are section
  6 and notifications section 4.1 of the JSON-RPC 2.0 Specification.
- **The registry**: tags, their sites and the tag ids of gateways (`Tagging`, `TagHandlers`, `TagCall`, and step by step
  `TagRegistry`) and what every id stands for (`TagLabels`), bulbs, tag reference counts and statistics (`BulbTable`, and
  step by step `BulbRegistry`), whole runs of both (`Daemon`) and what they come to for every bulb and tag id
  (`DaemonHistory`). Tag words are scanned with a De Bruijn table (`BitScan`).
- **The send path** of a gateway (`PacketRing`) and the packet header on hosts of either byte order (`WireHeader`).
- **Routing** of commands to bulbs, by two resolvers of the same targets (`Router`, `RouterDevices`), and the
  retransmission of power commands (`PowerRetry`).
- **The red-black tree** behind the table of bulbs, with its nodes linked in place (`RbShape`, `RbFixup`, `RbTree`).

`Common` has what they share.

Code that changes objects in place is a class whose methods are proved against functions on values; the lemmas are about
those functions. Gateways, tags and bulbs of the registry are records known by a reference, so that a reference which is
not in the map of its kind stands for an object that was released. What the allocator, the clock and the sockets do are
parameters.

Where the code does not do what its purpose or the text around it suggests, the model follows the code:

- `lgtd_jsonrpc_type_null` (core/jsonrpc.c:143-149) compares as many characters as the token has children, and holds when
  they differ; the model does the same.
- `request_ntokens` (core/jsonrpc.c:611-617) is the number of tokens of a request only under a condition, which
  `RequestCountExact` states.
- The dictionary loop (core/jsonrpc.c:336-400) does not stop at the end of an object but at the next token that is no
  string, so that elements of a batch behind an object can become its members; `FairExact` says when they do not.
- A batch is dispatched with every token of the buffer (core/jsonrpc.c:1226), so that texts behind it in the same read are
  taken for elements, and dispatched again later; `SplitsAgreeExactly` and `SteadyExactly` say when that does not matter.
- A text of the pipe is dispatched only when everything behind it in the buffer is complete (core/pipe.c:105-122), so that
  one which shares its read with an unfinished or a faulty one waits, or is lost, with it; `LostWithTheNext` and
  `GarbageDrainsAll` say so.
- The retry of a power command looks at the gateway of the bulb (lifx/gateway.c:605-607) when a status came through
  another; `RunAsMeantExactly` says when that goes wrong.
- The comment of `lgtd_lifx_wire_decode_header` (lifx/wire_proto.c:853-855) speaks of a result that the function does not
  have.

`dafny verify dfyconfig.toml` checks the whole project.

## Model

| member | source | states |
|---|---|---|
| `RbTree.Table.RotateLeft` | compat/generic/sys/tree.h:335-353 | a left rotation at a linked node turns the subtree into its rotated form, with every child, parent and root link in agreement |
| `RbTree.Table.RotateRight` | compat/generic/sys/tree.h:355-373 | the same for a right rotation |
| `RbFixup.RotatedLeftKeepsOrder` | compat/generic/sys/tree.h:335-353 | a left rotation keeps the in-order contents of the whole tree |
| `RbFixup.RotatedRightKeepsOrder` | compat/generic/sys/tree.h:355-373 | a right rotation keeps the in-order contents of the whole tree |
| `RbFixup.RecolorKeepsPending` | compat/generic/sys/tree.h:409-414 | recolouring a red uncle moves the only possible red-red pair two levels up and changes nothing else of the colours |
| `RbFixup.SettleRightKeepsPending` | compat/generic/sys/tree.h:415-422 | the rotation and recolouring below a left grandparent link leave no red-red pair, with equal black heights |
| `RbFixup.SettleLeftKeepsPending` | compat/generic/sys/tree.h:431-438 | the mirror case |
| `RbTree.Table.InsertColor` | compat/generic/sys/tree.h:401-442 | from a tree with at most one red-red pair, at the new node, the loop ends in a red-black tree with a black root and the same in-order contents |
| `RbTree.Table.Insert` | compat/generic/sys/tree.h:588-616 | keeps order, links, colours and black heights; a present key changes nothing and returns its node; else the contents grow by exactly the given node |
| `RbFixup.SiblingExists` | compat/generic/sys/tree.h:451-457 | where the removal fix-up reads the sibling of a node that lacks one black, that sibling is never null |
| `RbFixup.BlackeningEnds` | compat/generic/sys/tree.h:516-517 | painting the node black where the loop stops gives a red-black tree |
| `RbFixup.RedSiblingRight` | compat/generic/sys/tree.h:452-456 | after the rotation at a red right sibling the node still lacks one black and the new sibling is black |
| `RbFixup.RedSiblingLeft` | compat/generic/sys/tree.h:484-488 | the mirror case |
| `RbFixup.BlackNephews` | compat/generic/sys/tree.h:457-463 | two black nephews: painting the sibling red moves the lack of a black one level up |
| `RbFixup.NearNephewRight` | compat/generic/sys/tree.h:465-473 | a red near nephew becomes a red far one by a rotation, on the right |
| `RbFixup.NearNephewLeft` | compat/generic/sys/tree.h:497-505 | the same on the left |
| `RbFixup.FarNephewRight` | compat/generic/sys/tree.h:474-480 | the rotation with a red far nephew ends the repair, on the right |
| `RbFixup.FarNephewLeft` | compat/generic/sys/tree.h:506-512 | the same on the left |
| `RbTree.Table.RemoveColor` | compat/generic/sys/tree.h:444-518 | from a tree that lacks one black at one place, the loop ends in a red-black tree with the same in-order contents |
| `RbFixup.Succeeded` | compat/generic/sys/tree.h:531-563 | putting the in-order successor in the place and colour of a removed inner node leaves a tree that lacks at most one black where the successor was |
| `RbTree.Table.Remove` | compat/generic/sys/tree.h:520-585 | keeps order, links, colours and black heights; the contents lose exactly the given node and the order of the others stays |
| `RbTree.Table.Find` | compat/generic/sys/tree.h:619-634 | returns the node with the key if and only if there is one |
| `RbTree.Table.Next` | compat/generic/sys/tree.h:658-677 | the next node in order, null after the last |
| `RbTree.Table.Min` | compat/generic/sys/tree.h:701-714 | the first node in order |
| `RbTree.Table.Max` | compat/generic/sys/tree.h:701-714 | the last node in order |
| `RbTree.Table.ForEach` | compat/generic/sys/tree.h:728-731 | RB_FOREACH visits exactly the contents, in order |
| `RbShape.HeightBound` | compat/generic/sys/tree.h:46-54 | two to the height is at most (n+1) squared: the height is at most 2 log2(n+1) |
| `JsmnTheorems.FillIsFlatten` | core/jsmn.c:155-307 | for every stream of objects and arrays with any legal whitespace, filling gives the preorder flattening: kinds, spans, members of objects, size 1 of keys, elements of arrays, and nothing else |
| `JsmnGrammar.FillValue` | core/jsmn.c:155-307 | one legal value anywhere in the text adds exactly its flattening to the tokens and one to the size of its parent |
| `JsmnGrammar.FillElems` | core/jsmn.c:186-264 | the elements of an array up to its bracket add their flattenings and close the array at the bracket |
| `JsmnGrammar.FillMembers` | core/jsmn.c:186-264 | the members of an object add a key with its one value each and close the object at the brace |
| `JsmnTheorems.Lockstep` | core/jsmn.c:155-307 | on any bytes the counting pass counts at least the tokens there are, a filling that succeeds has exactly that many, and one with as many slots never runs out of memory |
| `JsmnTheorems.CountedIsEnough` | core/pipe.c:105-141 | filling with the counted number of slots returns that many tokens, an invalid or a partial text; never the lack of memory |
| `JsmnTheorems.MoreRoom` | core/jsmn.c:10-23 | more slots than are needed do not change the result |
| `JsmnTheorems.TokenizesStream` | core/pipe.c:105-141 | both passes together give the flattening of every legal stream, and the count is its length |
| `JsmnTheorems.TokenizesPrefix` | core/jsmn.c:88-150 | every prefix of a legal stream gives the texts that are complete in it, or a partial text; never an invalid one |
| `JsmnRefusal.FillJudged` | core/jsmn.c:155-307 | for any text and any number of slots, unless these run out: the text is taken, invalid or partial exactly as a machine says that keeps no tokens, only the kinds of the open brackets and of the parent |
| `JsmnRefusal.TwoPassesJudged` | core/pipe.c:105-141 | so both passes take exactly the texts that the machine takes, with the error of the counting pass before that of the machine, and the tokens are what is written |
| `JsmnRefusal.FilledSpells` | core/jsmn.c:155-307 | for any text: in the tokens of a successful pass every object and array goes from its bracket to a bracket of the same kind, every string stands between its quotes with a legal body, every primitive is printable and ends at a delimiter, and two tokens are apart or nested |
| `JsmnRefusal.CountFaulty` | core/jsmn.c:155-307 | for any text: the counting pass finds it invalid if and only if, going over its strings, primitives and single characters, there is one that starts nothing, a string with a bad escape or a primitive that is not printable |
| `JsmnRefusal.StringEnds` | core/jsmn.c:88-150 | a string that ends has a legal body and a closing quote behind it |
| `JsmnRefusal.StringInvalid` | core/jsmn.c:100-140 | a string is invalid if and only if a legal body leads to a backslash before something that is no escape, or to a \u with something else among its four digits |
| `JsmnRefusal.PrimitiveEnds` | core/jsmn.c:39-83 | a primitive stops at the first delimiter; it is invalid if and only if a character that is not printable comes first |
| `JsmnRefusal.GarbageIsInvalid` | core/jsmn.c:213-299 | a closing bracket, a character that starts nothing or a string with a bad escape behind any legal stream is invalid |
| `JsmnParser.Parser.Parse` | core/jsmn.c:155-307 | jsmn_parse() on an array of tokens, counting or filling, returns the code and the tokens of the two functions above |
| `JsmnParser.Parser.FillAll` | core/jsmn.c:155-307 | the filling loop writes the tokens in place; toknext and toksuper stay in their bounds at every turn |
| `JsmnParser.Parser.CountAll` | core/jsmn.c:155-307 | the counting loop |
| `JsmnParser.Parser.FillTurn` | core/jsmn.c:162-295 | one character of the filling pass |
| `JsmnParser.Parser.CountTurn` | core/jsmn.c:162-295 | one character of the counting pass |
| `JsmnParser.Parser.Close` | core/jsmn.c:186-234 | a closing bracket is taken if and only if the last open token is of its kind; it ends that token and no other, and the new parent is the last one open before it; otherwise it is invalid |
| `JsmnParser.Parser.FindOpen` | core/jsmn.c:213-231 | the backward search finds the last token that is still open |
| `JsmnParser.Parser.FindOpenContainer` | core/jsmn.c:247-262 | the search at a comma, which also tests for an object or array, finds the same token |
| `JsmnParser.Parser.ParseString` | core/jsmn.c:88-150 | a string token, or partial, invalid or no memory |
| `JsmnParser.Parser.ParsePrimitive` | core/jsmn.c:39-83 | a primitive token in strict mode, or partial, invalid or no memory |
| `JsmnParser.Parser.ScanOverString` | core/jsmn.c:94-146 | where a string ends, with its escapes |
| `JsmnParser.Parser.ScanOverPrimitive` | core/jsmn.c:44-66 | where a primitive ends |
| `JsmnParser.Parser.AllocToken` | core/jsmn.c:10-23 | the next free slot, or none |
| `Pipe.FilledInBounds` | core/jsmn.c:10-23 | for any text: the tokens of a successful pass are all closed, start and end inside of the text, and only strings may be empty |
| `Jsmn.StepPlaced` | core/jsmn.c:254-266 | for any text: at every turn only objects and arrays are open, so that the test of a comma for an open object or array finds the last open token |
| `Pipe.RequestEnds` | core/pipe.c:120-141 | a request that is dispatched ends within the buffer and drains at least one byte, so the loop terminates |
| `Pipe.CommandPipe.ParseRequest` | core/pipe.c:101-122 | the two passes over the buffer: a request, wait for more, or drain |
| `Pipe.CommandPipe.ProcessBuffer` | core/pipe.c:96-150 | the inner loop dispatches the requests of the buffer one after the other and keeps what is left |
| `Pipe.CommandPipe.ReadCallback` | core/pipe.c:72-153 | the read loop with retries, end of file and errors, as a function of the reads |
| `PipeFraming.ProcessComplete` | core/pipe.c:96-150 | a buffer of complete texts is dispatched text by text, first with the tokens of all of them, then with those of the texts left; whitespace at the end stays |
| `PipeFraming.FramesDispatch` | core/pipe.c:120-126 | each of these dispatches has the text in the buffer and token 0 spanning it |
| `PipeFraming.ProcessPrefix` | core/pipe.c:96-150 | a buffer that ends inside a text dispatches the complete ones and keeps the rest, unless it is 4096 bytes |
| `PipeFraming.FramingFrom` | core/pipe.c:83-150 | from any state between two reads, for any reads that go on with the stream, exactly the texts that become complete with each read are dispatched, with the texts of that read behind them |
| `PipeFraming.FramesInOrder` | core/pipe.c:83-150 | for any split of any beginning of a stream these are one dispatch per text that is answered, in order |
| `PipeFraming.AllAnswered` | core/pipe.c:83-150 | when the reads do not end inside a text, these are all texts that are complete |
| `PipeFraming.FramingIgnoresChunks` | core/pipe.c:83-150 | for every legal stream and every split into reads with under 4096 bytes buffered: one dispatch per text, in order |
| `PipeFraming.CallbacksDeliver` | core/pipe.c:83-150 | a sequence of callbacks delivers the concatenation of what they read |
| `PipeFraming.FramingIgnoresCallbacks` | core/pipe.c:83-150 | the same however the reads are spread over callbacks |
| `PipeRecovery.NextRequestExactly` | core/pipe.c:101-122 | for any buffer: it holds a request if and only if it has tokens and the machine takes it; what is unfinished or has no tokens waits below 4096 bytes; anything else is thrown away |
| `PipeRecovery.KeptIsShort` | core/pipe.c:96-150 | for any buffer: what is kept is its end, less than 4096 bytes, and holds no request; every dispatch has a buffer that is an end of it |
| `PipeRecovery.GarbageDrainsAll` | core/pipe.c:108-147 | a character that starts nothing, or a string with a bad escape, behind any number of complete texts throws the whole buffer away, and none of them is dispatched |
| `PipeRecovery.SessionDelivers` | core/pipe.c:83-152 | callbacks up to an end of file or an error leave an empty buffer, whatever the stream was cut off in |
| `PipeRecovery.SessionsFramed` | core/pipe.c:72-153 | over any number of such sessions the dispatches are those of the texts that each answers, in order: an unfinished request of one has no part in the next |
| `PipeRecovery.LostWithTheNext` | core/pipe.c:72-153 | a complete request that shares its read with the beginning of another is not answered when the pipe is closed then |
| `JsonRpc.ConsumeObjectOrArray` | core/jsonrpc.c:299-322 | on the flattening of a tree the walker returns one past the subtree |
| `JsonRpc.CountIsLength` | core/jsonrpc.c:299-322 | the structural number of tokens of a tree is the length of its flattening |
| `JsonRpc.PassesIffAllows` | core/jsonrpc.c:121-187 | the type tests on a token hold exactly for the values they are meant for (the check for null follows the code) |
| `JsonRpc.ItemsOfValue` | core/jsonrpc.c:299-322 | in the tokens of a tree, every token is the first of the tokens of one value of it, a key standing for a string |
| `JsonRpc.SkipValue` | core/jsonrpc.c:376-386 | from any token the walk goes past the value that starts there, and not past the array of tokens |
| `JsonRpc.ExtractPair` | core/jsonrpc.c:336-395 | one key and value: looked up, type-checked, refused when seen before, skipped by its tokens |
| `JsonRpc.ExtractFromDict` | core/jsonrpc.c:324-416 | for any token array of values, whatever stands behind the object: strings are taken for keys and what follows for values as long as there is a string, accepted or rejected with exactly the slots these give, and whether the loop gets to a key without a value and reads behind the array |
| `JsonRpcDispatch.MembersAreCounted` | core/jsonrpc.c:611-617 | what the slots account for and what they do not add up to the tokens of the members |
| `JsonRpcDispatch.RequestCountExact` | core/jsonrpc.c:611-617 | for every accepted request the arithmetic count is the structural one if and only if the members it ignores have two tokens |
| `JsonRpcDispatch.RequestCountRight` | core/jsonrpc.c:611-617 | so it is right for the keys jsonrpc once, method, params and id in any order, with a string or number as id |
| `JsonRpcDispatch.UnknownKeyIsNotCounted` | core/jsonrpc.c:611-617 | a request with one more key is counted two tokens short |
| `JsonRpcDispatch.SlotsOfRequest` | core/jsonrpc.c:566-609 | for any tokens: every slot of a request points at a value of the right type; an accepted one has a method |
| `JsonRpcDispatch.Client.constructor` | core/client.c:206-240 | a client with a connection |
| `JsonRpcDispatch.Client.FromPipe` | core/client.c:256-262 | the client of a pipe has no connection |
| `JsonRpcDispatch.Client.IdOf` | core/jsonrpc.c:498-515 | the id as it is written in the request, quotes included, or null |
| `JsonRpcDispatch.Client.ParamsOf` | core/jsonrpc.c:566-609 | the parameters as they are written in the request |
| `JsonRpcDispatch.Client.IsKnownMethod` | core/jsonrpc.c:1165-1175 | the table lookup holds exactly for the nine method names |
| `JsonRpcDispatch.Client.CallMethod` | core/jsonrpc.c:1175-1197 | the method is called with the parameters and the id as values of the request; a notification writes nothing and is not counted as sent; the connection is restored |
| `JsonRpcDispatch.Client.DispatchOne` | core/jsonrpc.c:1113-1208 | for any tokens behind the object: what is read with them is refused, unknown or called, with its reply after '[' or ',' in a batch, nothing for a notification of a known method, and the tokens it says it used; or the loop runs past the tokens. `JsonRequest.DispatchedAsMeant` says which of these by the members of the object |
| `JsonRpcDispatch.Client.DispatchElement` | core/jsonrpc.c:1226-1249 | the same at any token of a batch; anything but an object is an invalid request |
| `JsonRpcDispatch.Client.DispatchBatch` | core/jsonrpc.c:1225-1254 | for any tokens: exactly what the walk over them comes to is called, in order, and written as '[', the replies with ',' between them, ']', or nothing when there is none; the loop terminates, and says whether it ran past the tokens |
| `JsonRpcDispatch.Client.DispatchRequest` | core/jsonrpc.c:1210-1255 | for any tokens: a request, a batch, or an invalid request when there is nothing or an empty object or array; a client without a connection gets nothing |
| `JsonRequest.RequestRead` | core/jsonrpc.c:566-617 | for every object, whatever its members and their order: it is called with the value of method, of params and of id if and only if there is one method, at most one params and id, all of the right type, and the method is one of the nine; not found when it is another name; a bad request otherwise, with the id that was read up to the first fault |
| `JsonRequest.DispatchedAsMeant` | core/jsonrpc.c:1113-1208 | the same for what is decided when the object is dispatched in front of anything that leaves it alone |
| `JsonRequest.ParametersAreGiven` | core/jsonrpc.c:566-609 | {jsonrpc, method power_on, params, id} is called with these parameters and this id, whatever they are |
| `JsonRequest.ErrorIsJson` | core/jsonrpc.c:517-535 | the text of an error is that of a JSON object with the id or null, the code and the message |
| `JsonRequest.RefusalIsJson` | core/jsonrpc.c:1144-1208 | every legal object that calls nothing is answered with such an object: code -32600 for an invalid request, -32601 for an unknown method |
| `JsonRequest.BatchIsJson` | core/jsonrpc.c:1225-1254 | what is written for a batch is nothing, or a JSON array of the replies |
| `JsonReplies.ObjectOutput` | core/jsonrpc.c:1113-1208 | for every legal object: the answer to what its members ask for, with the texts of its parameters and id, or an error object, or nothing for a notification of a known method |
| `JsonReplies.BatchOutput` | core/jsonrpc.c:1225-1254 | for every legal fair batch: these answers of its elements, in order, between brackets and with commas, or nothing when there is none |
| `JsonReplies.BatchOutputIsJson` | core/jsonrpc.c:1225-1254 | which is JSON if what the methods write is |
| `JsonBatch.OwnMembersFirst` | core/jsonrpc.c:336-400 | the members of an object are read as they are, and the loop goes on with what stands behind them |
| `JsonBatch.QuietExact` | core/jsonrpc.c:336-400 | the elements behind an object leave its slots alone if and only if they do not start with a string, or with pairs of unknown keys or jsonrpc only, the last string having a value; a refused value or a key seen before is harmless to an incomplete request only |
| `JsonBatch.ReadAloneExact` | core/jsonrpc.c:324-416 | so an object of a batch is read as if it stood alone if and only if its own members are refused or the elements behind it are like that |
| `JsonBatch.FairExact` | core/jsonrpc.c:1225-1254 | for every batch: the loop visits the elements one by one and reads each alone, inside of the tokens, if and only if every object is read alone and every accepted one is counted right, or not short when it is the last |
| `JsonBatch.OneActPerElement` | core/jsonrpc.c:1225-1254 | such a batch comes to one act per element, the one the element would come to by itself, in order |
| `JsonBatch.BatchAnswered` | core/jsonrpc.c:1225-1254 | the same with other texts behind the array in the buffer, which the loop takes for elements |
| `JsonBatch.ObjectAnswered` | core/jsonrpc.c:1221-1224 | a request in front of other texts comes to what it would come to alone |
| `JsonBatch.PlainOrArrayIsFair` | core/jsonrpc.c:1225-1254 | batches of objects with the keys of a request, jsonrpc once and a string or number as id, and of arrays, are such batches |
| `JsonBatch.StaysInside` | core/jsonrpc.c:336-400 | for any tokens the loops stay inside of them unless the last token is a string |
| `JsonBatch.SwallowsNext` | core/jsonrpc.c:336-400 | in [{...},"id",5] the notification takes the two elements behind it for its id: one call with id 5, seven tokens, no reply of their own |
| `JsonBatch.LoneStringRunsOver` | core/jsonrpc.c:352-354 | in [{...},"x"] the loop of every object that is not refused for its own members reads behind the tokens |
| `JsonBatch.PowerOnAct` | core/jsonrpc.c:1113-1208 | a power_on notification comes to one call |
| `FrontEnd.StreamParsed` | core/pipe.c:101-122 | the tokens of a buffer of texts are the values of its trees, one per token |
| `FrontEnd.AnswerAll` | core/pipe.c:122-126 | the dispatches of a run call exactly the methods of what they come to, in order, up to one that runs past its tokens, and a client without a connection gets nothing |
| `PipeCalls.SteadyRun` | core/pipe.c:83-150 | when every text calls the same methods whatever stands behind it in the buffer, any split calls those of each text alone, in order |
| `PipeCalls.UnsteadySplits` | core/pipe.c:83-150 | otherwise two splits are found that call different methods |
| `PipeCalls.SplitsAgreeExactly` | core/pipe.c:83-150 | for every legal stream: all splits call the same methods in the same order if and only if every text calls the same ones whatever stands behind it |
| `PipeCalls.BatchLastIsSteady` | core/pipe.c:83-150 | streams of requests with at most one batch, at the end, are like that |
| `PipeCalls.SteadyExactly` | core/pipe.c:83-150 | when batches are fair: if and only if no batch has a text behind it that calls a method; and no token behind the buffer is read |
| `PipeCalls.PlainStreamIsFair` | core/pipe.c:83-150 | streams of plain requests and batches of them are fair |
| `PipeCalls.CalledAgain` | core/pipe.c:120-139 | for every plain request of a method, [{...}]{...} calls it twice when read text by text and three times in one read |
| `PipeCalls.Serve` | core/pipe.c:72-153 | from the bytes of any callbacks to the calls: the client of a pipe gets nothing written, and a steady stream calls the methods of its texts, in order |
| `PipeRequests.OwnCallsAsked` | core/jsonrpc.c:1210-1255 | a request or a fair batch calls what its objects ask for by their members, in order |
| `PipeRequests.RunCallsAsked` | core/pipe.c:72-153 | from the bytes to the calls without tokens and slots: however a stream of fair batches is read, exactly the calls that its texts ask for by their members are made, in order, when no batch is followed by a text that calls a method |
| `JsonRpcDispatch.WrittenIsJoined` | core/jsonrpc.c:1098-1111 | separators written one by one make the replies of a batch a bracketed, comma-separated list |
| `Decimal.PrintedDenotes` | core/jsonrpc.c:233-297 | the printed text is canonical, denotes exactly the given number of millionths as a real, and has at most ten characters |
| `Decimal.Uint16RangeToFloatString` | core/jsonrpc.c:233-297 | the buffer holds the text of floor(x * range * 10^6 / 65535) millionths, cut at size - 1, with a final NUL; nothing past size changes |
| `Decimal.PutDigits` | core/jsonrpc.c:277-292 | the digit loop writes the rest of the text, as far as it fits |
| `Decimal.PutZeros` | core/jsonrpc.c:265-275 | the zeros between the point and the first digit |
| `Decimal.FindTop` | core/jsonrpc.c:258-261 | the power of ten of the first digit |
| `Decimal.MillionthsIsFloor` | core/jsonrpc.c:211-231 | reading a decimal keeps the floor of its millionths |
| `Decimal.FloatRangeToUint16` | core/jsonrpc.c:211-231 | for any text that starts with digits: the weighted sum of the first six characters behind the dot, scaled and truncated; for a decimal floor(millionths * 65535 / (range * 10^6)), at most 65535 when it is in range |
| `Decimal.PrintAndRead` | core/jsonrpc.c:211-297 | printed into a buffer of eleven characters or more and read back, any 16-bit x is x when 65535 divides x * range * 10^6, and x - 1 otherwise |
| `Decimal.ReadFraction` | core/jsonrpc.c:223-229 | six characters of the fraction at most, weighted |
| `Decimal.ToNumberInvertsText` | core/jsonrpc.c:211-231 | a decimal text has one reading |
| `Decimal.RoundTrip` | core/jsonrpc.c:211-297 | the same for the text and its reading as values |
| `Decimal.PrintedIsInRange` | core/jsonrpc.c:233-297 | what is printed passes the range check when it is read |
| `Decimal.FloatBetween0And1` | core/jsonrpc.c:55-90 | for every primitive: accepted if and only if it is a decimal of at most 1 |
| `Decimal.Strtol` | core/jsonrpc.c:106-118 | blanks, a sign and digits with their value, whether it fits in a long, and where they end; without digits nothing is read |
| `Decimal.FloatBetween0And360` | core/jsonrpc.c:92-119 | for every primitive: accepted if and only if it is digits up to 360, then nothing, or a dot with no number behind it in the text, or a dot with an optional sign and digits that fit in a long and are zero when the sign is - or the digits before were 360 |
| `Decimal.DecimalPasses` | core/jsonrpc.c:92-119 | a decimal is accepted if and only if it is at most 360 and its fraction fits in a long |
| `Decimal.SignBehindDot` | core/jsonrpc.c:92-231 | 0.+5 is accepted, and encoded as -81 |
| `PacketRing.Gateway.constructor` | lifx/gateway.c:352-440 | an empty ring and buffer, and both request times those of the packet that made it known |
| `PacketRing.Gateway.Take` | lifx/gateway.c:185-190 | the bytes that leave the buffer are those of the first packet |
| `PacketRing.Gateway.Enqueue` | lifx/gateway.c:469-509 | a packet is added at the end of the queue, or dropped if and only if sixteen are waiting; ring, buffer and event stay consistent |
| `PacketRing.Gateway.Write` | lifx/gateway.c:181-214 | a write takes bytes of the first packet only; the packet is done exactly when nothing is left of it; the ring stays consistent if and only if the socket did not answer -1, and then the packet counts one byte more, nothing else changes, and no history of packets fits |
| `PacketRing.Gateway.Advance` | lifx/gateway.c:199-210 | the slot at the tail, the tail and the flags after a write |
| `PacketRing.EnqueueConsistent` | lifx/gateway.c:469-509 | adding a packet keeps the ring, the buffer and the event in agreement with the queue |
| `PacketRing.WriteConsistent` | lifx/gateway.c:181-214 | so does every write of 0 to the remaining bytes, partial or last |
| `PacketRing.StuckInconsistent` | lifx/gateway.c:187-199 | after a result of -1 the sizes in the ring add up to one more than the buffer has, and no packets, sent so far in any way, fit the state |
| `PacketRing.SizesAddUp` | lifx/gateway.c:181-214 | the sizes in the ring add up to the length of the buffer |
| `PacketRing.WrittenInOrder` | lifx/gateway.c:181-214 | what was written is the packets that are done and the beginning of the next one |
| `PacketRing.Conservation` | lifx/gateway.c:181-509 | every byte of the accepted packets is on the wire or in the buffer, in order |
| `BitScan.TableInvertsProduct` | lifx/wire_proto.c:43-52 | the De Bruijn table inverts the product for each of the 64 masks |
| `BitScan.BitScanForwardLowest` | lifx/wire_proto.h:422-429 | the scan returns the lowest set bit of every non-zero word, -1 for zero |
| `BitScan.NextTagIdIsNext` | lifx/wire_proto.h:431-439 | the least set bit above the current one, or -1 |
| `BitScan.ForEachTagId` | lifx/wire_proto.h:441-444 | the loop visits exactly the set bits, once each, ascending, and stops |
| `WireHeader.ParseInvertsLayout` | lifx/wire_proto.h:51-103 | the 36 bytes of any header are read back to the same fields |
| `WireHeader.FieldsOnTheWire` | lifx/wire_proto.h:51-103 | where every field is in the 36 bytes, words with their low byte first |
| `WireHeader.PacketHeader.Encode` | lifx/wire_proto.c:827-851 | on either kind of host the memory holds the same little-endian layout of the fields, with the two bits of the flags that are asked for added to the byte |
| `WireHeader.PacketHeader.Setup` | lifx/wire_proto.c:873-916 | for every packet kind and target the 36 bytes are the same on both kinds of hosts: those of the fields that PacketRecovered and PacketMarked are about |
| `WireHeader.PacketHeader.Decode` | lifx/wire_proto.c:853-871 | on either kind of host decoding gives the fields of the wire bytes |
| `WireHeader.PacketRecovered` | lifx/wire_proto.c:853-916 | any host gets back size, type, source, flags, version 0x400, addressable and tagged bits and the tags or the address of a packet set up on any host; two zeros behind an address, a zero target for a site or all devices, the site or six zeros, and zeros in the fields that are not set |
| `WireHeader.PacketMarked` | lifx/wire_proto.c:873-916 | bytes 2 and 3 are 00 34, or 00 14 for a device, byte 22 asks for a response, byte 23 is zero |
| `WireHeader.ProtocolOnTheWire` | lifx/wire_proto.c:833-839 | the protocol field has the same two bytes whatever the host |
| `WireHeader.VersionAndFlagsRecovered` | lifx/wire_proto.h:115-128 | version and flags are recovered with the masks of either host |
| `WireHeader.DecodedFromTheWire` | lifx/wire_proto.c:861-864 | what decoding makes of any protocol field, on both hosts |
| `WireHeader.TaggedAgrees` | lifx/wire_proto.c:861-867 | for any version both hosts agree on the tagged flag if and only if bit 5 of the version is clear or the flag is set |
| `WireHeader.TaggedDisagrees` | lifx/wire_proto.c:861-867 | with version 0x420 they do not |
| `Tagging.ExactlyOneSite` | lifx/tagging.c:94-139 | bit i of the ids is set if and only if slot i holds a tag, which then has exactly one site for the gateway, with id i |
| `Tagging.DecrefLinked` | lifx/tagging.c:141-164 | releasing a slot's tag removes that one site, and the tag with its last site |
| `Tagging.DeallocateTagIdValid` | lifx/gateway.c:729-747 | deallocating an id keeps all links |
| `Tagging.FreeIdIsLowest` | lifx/gateway.c:697-706 | allocation with id -1 takes the lowest free id and fails only when all 64 are in use |
| `Tagging.AllocateTagIdValid` | lifx/gateway.c:684-727 | allocating an id keeps all links and adds exactly that id; it aborts if and only if the id is free and the label is on the gateway already; with memory it never refuses |
| `TagHandlers.OpenGatewayValid` | lifx/gateway.c:351-440 | a new gateway keeps all links |
| `TagHandlers.CloseGatewayValid` | lifx/gateway.c:56-87 | closing a gateway leaves no site that names it and keeps all links of the others; these have the slots they had, and every tag has exactly its sites for them, in their order, and is gone only when all its sites were for the closed one; no released tag is touched on the way |
| `TagHandlers.LabelAllValid` | lifx/gateway.c:749-769 | any packet of tag labels that does not abort keeps all links |
| `TagHandlers.LabelAllAborts` | lifx/gateway.c:749-769 | it aborts only when a free id meets a label that is on the gateway, or two free ids do; and always then, if memory is not short |
| `TagHandlers.LabelAllIds` | lifx/gateway.c:749-769 | without a label the ids of the packet are free afterwards; with one they are in use, as far as memory goes; no other id changes |
| `TagCall.RollbackForgets` | core/proto.c:472-480 | the rollback leaves nothing of the tag, on gateways that had it before as well, and changes no other tag |
| `TagCall.CallTagAllOrNothing` | core/proto.c:393-487 | a tag call that succeeds has an id on the gateway of every device; one that fails for lack of the list of devices changes nothing; one that fails later leaves no tag of that label, not even one that was there before; other tags stay, and all links hold |
| `TagCall.TagOneFails` | core/proto.c:423-432 | asking for an id in a tag call never aborts, and fails only when all 64 are in use or memory is short |
| `TagCall.NothingRefersTo` | core/proto.c:472-480 | when no tag has a label, no slot refers to one that had it |
| `TagLabels.LabelIsSite` | lifx/tagging.c:43-66 | the label of an id is that of the tag with a site for it |
| `TagLabels.LabelIsBit` | lifx/gateway.c:667-682 | an id has a label if and only if its bit is set |
| `TagLabels.CloseGatewayLabels` | lifx/gateway.c:56-87 | closing a gateway takes the labels of its ids, and no other label |
| `TagLabels.DeallocateLabels` | lifx/gateway.c:729-747 | deallocating an id takes its label, and no other on any gateway |
| `TagLabels.AllocateLabels` | lifx/gateway.c:684-727 | allocating an id labels it if it had none, and changes no other |
| `TagLabels.LabelAllLabels` | lifx/gateway.c:749-769 | a packet of tag labels takes the labels of its ids when it has none, or gives its own to those without, as far as memory goes; no other label changes |
| `TagLabels.CallTagLabels` | core/proto.c:393-487 | a tag call that succeeds labels, on each gateway of its devices without the label, the lowest free id, and nothing else; one that fails later than the list of devices takes the label from every id of every gateway, and no other label |
| `TagRegistry.Registry.constructor` | lifx/tagging.c:40-41 | no tag, no gateway |
| `TagRegistry.Registry.Find` | lifx/tagging.c:56-66 | the first tag with the label |
| `TagRegistry.Registry.FindSite` | lifx/tagging.c:43-54 | the first site for the gateway |
| `TagRegistry.Registry.AddTag` | lifx/tagging.c:68-82 | a tag without sites at the head of the list |
| `TagRegistry.Registry.Deallocate` | lifx/tagging.c:84-92 | the tag is gone from the list |
| `TagRegistry.Registry.Release` | lifx/tagging.c:141-164 | decref, as the function that DecrefLinked is about |
| `TagRegistry.Registry.Take` | lifx/tagging.c:94-139 | incref: the tag with its site, or nothing changes, a tag made for the call being released again |
| `TagRegistry.Registry.AllocateId` | lifx/gateway.c:684-727 | the id, as the function that AllocateTagIdValid and AllocateLabels are about |
| `TagRegistry.Registry.DeallocateId` | lifx/gateway.c:729-747 | deallocation, as the function that DeallocateTagIdValid and DeallocateLabels are about |
| `TagRegistry.Registry.GetTagId` | lifx/gateway.c:667-682 | the first slot that holds the tag, -1 when there is none |
| `TagRegistry.Registry.Close` | lifx/gateway.c:70-74 | the loop over the 64 slots, as the function that CloseGatewayValid and CloseGatewayLabels are about |
| `TagRegistry.Registry.HandleTagLabels` | lifx/gateway.c:749-769 | the loop over the ids of the packet, as the function that LabelAllValid and LabelAllLabels are about |
| `TagRegistry.Registry.TagDevices` | core/proto.c:393-487 | the tag call, as the function that CallTagAllOrNothing and CallTagLabels are about |
| `TagRegistry.Registry.TagGateways` | core/proto.c:423-432 | the allocation loop over the devices, any allocation of which may fail |
| `TagRegistry.Registry.RollbackTag` | core/proto.c:472-480 | the loop over the sites, as the function that RollbackForgets is about |
| `BulbTable.SetTagsKeeps` | lifx/bulb.c:277-285 | setting the tags of a bulb keeps every reference count equal to the number of bulbs that carry the tag if and only if no count that goes up is at 255 |
| `BulbTable.SetPowerPowered` | lifx/bulb.c:262-275 | bulbs_powered_on stays the number of bulbs that are on if and only if the power is 0 or 0xffff |
| `BulbTable.SetPowerKeeps` | lifx/wire_proto.c:952-960 | which the decoders guarantee for any power on the wire |
| `BulbTable.SetLightStateKeeps` | lifx/bulb.c:241-260 | the same for a whole light state |
| `BulbTable.OpenBulbKeeps` | lifx/bulb.c:152-184 | a new bulb keeps lists, counts and statistics right |
| `BulbTable.CloseBulbChecks` | lifx/bulb.c:192-208 | closing a bulb: every count that goes down is positive, and what is left is the number of bulbs that are left, as the check asserts |
| `BulbTable.CloseBulbKeeps` | lifx/gateway.c:89-104 | closing a bulb keeps lists, counts and statistics right |
| `BulbTable.CloseGatewayKeeps` | lifx/gateway.c:75-78 | closing a gateway closes exactly its bulbs: the table keeps every other bulb as it was, and the other gateways their lists and counts |
| `BulbTable.OnLightStatusKeeps` | lifx/gateway.c:579-603 | a light status, of a known or a new bulb, keeps everything right if and only if no tag gets to a 256th bulb |
| `BulbTable.OnPowerStateKeeps` | lifx/gateway.c:649-665 | a power state keeps everything right |
| `BulbTable.OnTagsKeeps` | lifx/gateway.c:771-802 | a tags packet keeps everything right if and only if no tag gets to a 256th bulb |
| `BulbTable.PacketsSet` | lifx/gateway.c:579-802 | each of these packets leaves in the table the bulb with what it says, and every other bulb as it was |
| `BulbTable.NoRoomNoChange` | lifx/gateway.c:329-349 | a packet of a bulb for which there is no memory changes nothing |
| `BulbTable.DeterminedByBulbs` | lifx/gateway.c:511-550 | counts, statistics and, but for their order, lists depend on the bulbs and the gateways only |
| `BulbRegistry.ChangedTags` | lifx/gateway.c:516-518 | the two masks are the tags gained and the tags lost |
| `BulbRegistry.Increase` | lifx/gateway.c:521-531 | each gained tag counts one more, up to 255 |
| `BulbRegistry.Decrease` | lifx/gateway.c:533-549 | each lost tag counts one less, the count being positive before |
| `BulbRegistry.Registry.UpdateTagRefcounts` | lifx/gateway.c:511-550 | both loops together |
| `BulbRegistry.Registry.SetBulbTags` | lifx/bulb.c:277-285 | as the function that SetTagsKeeps is about; the assertions in the loops hold |
| `BulbRegistry.Registry.SetBulbPower` | lifx/bulb.c:262-275 | as the function that SetPowerKeeps is about |
| `BulbRegistry.Registry.SetBulbLightState` | lifx/bulb.c:241-260 | as the function that SetLightStateKeeps is about |
| `BulbRegistry.Registry.GetOrOpen` | lifx/gateway.c:329-349 | the bulb, opened on the gateway when it was not known |
| `BulbRegistry.Registry.CountCarriers` | lifx/bulb.c:196-205 | the count that the check compares with |
| `BulbRegistry.Registry.BulbClose` | lifx/bulb.c:186-224 | the check holds, the bulb leaves the table and the statistics |
| `BulbRegistry.Registry.RemoveAndClose` | lifx/gateway.c:89-104 | as the function that CloseBulbKeeps is about |
| `BulbRegistry.Registry.HandleLightStatus` | lifx/gateway.c:579-603 | as the function that OnLightStatusKeeps is about |
| `BulbRegistry.Registry.HandlePowerState` | lifx/gateway.c:649-665 | as the function that OnPowerStateKeeps is about |
| `BulbRegistry.Registry.HandleTags` | lifx/gateway.c:771-802 | as the function that OnTagsKeeps is about |
| `BulbRegistry.Registry.Close` | lifx/gateway.c:75-78 | the loop that closes the bulbs of a gateway: the other bulbs and gateways stay as they were |
| `Daemon.StepKeeps` | lifx/gateway.c:56-802 | every event keeps the links between tags and gateways, the reference counts, the lists and the statistics |
| `Daemon.RunKeeps` | lifx/gateway.c:56-802 | so does every run |
| `Daemon.ReachableTags` | lifx/gateway.c:684-769 | the links hold in every reachable state |
| `Daemon.ReachableBulbs` | core/stats.c:25-37 | in every reachable state reference counts and statistics are right, and none is negative |
| `Daemon.ReachableView` | core/router.c:46-372 | every reachable state shows the router what its resolvers need to agree |
| `DaemonHistory.StepStory` | lifx/gateway.c:56-802 | every event makes of each bulb what a function of that bulb and the event says, whatever the other bulbs, counts and lists; gateways come and go with their own events |
| `DaemonHistory.RunStory` | lifx/gateway.c:56-802 | so after every run each bulb has the gateway, the power and the tags that its own events gave it |
| `DaemonHistory.SameStory` | lifx/gateway.c:56-802 | and two runs with the same outcome for every bulb and gateway agree on statistics, counts and, but for their order, lists |
| `DaemonHistory.StepLabels` | lifx/gateway.c:56-802 | every event changes the labels of tag ids as its handler is meant to, and packets about bulbs change none |
| `Router.OrderDoesNotMatter` | core/router.c:293-372 | what a list of targets means does not depend on their order or repetition |
| `Router.MeaningIsBulbs` | core/router.c:214-259 | a target means bulbs of the table only |
| `Router.ParseAddress` | core/router.c:198-212 | a whole hexadecimal number of 64 bits with an optional 0x, its low 48 bits; nothing else is an address |
| `Router.NumberRead` | core/router.c:198-212 | any number of hexadecimal digits, in either case and maybe after 0x, are read as the last 48 bits of the number they denote, and refused if and only if that needs more than 64 |
| `Router.AddressRead` | core/router.c:198-212 | so the twelve digits of any address are read as that address |
| `Router.AddressMeans` | core/router.c:198-259 | the twelve digits of the address of a bulb mean that bulb, whatever labels there are |
| `Router.FindDevice` | core/router.c:198-212 | the bulb with that address, for a target that starts with a hexadecimal digit |
| `Router.FindTag` | lifx/tagging.c:56-66 | the first tag with the label |
| `Router.Sender.MarkBulbs` | core/router.c:143-154 | exactly the bulbs of the list that carry the tag are marked |
| `Router.StampedMeans` | core/router.c:46-196 | bulbs that take a power packet of a call have its power and a time read in that call, the others are as before |
| `Router.Sender.Broadcast` | core/router.c:46-80 | one packet to all devices of every gateway, in order, and one reading of the clock for each; every bulb takes one, and is marked with it |
| `Router.Sender.SendToTag` | core/router.c:117-160 | one packet for the tag id on the gateway of every site, in order, and one reading of the clock for each; the bulbs that carry the tag take them, and are marked |
| `Router.Sender.SendToDevice` | core/router.c:82-115 | one packet, for the bulb and on its own gateway, and the bulb is marked |
| `Router.Sender.SendToLabel` | core/router.c:162-196 | one packet on its own gateway for each bulb with the label clipped at 32 characters, in order, and one reading of the clock for each; these are marked |
| `Router.Sender.Send` | core/router.c:214-259 | exactly the packets of the targets go out, one target after the other; the bulbs that take one are the union of the meanings of the targets, exactly these are marked by a power packet, each at the time of the last packet that reached it, and the result is false if and only if a target is empty or an unknown tag |
| `Router.AllPacketsReach` | core/router.c:214-259 | the bulbs that take the packets of some targets, a packet for a device being taken on its own gateway only, are those the targets mean |
| `Router.DevicesOnOwnGateway` | core/router.c:82-115 | every packet for one device goes out on the gateway of that device |
| `RouterDevices.Insert` | core/router.c:273-291 | the device is in the list, once |
| `RouterDevices.TargetsToDevices` | core/router.c:293-372 | the union of the meanings of the targets, each bulb once; it fails only when memory is short |
| `RouterDevices.ListAndSend` | core/router.c:214-372 | the list of the devices of some targets, then a power packet to them: the bulbs that take a packet and get its mark are the ones listed, once each |
| `RouterDevices.ListAndSendReordered` | core/router.c:214-372 | with the targets in another order or repeated, the list is a permutation and the same bulbs take a packet and get a mark |
| `PowerRetry.DoneAsMeant` | lifx/gateway.c:605-621 | every event, statuses coming through the bulb's own gateway, does what the retry protocol means |
| `PowerRetry.AsMeantExactly` | lifx/gateway.c:605-608 | an event does what is meant if and only if it is no status through another gateway that is acted on too early, in the first 400 ms when the 64-bit difference to the last packet of the bulb's gateway is more, nor missed after that when it is not |
| `PowerRetry.WhichGoWrong` | lifx/gateway.c:605-608 | by the clock: the statuses of the first 400 ms when that gateway was last heard of before the command, those after when it was heard of in the first 400 ms |
| `PowerRetry.TooEarly` | lifx/gateway.c:605-608 | a command counts as confirmed after one millisecond when the difference wraps around |
| `PowerRetry.RunAsMeant` | lifx/gateway.c:579-621 | over every run with statuses through the bulb's own gateway the dirty mark and the expected power are the pending command of the protocol |
| `PowerRetry.RunRecords` | lifx/gateway.c:135-142 | after every run the time of the last packet is that of the last one through the gateway of the bulb, of any kind and whatever came through other gateways; the power is the last that was reported, and the time of the light state that of the last status |
| `PowerRetry.HeardLast` | lifx/gateway.c:135-142 | that is the packet after which no other came through the gateway |
| `PowerRetry.RunAsMeantExactly` | lifx/gateway.c:579-665 | over every run, through whatever gateways: each event does what is meant if and only if no status goes wrong by the pending command and by when the gateway of the bulb was last heard of |
| `PowerRetry.RunIsSafe` | core/router.c:82-107 | over every run of the protocol a command is confirmed or sent again only on a status more than 400 ms after it was last sent, always for the power of the last command |
| `PowerRetry.RetrySafety` | lifx/gateway.c:579-621 | both for the code, from a new bulb on, over every run that meets that condition |
| `PowerRetry.NextEntry` | lifx/gateway.c:579-621 | there every event adds to what was sent exactly this: a command is sent; a status more than 400 ms after the last command was last sent confirms it, or has it sent again once; nothing else; and the bulb is dirty as long as the last command is not confirmed, since the time it was last sent |
| `PowerRetry.Light.HandleLightStatus` | lifx/gateway.c:579-621 | the handler, with the 64-bit subtraction, against the protocol |
| `PowerRetry.Light.HandlePowerState` | lifx/gateway.c:649-665 | a power state sets the power and leaves the pending command alone |
| `PowerRetry.Light.HandleOtherPacket` | lifx/gateway.c:135-142 | any other known packet is heard of, and leaves the pending command alone |
| `PowerRetry.Light.constructor` | lifx/bulb.c:152-184 | a new bulb is off and waits for nothing |
| `PowerRetry.Light.HandleCommand` | core/router.c:103-107 | a command marks the bulb |

## Left out

- Sockets, libevent, timers, the discovery watchdog, logging, statistics in the process title, daemon start-up: I/O around the modelled code; time and the results of reads and writes are parameters.
- core/client.c: frames requests like core/pipe.c over another buffer; the pipe is the one that is modelled.
- JsonRpcDispatch.Client.DispatchRequest: asks that a first token which is no object or array has no children, as every text of JSON has it; otherwise the walker asserts.
- JsonRpcDispatch.Client.DispatchOne: stops where the dictionary loop reads behind the tokens, and says so; what the code finds there is not modelled. What the nine methods write is one parameter, a function of the calls before, the method, the text of the parameters and the id; their schemas are not modelled.
- Decimal.FloatRangeToUint16: asks for a text that starts with digits of a range check, so that no conversion overflows.
- Positional parameters (core/jsonrpc.c:418-496).
- PacketRing.Gateway.Enqueue: asks for size 0 when there is no payload, as every caller does; the ring would count bytes that are not there.
- Payloads of packets, and the packets that the registry sends (SET_TAG_LABELS when a count reaches zero, SET_TAGS and SET_TAG_LABELS of a tag call, GET_INFO when the power changes): they do not change the registry.
- TagRegistry.Registry.HandleTagLabels: a label is at most 31 characters in the source, which asserts it; the model has labels of any length.
- Aliasing of gateways, tags and bulbs between records of the registry: references are keys of maps there; the red-black tree and the ring are the parts modelled in place. The table of bulbs is a map in the registry and a list in order in the router, which is what `RbTree.Table.Find` and `RbTree.Table.ForEach` give of the tree.
- Allocation failures in opening a gateway: a gateway is there or not.
- Hardware, firmware, label, IP and ambient light packets, get_light_state and its text, set_light_from_hsbk, set_waveform, set_label, untag: copies of fields or text, which would only add easy members.
- The SPLAY half of tree.h, RB_NFIND and RB_PREV, the macros of queue.h, the Python clients and examples.
