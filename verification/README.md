# libcore in Dafny

This project models the parts of libcore, a C server runtime, whose correctness rests on properties that no single
function shows: ownership in the event loop, B-tree insertion, the JSON parser and printer, the template renderer, the
BER codecs and the SNMP walk, decoding of HTTP responses, the life of HTTP server connections, the chained hash table
and the paint game. `dafny verify dfyconfig.toml` checks everything. The statements hold for every input,
every sequence of calls and every behaviour of the environment.

The environment (kernel, sockets, agents, allocators that may fail, clocks) appears as parameters: completions in any
order, any split of a byte stream, any reply of an agent, any answer of the backend. Mutexes are left away, since each
of these structures is used under one lock or by one thread.

## How it is laid out

Each part has a specification on values (functions and state machines) with its theorems, and a module in the form of
the source (classes, arrays, loops) whose methods are proved to do what the specification says.

| part | specification and theorems | in the form of the source |
|---|---|---|
| event loop | EventLoop, EventLoopInvariant, EventLoopRun, EventLoopBatch, EventLoopDispatch, EventLoopTrace, EventLoopCalls, EventLoopSafety, EventLoopWatch, EventLoopLimits, EventLoopTeardown | EventLoopReactor |
| B-tree | BTree | BTreeNodes, BTreeHeap |
| templates | Template, TemplateMeaning | TemplateEngine |
| JSON | JsonText, JsonSpelling, JsonTree, JsonLayout, JsonRoundTrip, JsonMeaning, JsonGrammar, JsonDerivation | JsonParser |
| BER, identifiers, walk | Asn1, Oid, SnmpWalk | Asn1Codec, SnmpWalk |
| HTTP responses | HttpChunks, HttpBody, ByteBuffer | HttpTransport, ByteBuffer |
| HTTP server | HttpOutput, HttpLife | HttpServer, HttpOutput, HttpLife |
| URLs | UrlQuery | UrlQuery |
| hash table | HashBuckets | Hashtable |
| paint game | GameRoom, GameRules | GameRoomObject |

What a specification computes is in turn tied to definitions that share nothing with it: the callbacks of the dispatcher
to the history of the batch (EventLoopCalls), JSON texts to a grammar with derivation trees (JsonSpelling, JsonGrammar,
JsonDerivation), pages to the origin of their characters (TemplateMeaning), sends to what the socket reports
(`HttpOutput.DrainIsShare`), the room with its seats to rules about players (GameRules), B-tree and hash table to sorted
lists and maps, encoders and decoders to one another.

Memory is explicit in the event loop: contexts and timers live in a map from addresses to records, releasing the last
reference removes the record, so a use after the last release would be a lookup of a missing address and a leak would
be a record that stays.

## Where the code does not keep a property

Each of these has its exact condition and an input for which the property fails.

- In the state that a wait hands to the dispatcher, removing the socket of a reported event frees its context under the
  dispatcher exactly when its mask was empty before the wait and the wait has taken the completions of all operations
  that were in flight on it (`EventLoopSafety.RemovalFreesIff`). Two runs from a new loop do so: a socket is added and
  modified to mask 0, its poll completes readable and the update is acknowledged in the same wait, and its handler
  removes it (`EventLoopLimits.RemovalCanFree`); or the handler of an earlier event of the batch removes such a socket
  (`EventLoopLimits.EarlierHandlerCanFree`). After a fault the dispatcher does not look back, and there removal is
  harmless (`EventLoopLimits.FaultHandlerMayRemove`). An event is pinned, out of reach of all handlers, exactly when its
  context had a mask before the wait (`EventLoopBatch.WaitReadyIff`).
- With epoll, an add loses the context that was in the map exactly when the kernel takes on a descriptor that the map
  still has, because it was closed without being removed (`EventLoopSafety.EpollAddLeaksIff`): add, close, and add a new
  socket under the reused number (`EventLoopLimits.EpollAddCanLeak`). Adding a descriptor that is still open twice is
  refused by the kernel and loses nothing.
- A watched descriptor is lost, neither polled nor queued, exactly when its context has to be queued again, the rearm
  array is full and it cannot grow (`EventLoopWatch.CompleteAwake`, `EventLoopWatch.ApplyAwake`): of 65 sockets 64 fill
  the array, the ring takes no new polls, and the last one becomes readable while no memory is to be had; that wait
  returns -1 (`EventLoopLimits.WakeUpCanBeLost`).
- A backslash before a raw byte outside ASCII is accepted in a JSON literal, so the decoded string need not be UTF-8. It
  is exactly when the text with those backslashes taken away is (`JsonText.DecodedIffStripped`,
  `JsonText.LiteralIsUtf8Iff`); `JsonText.RawEscapeIsNotUtf8` is a literal for which it is not.
- The JSON printer writes most control characters raw, and the parser then refuses its output; with trees that are too
  deep or hold a NUL this is the whole difference between what can be printed and what can be read back
  (`JsonRoundTrip.RoundTrip`): the string that holds the byte 1 (`JsonRoundTrip.ControlCharacterIsLost`).
- The decoder of unsigned values also takes encodings with the sign bit set, and that of object identifiers takes padded
  arcs; apart from these, accepted encodings are the encoder's (`Asn1.UnsignedCanonical`, `Oid.ContentCanonical`): the
  bytes 42 01 80 (`Asn1.SignBitIsTaken`) and the contents 2B 80 01 (`Oid.PaddedArcIsTaken`).
- Skipping in the byte buffer adds in 64 bits: it drops bytes from the front exactly when the sum of cursor and length
  does not wrap, and otherwise makes bytes readable again that were read before (`ByteBuffer.SkipExact`): skip SIZE_MAX
  after reading one byte (`ByteBuffer.SkipGoesBack`).
- The byte buffer can use all of its 16 MiB only from capacities that are 16 MiB halved some number of times
  (`ByteBuffer.ReachesCapIff`): a buffer of 6 MiB stops at 12 MiB (`ByteBuffer.SixMegabytesFallShort`). The response
  parser only chooses capacities for which this does not matter.
- A closing connection of the HTTP server is not always flushed first: a step loses bytes exactly when it is a send or a
  change of interest that fails with bytes left, a shutdown or a deadline that finds bytes waiting, or an append to a
  connection that is being removed (`HttpLife.StepIff`). A response that the socket could not take at once is cut when
  its connection is not kept alive (`HttpLife.ResponseCanBeCut`).
- The paint cooldown is kept in 64 bits and has no effect exactly when it wraps (`GameRoom.CooldownIff`): two paints
  at time 2^64 - 2 (`GameRoom.CooldownCanWrap`).

## Model

| member | source | states |
|---|---|---|
| EventLoopInvariant.ApplyKeeps | src/event_loop.c:590-728 | every call a handler or a client can make (add, modify, remove, close, timers), except an epoll add under a descriptor that was closed and not removed, keeps the ownership equation: references = map entry + operations in flight + place in the rearm queue + place in the deferred queue, armed iff one poll is outstanding, queued iff once in the queue and then not armed |
| EventLoopInvariant.AddContextKeeps | src/event_loop.c:590-636 | adding a socket or a timer, with or without room in the ring, keeps the equation in both back ends |
| EventLoopInvariant.ModifySocketKeeps | src/event_loop.c:638-684 | so does modifying interest, whether the update is submitted, queued or refused |
| EventLoopInvariant.RemoveSocketKeepsInv | src/event_loop.c:686-728 | so does removing a socket, which forgets its owner |
| EventLoopInvariant.RemoveTimerContextKeeps | src/event_loop.c:1024-1066 | so does removing the context of a timer |
| EventLoopInvariant.WatchTimerKeeps | src/event_loop.c:41-52 | adding a timer keeps references of timers balanced: users, attachment and holds of a batch |
| EventLoopInvariant.UnwatchTimerKeeps | src/event_loop.c:54-72 | so does removing one, with the array closed up by its last entry |
| EventLoopRun.DrainOneKeeps | src/event_loop.c:730-790 | each step of the rearm drain (drop, arm, queue again) keeps the equation |
| EventLoopRun.CompleteKeeps | src/event_loop.c:800-883 | a completion of any outstanding operation, in any order, keeps the equation |
| EventLoopRun.Completions | src/event_loop.c:800-883 | any list of completions, in any order, leaves the equation intact and never reports more than 64 events |
| EventLoopRun.CompletionsConsume | src/event_loop.c:800-883 | the loop takes a prefix of the completions, removes exactly their operations from the kernel and reports for each what the state before the loop lets expect; it stops early only at a poll for which the batch has no room |
| EventLoopRun.Wait | src/event_loop.c:730-883 | a whole wait keeps it, for the ring and for epoll, whatever the kernel answers |
| EventLoopRun.WaitReports | src/event_loop.c:850-862 | the batch told from the state before the wait: with the ring, for each completion taken, in order, nothing unless it is a poll of a watched context, else the timer, or the socket readable and writable as the kernel says and at fault after an error or a hang-up; with epoll one such event for each ready descriptor |
| EventLoopBatch.CompletionPins | src/event_loop.c:850-862 | a reported context is held by the rearm queue through the dispatch, unless its mask is empty: both directions |
| EventLoopBatch.WaitIsAlive | src/event_loop.c:730-883 | every event a wait reports refers to a context or timer that is alive, whatever the masks |
| EventLoopBatch.WaitReadyIff | src/event_loop.c:730-883 | an event is pinned through the dispatch iff its context had a mask before the wait |
| EventLoopBatch.WaitIsReady | src/event_loop.c:730-883 | so when all contexts have masks, whole batches are pinned |
| EventLoopBatch.ApplyKeepsPin | src/event_loop.c:686-728 | no call made by a handler unpins a context of the batch |
| EventLoopDispatch.DispatchKeeps | src/event_loop.c:154-217 | dispatching a whole batch, with any handlers that free no context the dispatcher will look at again, keeps the equation and every pin, and the retains on timers balance |
| EventLoopDispatch.PinnedIsSafe | src/event_loop.c:154-217 | with a pinned batch no handlers, whatever they call, can free a context that the dispatcher will look at again |
| EventLoopTrace.DispatchAgrees | src/event_loop.c:154-217 | over the whole batch, no callback is recorded for something that the trace says was removed before (which callbacks are made is EventLoopCalls.DispatchIsDue) |
| EventLoopCalls.DispatchIsDue | src/event_loop.c:154-217 | over any safe batch exactly the callbacks are made, in order, that are due by its history: on_timer for a timer whose last addition or removal left it running, on_readable for a fault or readiness of a socket that no handler has removed or closed since the batch began, on_writable for readiness without a fault unless the first handler took the socket away; and nothing else happens |
| EventLoopCalls.ApplyOwner | src/event_loop.c:686-728 | a call changes the owner of a socket's context only by making it forget the socket, and that is recorded |
| EventLoopSafety.BatchSafety | src/event_loop.c:154-217 | batch safety for both back ends and all handlers, from any state in which the batch is pinned: no context of the batch is freed, no callback for a socket or timer removed earlier in it, every callback that is due by the history of the batch is made, retains on timers balance |
| EventLoopSafety.EveryRunKeeps | src/event_loop.c:154-217 | the equation holds in every state reachable by calls with any mask, closing of descriptors, polls and turns of the loop in which no handler frees a context that the dispatcher will look at again |
| EventLoopSafety.EveryRunSteady | src/event_loop.c:154-217 | whatever single calls and waits keep, every run keeps |
| EventLoopSafety.MaskedRun | src/event_loop.c:154-217 | over runs without mask 0 every batch is pinned, so there all turns are safe |
| EventLoopSafety.InitialIsAtRest | src/event_loop.c:123-144 | it holds in a new loop |
| EventLoopSafety.PendingTotalIsSum | src/event_loop.c:590-883 | uring_pending_total is the sum of pending_ops over all contexts |
| EventLoopSafety.RemovalFreesIff | src/event_loop.c:686-728 | exactly when removing the socket of a reported event frees its context in the state a wait hands to the dispatcher, told from the state before the wait and the completions taken |
| EventLoopSafety.EpollAddLeaksIff | src/event_loop.c:1090-1112 | exactly when an epoll add loses a context: the kernel takes the descriptor on and the map has it; the lost context stays allocated, in neither map nor deferred queue |
| EventLoopSafety.Flush | src/event_loop.c:87-96 | flushing the deferred queue empties it and keeps the equation |
| EventLoopWatch.ApplyWatches | src/event_loop.c:590-728 | what is watched is a map from descriptors, and each call changes the one entry it names: an add inserts it, a modify replaces its mask, a removal deletes it; refused calls keep it, except that a mask stays when the rearm array is full and cannot grow and epoll forgets the socket of an entry it could not remove |
| EventLoopWatch.WaitWatches | src/event_loop.c:730-883 | a wait, with its drain and all its completions, changes nothing that is watched |
| EventLoopWatch.EveryRunSpares | src/event_loop.c:154-217 | over every run, the entry of a descriptor stays what it was unless a call names that descriptor |
| EventLoopWatch.DrainWatches | src/event_loop.c:736-790 | draining the rearm queue changes nothing that is watched |
| EventLoopWatch.CompleteWatches | src/event_loop.c:800-862 | nor does any completion |
| EventLoopWatch.ApplyAwake | src/event_loop.c:590-728 | no call leaves a watched context neither polled nor queued, except a modify that has to queue it when the rearm array is full and cannot grow: both directions |
| EventLoopWatch.CompleteAwake | src/event_loop.c:800-862 | the same for a completion: both directions |
| EventLoopWatch.EveryRunAwake | src/event_loop.c:154-217 | no lost wake-ups: over every run in which the array can grow, each watched context with a mask is polled or queued, whatever clients, handlers and the kernel do |
| EventLoopWatch.SleepsPolling | src/event_loop.c:730-800 | when the ring has room, each watched descriptor has exactly one poll outstanding by the time the loop sleeps |
| EventLoopLimits.RemovalCanFree | src/event_loop.c:154-217 | a run from a new loop after which the legal handler of a readable event frees the context whose socket the dispatcher reads next |
| EventLoopLimits.EarlierHandlerCanFree | src/event_loop.c:154-217 | a run after which the handler of one event frees the context of a later one |
| EventLoopLimits.FaultHandlerMayRemove | src/event_loop.c:201-206 | the same removal by the handler of a fault is a legal turn |
| EventLoopLimits.WakeUpCanBeLost | src/event_loop.c:550-563 | a run that fills the 64 slots, after which a wait fails and leaves a watched descriptor neither polled nor queued |
| EventLoopLimits.EpollAddCanLeak | src/event_loop.c:1090-1112 | a run after which adding a reused descriptor leaves the context of the closed socket without an owner |
| EventLoopTeardown.TeardownFrees | src/event_loop.c:885-975 | after teardown exactly the contexts with an operation that never completed remain; all are freed iff the drain reaches zero |
| EventLoopTeardown.Destroy | src/event_loop.c:98-121 | the five phases of teardown balance references at every step |
| EventLoopReactor.Reactor.constructor | src/event_loop.c:565-588 | a new reactor shows the initial state |
| EventLoopReactor.Reactor.AddToRearmQueue | src/event_loop.c:550-563 | the queue array of 64 slots doubles when it is full and gets the entry, or reports that memory ran out |
| EventLoopReactor.Reactor.Add | src/event_loop.c:590-636 | the fields after an add are those of the state machine |
| EventLoopReactor.Reactor.Modify | src/event_loop.c:638-684 | the same for modify |
| EventLoopReactor.Reactor.Remove | src/event_loop.c:686-728 | the same for remove |
| EventLoopReactor.Reactor.RemoveTimerCtx | src/event_loop.c:1024-1066 | the same for the context of a timer |
| EventLoopReactor.Reactor.DrainRearmQueue | src/event_loop.c:736-790 | the drain that requeues into the array it is reading never overwrites an unread entry: its result is that of the queue |
| EventLoopReactor.Reactor.HandleCqe | src/event_loop.c:800-862 | one completion: counters, flags, requeue and event as in the state machine, also when the rearm array is full and cannot grow |
| EventLoopReactor.Reactor.HandleCompletions | src/event_loop.c:800-883 | the completion loop gives the state, the events and the out-of-memory flag of the state machine |
| EventLoopReactor.Reactor.WaitRing | src/event_loop.c:730-883 | flush, drain and completion loop together are a wait of the state machine, failures included |
| EventLoopReactor.Reactor.FlushDeferQueue | src/event_loop.c:87-96 | the deferred queue is released from the front and emptied |
| EventLoopReactor.Reactor.AddTimer | src/event_loop.c:41-52 | as in the state machine |
| EventLoopReactor.Reactor.RemoveTimer | src/event_loop.c:54-72 | as in the state machine |
| BTree.InsertNonFull | src/btree.c:80-108 | for every degree of at least 2: shape (occupancy, equal depth) is kept and the in-order list gets the pair inserted where it stays sorted |
| BTree.SplitInOrder | src/btree.c:48-78 | splitting a full child leaves the in-order list as it was |
| BTree.SplitShape | src/btree.c:48-78 | and leaves a tree of the same height with two halves of t-1 keys |
| BTree.AddKeeps | src/btree.c:110-126 | an insertion keeps order, occupancy of non-root nodes (t-1 to 2t-1), equal depth and the size |
| BTree.InsertKeeps | src/btree.c:110-126 | insertion with a new root above a full one keeps the shape and puts the pair in where the in-order list stays sorted |
| BTree.EverySequence | src/btree.c:110-126 | so does any sequence of insertions, and the entries are those inserted |
| BTree.FreedIsStored | src/btree.c:23-43 | freeing a tree releases each stored key and value exactly as often as it is stored |
| BTree.ClearReleasesAll | src/btree.c:136-149 | after any insertions, clear releases once whatever the insertions retained |
| BTree.HeightBound | src/btree.c:80-126 | a tree of height h of at least 1 holds at least 2*t^h - 1 entries |
| BTreeNodes.PutAt | src/btree.c:62-77 | shifting up from the end and writing makes room in the array without losing an element |
| BTreeNodes.BTreeNode.FindSlot | src/btree.c:83-95 | the scan from the last key stops at the slot of the key |
| BTreeNodes.BTreeNode.InsertInLeaf | src/btree.c:80-92 | a leaf gets the pair at its slot |
| BTreeNodes.BTreeNode.SplitChild | src/btree.c:48-78 | the arrays of parent, child and new sibling after a split hold what splitting the tree value gives |
| BTreeHeap.BTreeObject.constructor | src/btree.c:185-202 | a new tree is empty, of degree at least 2 |
| BTreeHeap.BTreeObject.SplitFull | src/btree.c:48-78 | in memory, splitting a full child gives the tree that splitting the value gives; no array is shared, no node hangs twice, and nodes of the same height or above are untouched |
| BTreeHeap.BTreeObject.StepDown | src/btree.c:96-103 | the child to descend to, after a split if it was full, is the one of the specification |
| BTreeHeap.BTreeObject.InsertNonFull | src/btree.c:80-108 | the recursion over linked nodes changes the tree below the node as BTree.InsertNonFull says, and nothing beside or above it |
| BTreeHeap.BTreeObject.Insert | src/btree.c:110-126 | impl_insert on linked nodes refines the insertion on tree values, with a new root above a full one, and counts the size |
| BTreeHeap.BTreeObject.FreeNode | src/btree.c:23-43 | the recursion over linked nodes releases what BTree.Freed counts |
| BTreeHeap.BTreeObject.Clear | src/btree.c:136-148 | clear releases each stored key and value exactly as often as it is stored and leaves an empty tree |
| Template.FindsMatchingClose | src/board_template_engine.c:146-190 | the depth-counting search finds the close tag that belongs to the section, whatever sections of the same or other names its body holds |
| Template.SearchSkipsTree | src/board_template_engine.c:146-190 | the search passes over any printed template without changing its depth |
| Template.NoTagInTag | src/board_template_engine.c:151-169 | a tag string does not occur inside a different tag |
| Template.RenderIsInterp | src/board_template_engine.c:192-303 | rendering the text of a template gives what interpreting its tree gives, for all keys up to 127 characters and brace-free text (what that is, TemplateMeaning states of the page alone) |
| TemplateMeaning.StringIsShown | src/board_template_engine.c:104-116 | a variable bound to a string gives a text without special characters other than ampersands, from which a reader gets that string back |
| TemplateMeaning.OtherIsShown | src/board_template_engine.c:118-143 | numbers give their digits, truth values the words true and false, everything else and a missing key nothing |
| TemplateMeaning.PagesInOrder | src/board_template_engine.c:192-303 | the page of one template after another is their pages after one another; plain text gives itself |
| TemplateMeaning.SectionPages | src/board_template_engine.c:263-282 | a section gives the pages of its body for the objects of its array, all of them and in order, and nothing without an array |
| TemplateMeaning.PageOrigins | src/board_template_engine.c:192-303 | for every text and every context: a page is made of stretches of the text, digits of numbers of the context, truth values, and strings of the context that are inert and can be read back |
| TemplateMeaning.TreePageOrigins | src/board_template_engine.c:192-303 | for the text of a tree, what is copied are the texts of the tree |
| Template.RenderMeansInterp | src/board_template_engine.c:192-303 | the same on any range of a text that holds a printed template |
| Template.FindIsFirst | src/board_template_engine.c:170-171 | the string search gives the first occurrence, and nothing only when there is none |
| Template.SectionEnd | src/board_template_engine.c:146-190 | the search ends on every text, with a position inside the range |
| Template.RenderText | src/board_template_engine.c:196-204 | text without braces is copied whatever follows it |
| Template.EscapeRoundTrip | src/board_template_engine.c:74-92 | reading the entities gives back the escaped value, embedded NULs included |
| Template.EscapedIsInert | src/board_template_engine.c:74-92 | of the special characters only the ampersands of entities are left |
| TemplateEngine.TplBuilder.Append | src/board_template_engine.c:39-71 | the buffer grows by doubling and holds its old contents followed by the new ones, with a NUL after them |
| TemplateEngine.TplBuilder.AppendEscaped | src/board_template_engine.c:74-92 | appends the escaped form |
| TemplateEngine.RenderValue | src/board_template_engine.c:104-143 | appends what a value renders to: for a string an inert text that can be read back, for a number its digits, for a truth value its word, else nothing |
| TemplateEngine.FindSectionEnd | src/board_template_engine.c:146-190 | the loop gives the section end |
| TemplateEngine.TrimKeyRange | src/board_template_engine.c:231-242 | both loops together trim the key |
| TemplateEngine.ReadTag | src/board_template_engine.c:208-253 | what a tag is: unclosed, closing, rejected, variable or section |
| TemplateEngine.RenderRangeInto | src/board_template_engine.c:192-303 | the loop with its recursion appends what the range renders to, or fails |
| TemplateEngine.RenderItemsInto | src/board_template_engine.c:263-282 | one pass over the section for each item that is an object |
| TemplateEngine.RenderTemplate | src/board_template_engine.c:306-318 | the whole text renders to what the specification says, or to nothing when it is rejected |
| JsonText.RawLenIsCharLen | src/json.c:561-656 | the checks on bytes outside ASCII accept exactly the characters of section 4 of RFC 3629 |
| JsonText.EncodeValue | src/json.c:508-524 | a code point is written as the one UTF-8 character that stands for it |
| JsonSpelling.PointReads | src/json.c:448-527 | a code point written as its UTF-16 code units in digits of either case, one unit or two surrogates, is read as its one character wherever it stands |
| JsonSpelling.PointDecodes | src/json.c:448-527 | so the text of every scalar value decodes to the one character with that code point |
| JsonSpelling.ReadIsPoint | src/json.c:448-527 | whatever unicode escape is accepted is a code point so written; surrogates that stand alone or in the wrong order are refused |
| JsonSpelling.SpelledIsRead | src/json.c:438-673 | a body made of characters that stand for themselves, backslashed bytes and written code points decodes to what these stand for, in order |
| JsonSpelling.ReadIsSpelled | src/json.c:438-673 | and no other body is accepted |
| JsonSpelling.LiteralIsRead | src/json.c:413-673 | such a body between quotes, without bare quotes and control characters, is read wherever it stands in a text |
| JsonSpelling.LiteralIsSpelled | src/json.c:413-673 | and every accepted literal is one |
| JsonText.DecodedIffStripped | src/json.c:438-673 | the decoded bytes are well-formed UTF-8 iff the body is, once the backslashes before bytes outside ASCII are taken away |
| JsonText.LiteralIsUtf8Iff | src/json.c:413-673 | the same of every accepted literal, which is never longer than its body |
| JsonText.DecodedIsWellFormed | src/json.c:438-673 | so a body without escapes of bytes outside ASCII decodes to well-formed UTF-8 no longer than itself |
| JsonText.RawEscapeIsNotUtf8 | src/json.c:551-556 | a literal for which that fails |
| JsonText.DecodeEscaped | src/json.c:441-673 | decoding undoes either escaper exactly on well-formed UTF-8 and fails otherwise |
| JsonText.ScanEscaped | src/json.c:413-436 | the scan finds the closing quote of an escaped string exactly when no control character was written raw |
| JsonText.ParseQuoted | src/json.c:413-673 | what reading gives for a quoted string at any place of a text |
| JsonText.JsonEscapeRoundTrip | src/http_request_builder.c:70-98 | parse_string_raw undoes json_escape on every NUL-free string of well-formed UTF-8, and on no other |
| JsonTree.ShortKeys | src/json.c:790-790 | for keys under 128 bytes the slot comparison of the hash map is equality |
| JsonTree.ParseValue | src/json.c:878-934 | every call ends and moves forward within the text when it succeeds |
| JsonLayout.ValueParsed | src/json.c:743-934 | any parser that obeys the rules of parse_value, parse_array and parse_object reads a laid-out tree back, or fails at its first bad leaf or node below depth 64 |
| JsonLayout.FieldsParsed | src/json.c:743-822 | the object loop puts the pairs in order, each under its own slot |
| JsonLayout.ItemsParsed | src/json.c:824-876 | the array loop reads the items in order, commas and closing bracket included |
| JsonRoundTrip.ParserObeys | src/json.c:743-934 | the parser obeys those rules |
| JsonRoundTrip.PrintIsLaid | src/json.c:939-990 | the printer lays the tree out in that way |
| JsonRoundTrip.NumberParsed | src/json.c:675-741 | a printed integer is read back |
| JsonRoundTrip.RoundTrip | src/json.c:939-990 | parsing the printed form gives the tree (strings up to their first NUL) and takes all of the text, exactly when no node is below depth 64 and every string is clean; otherwise it is rejected |
| JsonRoundTrip.ControlCharacterIsLost | src/json.c:149-191 | a string that is printed and then refused |
| JsonMeaning.ParsedNeverTooDeep | src/json.c:878-884 | a parsed value never makes the printer write its depth marker, and holds distinct keys |
| JsonMeaning.ParsedValue | src/json.c:743-934 | every accepted value stays within depth 64, whatever the text |
| JsonMeaning.PutKeeps | src/json.c:790-790 | putting a pair keeps the slots of an object distinct |
| JsonMeaning.EqualsIsSameMeaning | src/json.c:321-389 | impl_json_equals holds exactly for trees of the same meaning: objects as maps, order without effect |
| JsonMeaning.ReorderedRoundTrip | src/json.c:939-990 | printing the fields in any order of the buckets and parsing gives an equal value |
| JsonGrammar.DocIsParsed | src/json.c:743-934 | any parser that obeys the rules reads a derivation of the JSON grammar, blanks anywhere between tokens, as its value, and refuses it exactly when a value in it lies below depth 64 |
| JsonGrammar.BlankCharacters | src/json.c:394-398 | blanks are the six characters of isspace in the C locale |
| JsonGrammar.ParserIsLawful | src/json.c:743-934 | the parser obeys those rules |
| JsonDerivation.DocumentIsParsed | src/json.c:878-934 | every text that has a derivation, with blanks around it, is parsed to its value exactly when nothing in it lies below depth 64 |
| JsonDerivation.ParsedIsDocument | src/json.c:878-934 | every accepted C string has a derivation, no deeper than 64, with the value that was returned |
| JsonDerivation.ReadIsDoc | src/json.c:743-934 | the same for a value inside a text |
| JsonDerivation.PutMeans | src/json.c:790-790 | a field put into an object updates the map that the object means, whether its key was there or not |
| JsonDerivation.DocumentMeans | src/json.c:743-934 | a document means what its derivation means; of members with the same key the last one counts |
| JsonParser.JsonEscape | src/http_request_builder.c:70-98 | the buffer of six bytes for each byte is never overrun and gets the escaped string |
| JsonParser.StringBuilder.Append | src/json.c:115-147 | the buffer grows and gets the bytes appended, a NUL after them |
| JsonParser.StringBuilder.AppendEscaped | src/json.c:149-191 | appends the quoted form of the string up to its first NUL |
| JsonParser.Stringify | src/json.c:939-990 | the recursion appends what the printer gives |
| JsonParser.ParseContext.FindQuote | src/json.c:413-436 | the first loop of parse_string_raw |
| JsonParser.ParseContext.DecodeBody | src/json.c:438-673 | the second loop: its output buffer is never overrun and gets the decoded string |
| JsonParser.ReadStep | src/json.c:441-656 | the cases of the loop body (short escapes, unicode escapes with surrogates, raw characters by their lead byte) give the step of the specification, which JsonSpelling pins down in both directions |
| JsonParser.ParseContext.ReadNumber | src/json.c:675-741 | integer tokens |
| JsonParser.ParseContext.ReadArray | src/json.c:824-876 | the array loop moves the cursor and gives the list; the depth counter is restored on every path |
| JsonParser.ParseContext.ReadObject | src/json.c:743-822 | the same for objects |
| JsonParser.ParseContext.ReadValue | src/json.c:878-934 | depth check, blanks, dispatch |
| Asn1.LengthRoundTrip | src/asn1.c:12-34 | every size_t length is read back, whatever follows it |
| Asn1.LengthCanonical | src/asn1.c:12-34 | every accepted length is exactly what the encoder writes (sections 8.1.3 and 10.1 of X.690) |
| Asn1.IntegerRoundTrip | src/asn1.c:36-61 | every int32 is read back |
| Asn1.IntegerCanonical | src/asn1.c:36-61 | every accepted INTEGER is an int32 and exactly what the encoder writes (section 8.3 of X.690) |
| Asn1.UnsignedRoundTrip | src/asn1.c:63-83 | every uint32 is read back under each of the three tags |
| Asn1.UnsignedCanonical | src/asn1.c:63-83 | an accepted unsigned value is below 2^32, and its encoding is the encoder's iff its first content byte has no sign bit |
| Asn1.SignBitIsTaken | src/asn1.c:63-83 | an accepted encoding that the encoder never writes |
| Asn1.StringRoundTrip | src/asn1.c:120-134 | every string that fits its buffer is read back |
| Asn1.StringCanonical | src/asn1.c:120-134 | an accepted string that was not cut is what the encoder writes |
| Oid.OidRoundTrip | src/asn1.c:306-393 | whenever encoding a dotted text succeeds, decoding gives exactly its components, first arc 2 included |
| Oid.ArcRead | src/asn1.c:175-193 | no overflow guard rejects an arc below 2^32 |
| Oid.ContentCanonical | src/asn1.c:136-199 | accepted contents name acceptable arcs, and are the encoder's iff no arc is padded (section 8.19 of X.690) |
| Oid.PaddedArcIsTaken | src/asn1.c:175-193 | two accepted contents for the same arcs |
| Oid.DottedRoundTrip | src/asn1.c:309-336 | the text of up to 128 arcs names those arcs |
| Oid.NumeralsAreArcs | src/asn1.c:309-336 | a text of numerals with dots between them, leading zeros allowed, is taken exactly when there are at most 128 and each fits 32 bits, and then as their values |
| Oid.ArcsAreNumerals | src/asn1.c:309-336 | no other text but the empty one is taken: no trailing dot, no other characters |
| Oid.ShortTextEncodes | src/asn1.c:338-388 | every acceptable identifier whose text has fewer than 256 characters can be encoded |
| Oid.ItemsRoundTrip | src/asn1.c:12-393 | encoded items delimit themselves: any concatenation decodes to the same items in order |
| Asn1Codec.WriteLength | src/asn1.c:205-228 | writes the length at the cursor iff it fits, and nothing past the end |
| Asn1Codec.WriteInteger | src/asn1.c:230-254 | the same for INTEGER |
| Asn1Codec.WriteUnsigned | src/asn1.c:256-280 | the same for the unsigned types |
| Asn1Codec.ReadLength | src/asn1.c:12-34 | the accumulating loop |
| Asn1Codec.ReadInteger | src/asn1.c:36-61 | the loop that starts from the sign gives the two's-complement value |
| Asn1Codec.Base128Of | src/asn1.c:348-362 | the digit loops write a number in base 128 |
| Asn1Codec.OidContent | src/asn1.c:340-384 | the 512-byte buffer is never overrun; None exactly when fewer than five bytes are left before an arc |
| Asn1Codec.WriteOid | src/asn1.c:306-393 | writes the encoded identifier iff the text is acceptable and it fits |
| Asn1Codec.ReadDotted | src/asn1.c:309-336 | the loop over the text |
| Asn1Codec.ReadArcs | src/asn1.c:175-197 | the loop over the arcs |
| Asn1Codec.ReadOid | src/asn1.c:136-199 | the whole decoder |
| SnmpWalk.PrefixMatchIsPrefix | src/coresnmp.c:148-156 | the text test holds iff the components of the root are a prefix |
| SnmpWalk.CompareNumeric | src/coresnmp.c:158-169 | comparing the texts of two identifiers gives their order by components |
| SnmpWalk.LexAntisymmetric | src/coresnmp.c:158-169 | that order is total: opposite when swapped, zero only for equal identifiers |
| SnmpWalk.LexTransitive | src/coresnmp.c:158-169 | and transitive, strictly so when one of the steps is strict |
| SnmpWalk.RankGrows | src/coresnmp.c:171-229 | a later identifier has a higher rank among finitely many |
| SnmpWalk.ScanAdvances | src/coresnmp.c:190-224 | a reply after which the walk goes on has moved it to a later identifier, so there are finitely many requests |
| SnmpWalk.WalkIsSafe | src/coresnmp.c:171-229 | whatever the agent replies in whatever round, all that is collected lies under the root and strictly increases |
| SnmpWalk.WalkIsComplete | src/coresnmp.c:171-229 | against an agent that answers from an ordered table the walk collects exactly the subtree, in order |
| SnmpWalk.SnmpWalk | src/coresnmp.c:171-229 | the nested loops over texts give that walk, and an error for a root that is too long |
| HttpChunks.StrictLineReads | src/http_transport.c:125-190 | every line of at most 4093 bytes that ends in CR LF is read back whole |
| HttpChunks.StrictLineMeans | src/http_transport.c:125-190 | an accepted line is such a line |
| HttpChunks.OverflowExact | src/http_response_parser.c:71-75 | the overflow guard of chunk sizes fires just when the value does not fit a size_t |
| HttpChunks.ChunkCharacters | src/http_response_parser.c:62-66 | digits of either case and blanks are the characters of section 7.1.1 of RFC 9112 |
| HttpChunks.ChunkSizeReads | src/http_response_parser.c:52-87 | hex digits with an extension are read as their value |
| HttpChunks.ChunkSizeMeans | src/http_response_parser.c:52-87 | an accepted size line has that form |
| HttpBody.ChunkedComplete | src/http_response_parser.c:254-318 | any chunk list within the limits (section 7.1 of RFC 9112) decodes to its concatenation and consumes exactly its encoding |
| HttpBody.ChunkedSound | src/http_response_parser.c:254-318 | anything accepted is the encoding of such a list, whose data is the returned body |
| HttpBody.FramedBody | src/http_response_parser.c:319-338 | a body within 16 MiB is what its length, or the end of the connection, cuts out of the stream, whatever follows; a longer one or a short stream is rejected |
| HttpBody.TrailersRead | src/http_response_parser.c:267-296 | trailers within 100 lines and 64 KiB are skipped exactly |
| HttpBody.ExceedsExact | src/http_response_parser.c:33-37 | the guard of Content-Length fires just when the value exceeds the limit |
| HttpBody.ContentLengthExact | src/http_response_parser.c:20-50 | digits between blanks are accepted iff their value is within the limit, and then as that value |
| HttpTransport.Transport.Getc | src/http_transport.c:103-120 | gives the next byte of the stream however recv splits it, or -1 at its end |
| HttpTransport.Transport.ReadLine | src/http_transport.c:125-190 | the line loop over getc, within its buffer |
| HttpTransport.ReadSize | src/http_response_parser.c:52-87 | the digit loop of parse_chunk_size |
| HttpTransport.SkipTrailers | src/http_response_parser.c:264-296 | the trailer loop |
| HttpTransport.ReadBytes | src/http_response_parser.c:301-325 | exactly n bytes go into the body buffer, which never turns one down |
| HttpTransport.ReadChunkedBody | src/http_response_parser.c:253-318 | the chunk loop gives the decoded body and leaves the rest of the stream |
| HttpTransport.ReadToEnd | src/http_response_parser.c:331-338 | a body up to the end of the connection is accepted iff it has at most 16 MiB |
| HttpTransport.ReadBody | src/http_response_parser.c:242-346 | the body depends only on the bytes that arrive, and no body within 16 MiB is rejected by the buffer for any initial capacity the parser chooses |
| ByteBuffer.DoublingExact | src/bytebuffer.c:23-27 | the doubling guard refuses exactly the needs that no doubling can meet |
| ByteBuffer.ReachesCapIff | src/bytebuffer.c:23-27 | all 16 MiB can be reached iff the capacity is 16 MiB halved some number of times |
| ByteBuffer.SixMegabytesFallShort | src/bytebuffer.c:23-27 | a capacity that cannot reach them |
| ByteBuffer.SkipExact | src/bytebuffer.c:100-103 | the cursor moves by the length, up to the end of the data, iff the 64-bit sum does not wrap |
| ByteBuffer.BigEndianRoundTrip | src/bytebuffer.c:46-78 | int32 values survive network byte order |
| ByteBuffer.Buffer.EnsureCapacity | src/bytebuffer.c:11-35 | compaction and growth keep the readable bytes; fails exactly when there is no room |
| ByteBuffer.Buffer.RoomExact | src/bytebuffer.c:11-35 | there is room iff what is readable and the new bytes fit the largest capacity that doubling reaches within 16 MiB, and the positions do not wrap |
| ByteBuffer.Buffer.Compact | src/bytebuffer.c:113-122 | moving the bytes to the front keeps the contents |
| ByteBuffer.Buffer.Write | src/bytebuffer.c:54-60 | appends the bytes, or leaves the contents as they were |
| ByteBuffer.Buffer.WriteInt32 | src/bytebuffer.c:46-52 | appends the four bytes in network order |
| ByteBuffer.Buffer.Read | src/bytebuffer.c:88-95 | takes bytes from the front |
| ByteBuffer.Buffer.ReadInt32 | src/bytebuffer.c:71-78 | takes a number from the front, or nothing |
| ByteBuffer.Buffer.PeekInt32 | src/bytebuffer.c:80-86 | looks at a number at the front |
| ByteBuffer.Buffer.Skip | src/bytebuffer.c:100-103 | drops bytes from the front when the sum does not wrap, and otherwise puts bytes before the contents back in front of them |
| ByteBuffer.SkipGoesBack | src/bytebuffer.c:88-103 | a byte that is read twice |
| ByteBuffer.Buffer.IndexOf | src/bytebuffer.c:105-111 | the first place of a byte in the readable bytes, none only when it is absent |
| ByteBuffer.Buffer.ReadSlice | src/bytebuffer.c:137-148 | an independent buffer with the first bytes |
| ByteBuffer.Int32Echo | src/bytebuffer.c:46-78 | writing and reading a number gives it back |
| HttpOutput.DrainIsShare | src/http_server.c:300-321 | the bytes sent are the front of the queue, as many as the calls of send reported before one that ends the loop, or all; the rest is left; the connection is bad iff an error or a send of nothing was met with bytes left |
| HttpOutput.DrainConserves | src/http_server.c:300-321 | for every pattern of partial sends, interruptions and would-blocks, bytes sent followed by bytes left are the queue, in that proportion |
| HttpOutput.DrainResumes | src/http_server.c:300-321 | interrupting a flush and resuming it sends the same bytes |
| HttpOutput.OutQueue.Append | src/http_server.c:257-281 | the queue grows and nothing appended is lost: bytes sent followed by the queue are all bytes appended |
| HttpOutput.OutQueue.SendAll | src/http_server.c:300-321 | the send loop sends exactly the reported bytes from the front of the queue and moves the rest to the front |
| HttpOutput.FlowWants | src/http_server.c:323-358 | a flush without send error leaves the backend watching what the bytes left and the closing flag ask for, or fails because the backend refused |
| HttpOutput.OutQueue.Flush | src/http_server.c:297-359 | sends what the answers allow, registers write interest iff bytes remain, and asks for the shutdown of a linked connection iff a send or a change of interest failed, or it is closing with nothing left and no removal pending |
| HttpServer.HttpServer.constructor | src/http_server.c:1153-1170 | an empty, valid server |
| HttpServer.HttpServer.OnAccept | src/http_server.c:1085-1126 | takes every client that can be set up, or, when shutting down, none, and drops the listener if its removal succeeds |
| HttpServer.HttpServer.Accept | src/http_server.c:1104-1125 | a new connection goes to the head of a well-formed doubly linked list without repeats |
| HttpServer.HttpServer.Unlink | src/http_server.c:287-295 | the pointer changes take exactly this connection out and leave a well-formed list |
| HttpServer.HttpServer.Retire | src/http_server.c:421-427 | done, unlinked and deferred together, once |
| HttpServer.HttpServer.NotifyClose | src/http_server.c:85-91 | on_ws_close is called at most once for a connection |
| HttpServer.HttpServer.MaybeFinish | src/http_server.c:119-142 | the loop stops iff shutting down and listener, connections and drains are gone |
| HttpServer.HttpServer.Shutdown | src/http_server.c:411-435 | linked iff not done, deferred iff done; a failed removal leaves it pending |
| HttpServer.HttpServer.Sweep | src/http_server.c:144-171 | removes exactly the pending connections whose removal now succeeds |
| HttpServer.HttpServer.ForceAll | src/http_server.c:101-113 | a late tick drops unsent bytes and shuts every connection down |
| HttpServer.HttpServer.LateTick | src/http_server.c:96-117 | forcing and sweeping, with their own answers from the backend, leave no connection iff each one is let go by one of them |
| HttpServer.HttpServer.Tick | src/http_server.c:96-117 | one tick past 5000 ms in which each connection is let go, with nothing draining, leaves no listener, no connection and a stopped loop |
| HttpServer.HttpServer.BeginShutdown | src/http_server.c:188-234 | every connection is closing afterwards; nothing happens when the timer cannot be set up |
| HttpServer.HttpServer.HoldOpen | src/http_server.c:119-186 | a drain retain keeps the loop running: whatever happens before its release (accepts, ticks past the deadline, flushes, closes, a shutdown, balanced retains and releases of others), the loop is not stopped |
| HttpServer.HttpServer.DrainRelease | src/http_server.c:178-186 | counts down and sweeps |
| HttpServer.HttpServer.Flush | src/http_server.c:297-359 | the bytes sent leave the count, also before an error; the connection is shut down on an error, or when it is closing and has sent everything |
| HttpServer.HttpServer.WsClose | src/http_server.c:456-464 | a WebSocket is closing afterwards |
| HttpLife.StepIff | src/http_server.c:96-464 | each operation on a connection keeps all appended bytes sent or waiting, and removes it only with nothing waiting, exactly when it is not one of the losses named there |
| HttpLife.EveryLife | src/http_server.c:96-464 | over every life without such a loss, a connection leaves the server only after everything appended has been sent, in order and nothing else |
| HttpLife.StepTakes | src/http_server.c:297-464 | each step appends what it is said to append and sends what the socket takes from the front of the queue; only a forced close drops the rest |
| HttpLife.StepCounts | src/http_server.c:297-464 | the count of waiting bytes stays the length of the queue in every step |
| HttpLife.LifeOnTheWire | src/http_server.c:297-464 | over every life the bytes counted as sent are exactly the bytes the socket took |
| HttpLife.WholeLife | src/http_server.c:96-464 | over every life of a new connection without a loss, the socket takes a prefix of what was appended, and all of it if the connection leaves |
| HttpLife.FlushWatches | src/http_server.c:323-358 | bytes that a flush leaves waiting are not forgotten: the backend watches for room to write unless something failed |
| HttpLife.EveryLifeTells | src/http_server.c:85-464 | over every life, whatever fails, on_ws_close has been called exactly for a WebSocket that is being removed or gone |
| HttpLife.ResponseCanBeCut | src/http_server.c:1046-1046 | a life in which the socket blocks once and the response is lost |
| HttpLife.BeginsAgrees | src/http_server.c:219-230 | the turn of a connection at the beginning of a shutdown does to its flags what HttpServer.BeginShutdown does |
| HttpLife.FlushConnection | src/http_server.c:297-359 | the server object and the queue object together do the flush of that life |
| UrlQuery.EncodeDecode | src/http_request_builder.c:51-68 | url_decode_query_component undoes url_encode on every C string |
| UrlQuery.EncodedByte | src/http_request_builder.c:51-68 | url_encode leaves exactly the unreserved characters of section 2.3 of RFC 3986 and writes every other byte as a percent sign and two upper-case digits |
| UrlQuery.UnitsAreRead | src/http_server.c:726-751 | plain bytes, plus signs and percent codes in digits of either case decode to those bytes, blanks and the coded bytes, in order |
| UrlQuery.ReadIsUnits | src/http_server.c:726-751 | and no other text is accepted |
| UrlQuery.QueryIsTokens | src/http_server.c:866-888 | a query string is read token by token between ampersands, whatever the tokens are |
| UrlQuery.TokenIsPair | src/http_server.c:866-888 | a token is a parameter iff it has an equals sign, the first of which ends the key; it is rejected iff one half cannot be decoded |
| UrlQuery.FormRoundTrip | src/http_request_builder.c:116-143 | splitting and decoding a form body gives back the list of keys and values it was built from |
| UrlQuery.BuildForm | src/http_request_builder.c:116-143 | the loop builds that body |
| UrlQuery.ReadQuery | src/http_server.c:866-888 | the loop over the ampersands reads the pairs of a query string, decoding copies in place |
| UrlQuery.DecodeInPlace | src/http_server.c:726-751 | decoding in place: the write cursor never passes the read cursor |
| HashBuckets.RehashIs | src/hashtable.c:9-33 | rehashing into 2n+1 buckets keeps every entry in the bucket of its hash and changes no lookup |
| HashBuckets.FlattenIsGet | src/hashtable.c:215-268 | walking all buckets meets exactly what lookups find |
| HashBuckets.FlattenOk | src/hashtable.c:215-268 | and meets no key twice |
| HashBuckets.PushIs | src/hashtable.c:110-117 | a new entry at the head of its chain adds exactly its key |
| Hashtable.WalkIsMap | src/hashtable.c:215-268 | the walk has as many entries as the map, each exactly once |
| Hashtable.Hashtable.constructor | src/hashtable.c:277-303 | an empty map |
| Hashtable.Hashtable.Put | src/hashtable.c:90-123 | the operation of a map, growing when the threshold is reached; one reference is held for each key present |
| Hashtable.Hashtable.Get | src/hashtable.c:125-140 | lookup in the map |
| Hashtable.Hashtable.Remove | src/hashtable.c:142-167 | removal from the map; the key is released |
| Hashtable.Hashtable.Clear | src/hashtable.c:169-184 | the empty map; all keys are released |
| Hashtable.Hashtable.Grow | src/hashtable.c:9-33 | keeps the map |
| Hashtable.TableIterator.constructor | src/hashtable.c:254-270 | everything is still to come |
| Hashtable.TableIterator.Next | src/hashtable.c:219-243 | gives the next entry with the value it has by then, or nothing once the table has changed, also when the position no longer exists |
| Hashtable.TableIterator.PutMeanwhile | src/hashtable.c:90-123 | replacing a value during an iteration keeps the same keys to come; a new key, or growth, ends it |
| Hashtable.Collect | src/hashtable.c:215-268 | iterating over an unchanged table yields every entry exactly once |
| GameRoom.AssignKeeps | src/game_room.c:138-178 | at most three players in a team and one seat for a session; a seat is found whenever the team check passes |
| GameRoom.ForceResetKeeps | src/game_room.c:36-81 | a reset that fails changes nothing; one that succeeds leaves a waiting room with a new generation and a blank board |
| GameRoom.RemoveKeeps | src/game_room.c:180-204 | removing fails exactly when nobody sits there and then changes nothing; otherwise that session sits nowhere, all others keep seat and team, and a room left empty waits without timer and owner, in a new generation if a game was on |
| GameRoom.StartKeeps | src/game_room.c:229-261 | so does starting: waiting iff there is no timer |
| GameRoom.PaintKeeps | src/game_room.c:281-318 | so does painting |
| GameRoom.Run | src/game_room.c:138-318 | the invariants hold after every sequence of operations |
| GameRoom.NewRoomOk | src/game_room.c:104-129 | they hold in a new room |
| GameRoom.PaintWithoutEffect | src/game_room.c:281-297 | a paint is accepted iff it is current, in time, by a seated player, on the board and after the cooldown; otherwise board and seats stay |
| GameRoom.PaintIsSquare | src/game_room.c:300-317 | an accepted paint colours exactly the part of the brush square on the board |
| GameRoom.PaintsApart | src/game_room.c:297-298 | two accepted paints of one seat in one game are at least 100 ms apart, whatever happens between them |
| GameRoom.CooldownIff | src/game_room.c:298-298 | the cooldown fails exactly when it wraps |
| GameRoom.CooldownCanWrap | src/game_room.c:298-298 | two accepted paints at the same time |
| GameRules.JoinFollows | src/game_room.c:138-178 | a player gets a seat exactly when the rules let them join (before a game, fewer than three others in the team), all others stay as they were, and they may reset iff they own the room |
| GameRules.LeaveFollows | src/game_room.c:180-204 | removing a seat is leaving by the rules, with the same answer |
| GameRules.SetUpFollows | src/game_room.c:220-226 | a reset succeeds exactly for the owner while no game is on, with settings that are not zero, and changes settings, board size, phase and generation only |
| GameRules.BeginFollows | src/game_room.c:229-261 | a game starts exactly when both teams have a player and the settings allow it, with those settings |
| GameRules.TouchFollows | src/game_room.c:273-297 | a paint changes nobody's seat or team; it only notices that the time is over |
| GameRules.CountsSide | src/game_room.c:144-150 | the counting loops over the seats count the players of a team |
| GameRules.EveryRunFollows | src/game_room.c:104-318 | every run of the room from its creation is a game played by rules that know no seats |
| GameRules.LastWordHolds | src/game_room.c:138-204 | over every run, a session sits, and for which team, exactly as the last successful assignment or removal of it says |
| GameRoomObject.CountSum | src/pixel_board.c:79-121 | red, blue and empty pixels make up the board |
| GameRoomObject.PixelBoard.PaintPixel | src/pixel_board.c:79-121 | one pixel changes, the scores stay the numbers of pixels and the version grows iff something changed |
| GameRoomObject.PixelBoard.Clear | src/pixel_board.c:56-77 | a blank board with matching scores and a higher version |
| GameRoomObject.PaintBrush | src/game_room.c:303-317 | the double loop paints the clipped square and tells whether anything changed |
| GameRoomObject.GameRoom.constructor | src/game_room.c:104-129 | a new room |
| GameRoomObject.GameRoom.AssignPlayer | src/game_room.c:138-178 | the counting and searching loops assign as specified |
| GameRoomObject.GameRoom.DoForceReset | src/game_room.c:36-81 | as specified, with a new board only when the size changes |
| GameRoomObject.GameRoom.DoReset | src/game_room.c:220-226 | as specified |
| GameRoomObject.GameRoom.DoRemovePlayer | src/game_room.c:180-204 | as specified, with the automatic reset of an empty room |
| GameRoomObject.GameRoom.DoStart | src/game_room.c:229-261 | as specified |
| GameRoomObject.GameRoom.TriggerTimeOver | src/game_room.c:263-271 | a running game ends once |
| GameRoomObject.GameRoom.DoPaint | src/game_room.c:281-318 | as specified |

## Left out

- kqueue and IOCP back ends, real system calls, errno values and liburing's own timeout entries.
- GameRoom_close, and game-over callbacks that call back into the room.
- Re-entrant callbacks in the HTTP server: on_ws_close and the handlers do not call back into the server.
- Header parsing, status lines and informational responses of the HTTP client, and request parsing of the server: mostly string handling around the body framing that is modelled.
- WebSocket frames, router, multipart, files, configuration, database, logging, TLS and cryptography.
- impl_search of the B-tree, which is a stub in the source.
- ArrayList, LinkedList, HashMap (apart from its key comparison inside JSON objects), Context, Exception and DateTime: plain containers.
- Failing allocations where no property speaks of them, and sizes near SIZE_MAX in the output and template buffers.
- BTreeHeap.BTreeObject.SplitFull: an allocation of the new sibling that fails, after which the source goes on with an unsplit child, is not modelled.
- JsonTree.ParseNumber: integer tokens only; fractions, exponents and the rounding of doubles beyond 2^53 are not modelled, and neither is `%g` beyond six digits.
- JsonTree.ParseValue: numbers are integer tokens, as for JsonTree.ParseNumber.
- JsonParser.ParseContext.ReadNumber: integer tokens only, as for JsonTree.ParseNumber.
- Template.RenderIsInterp: numbers render to an opaque string; keys are any text without braces that has no blanks at its ends and does not begin with `#` or `/`.
- Hashtable.Hashtable.Put: chains are lists in the buckets, so the next pointers of entries are not modelled; null keys and values are not modelled; key equality is equality and the hash is any function of the key; an allocation that fails during growth is not modelled.
- HttpServer.HttpServer.Accept: a connection that the backend refuses is never linked and does not appear; OnAccept counts it as not taken.
- HttpLife.FlushConnection: connection and queue are two objects with a copy of is_closing each, composed for the flush; the other operations are composed on values.
- The dispatch loop over a batch is modelled on values only (EventLoopDispatch, EventLoopTrace), since its handlers are arbitrary client code; the wait before it also in place.
- EventLoopCalls.DispatchIsDue: contexts of the batch are pinned, or malloc does not hand out their addresses again before the batch ends; the dispatcher itself cannot tell a context from another one at the same address.
- JsonGrammar.DocIsParsed: numbers are integer tokens, as for JsonTree.ParseNumber.
- HttpBody.ChunkedSound: what follows the semicolon of a chunk extension, and the syntax of trailer fields, is not checked by the source and is any text here; blanks before a missing semicolon are accepted as the source does.
- SnmpWalk.SnmpWalk: agents that send identifiers whose text is 256 characters or longer, or that is not canonical, are not modelled.
- EventLoopTeardown.Destroy: the timed completion drain is the list of completions it saw; its time limit is not modelled.
