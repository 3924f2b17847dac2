# A verified model of sni_router

`sni_router` accepts TLS connections, reads each ClientHello without terminating TLS,
looks the server name up in a route table through a cache, connects to the backend,
replays what it read and then copies bytes both ways. This project models that core in
Dafny and proves what it promises of all inputs, all interleavings and all runs.

Code that changes state step by step is a class or a method here, proved equal to a
specification function or against a declarative contract; the theorems are about those
functions, or about every run of a step system built from them.

- `Names`, `NameLanguage`, `Routing`: hostnames and route keys, exactly which texts are
  such and why the others are not, and the choice of a route.
- `Cursor`, `Hello`, `HelloLanguage`, `HelloErrors`, `HelloParser`: the ClientHello body of section 4.1.2
  of RFC 8446 and `server_name` of section 3 of RFC 6066. `Hello` is the parser as a
  function, `HelloLanguage` an independent grammar of structured hellos with its printer
  and the proof that the parser accepts exactly what it prints, `HelloErrors` when it refuses a
  name, and `HelloParser` the cursor loops, proved against `Hello`.
- `Records`, `Verdicts`, `RecordParser`, `HelloReader`: TLS records (section 5.1 of RFC 8446), the
  handshake message in them, the exact condition of every answer, and reading it off a
  stream in arbitrary pieces.
- `Builder`: the hello builder, as the printer that the parser inverts.
- `CacheState`, `CacheKeeps`, `Cache`, `CacheRuns`, `CacheTheorems`, `CacheAnswers`: the route cache's
  locked regions as functions, what each keeps, the class with its reverse index, every
  interleaving of its events with the loads' histories, and the results: what holds in
  every run, and what each event does, in full.
- `Gate`, `Shutdown`, `ShutdownTheorems`, `ShutdownPaths`: the proxy gate, slots, accept
  loop, tokens and any number of connection tasks as a step system; its safety, its
  termination, and the way to each outcome.
- `Remainders`, `Accept`: choosing among several listeners.
- `ResolverState`, `Resolver`, `ResolverHistory`, `ResolverRuns`: the DNS cache, and the
  reference that says what it answers from nothing but its lookups' results.
- `Pumps`, `Splice`, `Relay`: one direction through a bounded pipe as a step system, the
  splice loop, proved to be a run of it, and the bytes of a connection from its first read
  to its end.

Three results are about where the code and what is said of it part:

- `HelloLimits::max_wire_bytes` is documented as the most wire bytes a complete ClientHello
  can occupy. It is not: handshake bytes coalesced behind the hello in its last record
  count too. `Records.FitsTheCap` gives the exact condition, `HelloReader.AcceptedWithinCap`
  that such a hello is refused as too large although it parses, and
  `HelloReader.CoalescedHelloIsRefused` a concrete such hello.
- A good DNS answer is documented as usable for 60 s past its TTL when re-resolving fails.
  It can be served for up to one second more, since a failed refresh is remembered for a
  second. `ResolverRuns.AnswersOutlivingTheirWindow` says exactly when, in every reachable
  state: when the last refresh failed inside the window, less than a second ago.
  `ResolverRuns.ServedAfterItsWindow` is a run in which it happens, and
  `ResolverRuns.AnswersAreRecent` has the bound that holds.
- A wildcard candidate whose parent is an IPv4 literal, as `*.1.2.3.4` for the host
  `a.1.2.3.4`, can never be stored. `Names.CandidateKeysParseBack` says that these are the
  only such candidates.

## Model

| member | source | states |
|---|---|---|
| Names.ValidNamesExactly | crates/sni_router/src/lookup/types.rs:255-277 | The label loop accepts a name exactly when it is non-empty and at most 253 bytes of lowercase letters, digits, `-`, `_` and dots, with no leading, trailing or doubled dot and a dot in every 64 bytes |
| Names.HostnameParsing | crates/sni_router/src/lookup/types.rs:75-82 | Parsing yields only valid lowercase hostnames, folds case (names equal up to ASCII case parse alike), and is idempotent |
| NameLanguage.HostnameLanguage | crates/sni_router/src/lookup/types.rs:75-82 | A text parses to a hostname if and only if that is the text lowercased and it is at most 253 bytes of well-formed labels, by positions alone, and no IPv4 literal |
| NameLanguage.HostnameErrors | crates/sni_router/src/lookup/types.rs:255-277 | Exactly when each error is given: empty, too long, IP literal, or the first label that is empty, too long or has a wrong byte |
| NameLanguage.SplitExactly | crates/sni_router/src/lookup/types.rs:262-262 | Splitting is the only way to write a text as dot-free labels joined by dots |
| NameLanguage.Ipv4Exactly | crates/sni_router/src/lookup/types.rs:78-80 | The names refused as IP literals are exactly the printed forms of four numbers below 256 |
| NameLanguage.RouteKeyLanguage | crates/sni_router/src/lookup/types.rs:114-132 | Exact language of route keys: a text parses to a key if and only if the key is the text lowercased and either a hostname, or `*.` and a hostname with a dot in it |
| NameLanguage.RouteKeyErrors | crates/sni_router/src/lookup/types.rs:114-132 | Exactly when each error is given; a `*` anywhere but in front, a parent with a wrong byte, or a parent of one label is an invalid wildcard |
| Names.WildcardCoversOneLabel | crates/sni_router/src/lookup/types.rs:145-157 | A parsed wildcard `*.P` is a host's candidate exactly when the host is one non-empty dot-free label, a dot, then `P` |
| Names.CandidateKeysParseBack | crates/sni_router/src/lookup/types.rs:114-132 | Every exact candidate parses back to itself; a wildcard candidate does exactly when its parent is not an IPv4 literal, and otherwise no text parses to it. What any text parses to is `NameLanguage.RouteKeyLanguage` |
| Names.UnstorableWildcard | crates/sni_router/src/lookup/types.rs:143-157 | The concrete host `a.1.2.3.4` has a wildcard candidate that no stored key can be |
| Routing.GetFinds | crates/sni_router/src/lookup/mod.rs:122-126 | A found backend is that of the first hit for the key, and none is found only if no hit has the key |
| Routing.InMemoryLookup.Insert | crates/sni_router/src/lookup/memory.rs:32-34 | The table gains exactly that route, and the previous backend is returned |
| Routing.InMemoryLookup.Hits | crates/sni_router/src/lookup/memory.rs:49-58 | The hits are an answer the table supports: each candidate stored, with its backend, and no other key |
| Routing.SelectionFollowsTable | crates/sni_router/src/routing/mod.rs:76-91 | For any answer the table supports, in any order and with any extra hits, selection gives the exact route if stored, else the wildcard's, else none |
| Routing.IgnoredIgnoresOrder | crates/sni_router/src/routing/mod.rs:77-80 | The count of ignored hits is the same for any order of the hits, and zero exactly when every hit is a candidate |
| Routing.IgnoredAreCounted | crates/sni_router/src/routing/mod.rs:77-80 | The count of ignored hits is the number of hits whose key is no candidate |
| Routing.HostIsRouted | crates/sni_router/src/routing/mod.rs:69-91 | A host is routed exactly when some stored key covers it by the declarative matching rule; the route is stored, covers the host, and is a wildcard only if no exact key is stored |
| Cursor.Reader.Bytes | crates/sni_router/src/protocol/reader.rs:30-37 | A read takes exactly the next bytes, or fails and consumes nothing |
| Cursor.Reader.Vec8 | crates/sni_router/src/protocol/reader.rs:48-51 | Agrees with the pure reader on result and remaining input, the consumed length byte included when the rest is short |
| Cursor.Reader.Vec16 | crates/sni_router/src/protocol/reader.rs:54-57 | The same with a two-byte length |
| Cursor.Vec8Exactly | crates/sni_router/src/protocol/reader.rs:48-51 | A vector reads as `v` leaving `rest` exactly when the input is the encoding of `v` followed by `rest` |
| Cursor.Vec16Exactly | crates/sni_router/src/protocol/reader.rs:54-57 | The same for two-byte lengths: reading and printing are inverse |
| HelloParser.SeenTypes.Push | crates/sni_router/src/protocol/hello.rs:101-115 | Appends one type, through the spill from the inline array to the heap, keeping all earlier ones in order |
| HelloParser.SeenTypes.Sort | crates/sni_router/src/protocol/hello.rs:143-143 | Sorts in place: ascending, and a permutation of what was seen, inline or spilled |
| HelloParser.SortThenScan | crates/sni_router/src/protocol/hello.rs:143-146 | Equal neighbours exist after sorting exactly when the unsorted types are not pairwise distinct |
| HelloParser.ParseServerNameData | crates/sni_router/src/protocol/hello.rs:151-187 | The cursor loop over names gives what the function does, for every input |
| HelloParser.ParseExtensionBlock | crates/sni_router/src/protocol/hello.rs:125-149 | The cursor loop with `SeenTypes` and sort-then-scan gives what the function with pairwise distinctness does |
| HelloParser.ParseClientHelloBody | crates/sni_router/src/protocol/hello.rs:29-73 | The whole body parser gives what the function does; with `BodyLanguage`, its accepted language |
| HelloLanguage.NamesAccepted | crates/sni_router/src/protocol/hello.rs:151-187 | The printed form of every admissible list of names (at most one host_name, and that valid) is accepted with its host |
| HelloLanguage.NamesDecoded | crates/sni_router/src/protocol/hello.rs:151-187 | Every accepted list is the printed form of an admissible list of names |
| HelloLanguage.ExtensionsAccepted | crates/sni_router/src/protocol/hello.rs:125-149 | Walking the printed form of extensions yields their types in order and the name of the last `server_name` |
| HelloLanguage.ExtensionsDecoded | crates/sni_router/src/protocol/hello.rs:125-149 | Everything the walk accepts is the printed form of extensions with those types |
| HelloLanguage.HelloAccepted | crates/sni_router/src/protocol/hello.rs:29-73 | Every well-formed hello's encoding parses to the name it carries |
| HelloLanguage.HelloDecoded | crates/sni_router/src/protocol/hello.rs:29-73 | Every accepted body is the encoding of a well-formed hello |
| HelloLanguage.BodyLanguage | crates/sni_router/src/protocol/hello.rs:29-187 | Exact language: a body is accepted with an answer if and only if some well-formed hello (major version 3, session id of at most 32, even non-empty suites, distinct extension types, at most one valid host_name, nothing trailing) encodes to it and carries that answer |
| HelloLanguage.SniIsTheHostName | crates/sni_router/src/protocol/hello.rs:125-187 | The answer is a host exactly when some `server_name` extension of the hello has a host_name entry that is that host in some case |
| HelloErrors.BodyErrorKinds | crates/sni_router/src/protocol/hello.rs:29-187 | A refused body is refused as malformed or for its server name, never otherwise |
| HelloErrors.BadNamesExactly | crates/sni_router/src/protocol/hello.rs:151-187 | A `server_name` extension is refused for a name if and only if its list holds non-host entries and then a host_name that is no hostname, with that reason |
| HelloErrors.BadHostsExactly | crates/sni_router/src/protocol/hello.rs:29-187 | A body is refused for its server name if and only if everything up to the first bad one is well-formed |
| Records.VerdictIsStable | crates/sni_router/src/protocol/record.rs:34-55 | Any verdict but Incomplete, success or error, is unchanged by appending any bytes |
| Records.VerdictThreshold | crates/sni_router/src/protocol/record.rs:34-55 | After a success that consumed c bytes, every prefix shorter than c is Incomplete and every buffer agreeing on the first c bytes has the same verdict |
| Records.ScanIsStable | crates/sni_router/src/protocol/record.rs:122-160 | Stability of the record walk from any record on, with the payload seen so far |
| Records.CarriedIsScanned | crates/sni_router/src/protocol/record.rs:122-160 | Records that complete a message are walked to exactly their end, whatever follows, gathering exactly their payloads |
| Records.ScannedIsCarried | crates/sni_router/src/protocol/record.rs:122-160 | Conversely, whatever the walk accepts starts with records that complete a message, within the record limit |
| Records.FragmentsReassemble | crates/sni_router/src/protocol/record.rs:34-55 | Fragmentation independence: records completing a hello, with anything after them, give the body parser's verdict on the concatenated body, consuming exactly the records |
| Records.SplitMessageIsCarried | crates/sni_router/src/protocol/record.rs:203-224 | Any split of a handshake message into non-empty records is one that completes it, even within its four-byte header |
| Records.HelloLanguageExactly | crates/sni_router/src/protocol/record.rs:34-224 | The whole parser succeeds with an answer if and only if the buffer starts with records, within the limits, that complete a hello whose body parses to it |
| Verdicts.WalkStopsExactly | crates/sni_router/src/protocol/record.rs:122-160 | Why a record walk gives up, for every reason and buffer: if and only if whole records of an unfinished hello within the limits are followed by what the reason describes |
| Verdicts.WalkErrorsExactly | crates/sni_router/src/protocol/record.rs:34-55 | The same of the parser: `InvalidRecord`, `TooLarge` and the others of the walk have no other cause |
| Verdicts.IncompleteExactly | crates/sni_router/src/protocol/record.rs:29-34 | The parser asks for more if and only if the buffer is whole records of an unfinished hello and then a part of a further one in which nothing wrong is visible |
| Verdicts.NotHandshakeExactly | crates/sni_router/src/protocol/record.rs:174-183 | `NotHandshake` if and only if there is a first byte and it is not 0x16 |
| Verdicts.NotClientHelloExactly | crates/sni_router/src/protocol/record.rs:203-214 | `NotClientHello` if and only if the first byte in a good first record is not 1 |
| Verdicts.BodyErrorsExactly | crates/sni_router/src/protocol/record.rs:34-55 | Body errors if and only if the buffer starts with all the records of a hello whose body the body parser refuses so |
| Records.FitsTheCap | crates/sni_router/src/protocol/mod.rs:63-68 | A complete hello's records are within `max_wire_bytes` exactly when the bytes coalesced behind it fit the unused allowance |
| RecordParser.Payloads.Push | crates/sni_router/src/protocol/record.rs:95-109 | Appends one range, through the spill from inline to heap, keeping all earlier ones in order |
| RecordParser.HandshakeHeader.ObservePayload | crates/sni_router/src/protocol/record.rs:203-224 | Collecting a header split anywhere over payloads gives what observing the concatenation does, error cases included |
| RecordParser.ScanRecords | crates/sni_router/src/protocol/record.rs:122-160 | The loop over ranges gives the function's verdict, errors included; on success its ranges gather to the payloads |
| RecordParser.Reassemble | crates/sni_router/src/protocol/record.rs:42-49 | The message buffer is the first bytes of the concatenated payloads |
| RecordParser.ParseClientHello | crates/sni_router/src/protocol/record.rs:34-55 | Layout, reassembly and body parse together give `ParseHello`, whose every answer has its exact condition in `Records` and `Verdicts` |
| HelloReader.ReadClientHello | crates/sni_router/src/delivery/hello_reader.rs:36-67 | Chunking independence: for any read sizes the outcome is a function of the stream alone; the buffer is exactly what was taken, and within the cap |
| HelloReader.PrefixDecides | crates/sni_router/src/delivery/hello_reader.rs:61-65 | A verdict on any prefix within the cap is the reader's answer to the whole stream |
| HelloReader.AcceptedWithinCap | crates/sni_router/src/delivery/hello_reader.rs:43-65 | A stream that parses is accepted exactly when its hello ends within the cap, and is TooLarge otherwise |
| HelloReader.OnlyParsableAccepted | crates/sni_router/src/delivery/hello_reader.rs:43-65 | Nothing is accepted that the parser would not accept on the whole stream |
| HelloReader.CoalescedRecords | crates/sni_router/src/delivery/hello_reader.rs:43-65 | For a hello in any number of records, with anything after them: it parses, and the reader takes it exactly when the bytes coalesced behind it fit the unused allowance |
| HelloReader.CoalescedHello | crates/sni_router/src/protocol/mod.rs:63-68 | The same in terms of the extra handshake bytes of a one-record hello |
| HelloReader.CoalescedHelloIsRefused | crates/sni_router/src/protocol/mod.rs:63-68 | A concrete parsable hello of 51 bytes under limits whose documented maximum is 50, answered TooLarge |
| Builder.PushRecord | crates/sni_router/src/testing.rs:205-208 | One record is appended, with its header |
| Builder.ClientHelloBuilder.ExtensionBytes | crates/sni_router/src/testing.rs:184-202 | The loop prints the `server_name` extension, if any, and then the others in the order given |
| Builder.ClientHelloBuilder.Body | crates/sni_router/src/testing.rs:126-147 | The loops print the builder's fields in order: version, random, vectors, padded extensions, trailing bytes |
| Builder.ClientHelloBuilder.Handshake | crates/sni_router/src/testing.rs:150-157 | Type, 24-bit length, body |
| Builder.ClientHelloBuilder.Build | crates/sni_router/src/testing.rs:160-162 | The message in full-size records |
| Builder.BodyIsTheHello | crates/sni_router/src/testing.rs:126-147 | With major version 3 that is the grammar's encoding of the hello described, then the trailing bytes |
| Builder.PaddedToTarget | crates/sni_router/src/testing.rs:133-141 | A padded body has exactly the length asked for |
| Builder.RecordsOf | crates/sni_router/src/testing.rs:165-171 | One record per chunk, in order |
| Builder.RecordsFromSplits | crates/sni_router/src/testing.rs:174-182 | One record per split and one for what is left, in order |
| Builder.PiecesCover | crates/sni_router/src/testing.rs:174-182 | However a message is split, the pieces in order are the message |
| Builder.ChunksCover | crates/sni_router/src/testing.rs:165-171 | Chunks are non-empty, at most the chunk size, and join to the message |
| Builder.PrintedHelloParses | crates/sni_router/src/testing.rs:126-182 | Round trip: a well-formed hello, cut in any pieces the limits allow and followed by anything, parses to its name, consuming exactly the pieces |
| Builder.BuiltHelloParses | crates/sni_router/src/testing.rs:160-162 | What `build` prints for a well-formed hello, with anything after it, parses to the name carried, consuming exactly the print |
| Builder.BuiltNameIsCarried | crates/sni_router/src/testing.rs:68-70 | A builder given a valid name prints a hello that carries it lowercased |
| CacheState.EvictFreesOneSlot | crates/sni_router/src/cache.rs:362-369 | Whatever superseded records the queue holds, eviction drops exactly the smallest ids, stops with exactly one slot free, and only shortens the queue |
| CacheKeeps.MakeRoomDrops | crates/sni_router/src/cache.rs:343-370 | No change while there is room; a due purge that finds dead entries drops exactly those and evicts none; else exactly the oldest entry goes |
| CacheKeeps.MakeRoomKeeps | crates/sni_router/src/cache.rs:343-370 | Making room keeps ids increasing and every entry recorded, leaves a slot, and touches no load |
| CacheAnswers.RoomIsMade | crates/sni_router/src/cache.rs:343-370 | A full cache gives up exactly the entries with `now >= staleUntil` if there are any and no purge was made for the negative TTL, and then records the purge; else exactly the entry with the smallest id |
| CacheKeeps.InsertStores | crates/sni_router/src/cache.rs:302-339 | The new entry is stored under a new id and no other entry changes but by making room |
| CacheKeeps.InsertKeeps | crates/sni_router/src/cache.rs:302-339 | Insertion keeps the structure and both bounds, through compaction |
| CacheKeeps.BeginKeeps | crates/sni_router/src/cache.rs:186-234 | Beginning a lookup keeps the structure and the bounds |
| CacheState.LiveRecordsKeep | crates/sni_router/src/cache.rs:334-338 | Compaction keeps exactly the records of live entries, in order |
| CacheState.IdsAreUnique | crates/sni_router/src/cache.rs:296-300 | No two entries share an id |
| CacheKeeps.SettleKeeps | crates/sni_router/src/cache.rs:414-448 | Ending a load keeps the structure and both bounds |
| CacheKeeps.SettledSlots | crates/sni_router/src/cache.rs:414-429 | Ending a load frees its slot if it still owns it, touches no other slot, and lowers the count by one |
| CacheKeeps.SettledEntries | crates/sni_router/src/cache.rs:430-447 | What is cached afterwards is old entries unchanged, and the new one only from the owner of the slot |
| CacheKeeps.OnlyOwnersStore | crates/sni_router/src/cache.rs:430-447 | A failed load, or one whose slot was taken away, stores nothing and removes nothing inside its stale window |
| CacheKeeps.InvalidateKeeps | crates/sni_router/src/cache.rs:154-166 | Invalidation keeps the structure |
| CacheKeeps.JitterBounds | crates/sni_router/src/cache.rs:387-394 | A jittered lifetime lies within the TTL times one plus or minus the clamped jitter |
| CacheKeeps.JitterSpreads | crates/sni_router/src/cache.rs:387-394 | The whole range is used: the lowest value gives the shortest lifetime, and lifetimes are as far apart as the values they are derived from |
| Cache.CachedLookup.RemoveEntry | crates/sni_router/src/cache.rs:373-385 | Exactly one entry goes, and the reverse index stays exact up to the keys being invalidated |
| Cache.CachedLookup.AddToIndex | crates/sni_router/src/cache.rs:317-322 | The index is exact for the entries with the new one |
| Cache.CachedLookup.EvictOldest | crates/sni_router/src/cache.rs:362-369 | The loop gives the eviction function's result, with the index exact |
| Cache.CachedLookup.MakeRoomFor | crates/sni_router/src/cache.rs:343-370 | Purge and eviction in place give the function's state, stated in full by `CacheAnswers.RoomIsMade`, with the index exact |
| Cache.CachedLookup.Compact | crates/sni_router/src/cache.rs:334-338 | The queue is left with its live records |
| Cache.CachedLookup.InsertEntry | crates/sni_router/src/cache.rs:302-339 | The new state is the insertion function's, with the index exact |
| Cache.CachedLookup.Begin | crates/sni_router/src/cache.rs:186-234 | The locked region of a lookup answers and changes state as the function says, which `CacheAnswers.LookupsAreAnswered` states in full |
| Cache.CachedLookup.Invalidate | crates/sni_router/src/cache.rs:154-166 | Every entry and slot whose candidates contain the key goes and nothing else, through the temporarily broken index |
| Cache.CachedLookup.Clear | crates/sni_router/src/cache.rs:169-175 | Entries, index, queue and slots are emptied; ids and the load count are not |
| Cache.LoadGuard.Finish | crates/sni_router/src/cache.rs:414-455 | The first call settles the load and sends its one result, later calls do nothing |
| Cache.LoadGuard.RunToEnd | crates/sni_router/src/cache.rs:458-462 | Completed or only dropped, a guard settles exactly once and sends exactly one result |
| CacheRuns.StepKeeps | crates/sni_router/src/cache.rs:186-462 | Every event of any interleaving keeps the invariant over loads, slots, entries, waiters and answers |
| CacheRuns.RunsKeep | crates/sni_router/src/cache.rs:186-462 | The invariant holds after every run |
| CacheTheorems.AnswersAreFresh | crates/sni_router/src/cache.rs:154-175 | In every run, an answer to a lookup begun after an invalidation or clear covering its candidates comes from a load started after it, be it a hit, a shared load or a stale copy |
| CacheTheorems.AnswersAgreeWithStore | crates/sni_router/src/cache.rs:186-247 | In every run, every answer is what one load of exactly those candidates returned; fresh ones are younger than their jittered TTL or negative TTL, stale ones within the stale window past that |
| CacheTheorems.LoadsAreCounted | crates/sni_router/src/cache.rs:207-218 | In every run the counter equals the unfinished loads and keeps to its cap; each slot belongs to one unfinished load for the same candidates, and no load has two |
| CacheTheorems.LoadsEndOnce | crates/sni_router/src/cache.rs:400-462 | A load has ended, with one result, exactly when it is not running. In the step system only running loads end; that a second end does nothing is the taken sender of `LoadGuard.RunToEnd` |
| CacheTheorems.EndFreesSlot | crates/sni_router/src/cache.rs:419-429 | After a load ends no slot is its own: no key stays in flight without a load |
| CacheTheorems.WaitersAreReleased | crates/sni_router/src/cache.rs:219-234 | From every reachable state, whatever the load returns, a waiter is released within three events |
| CacheTheorems.CacheStaysInBounds | crates/sni_router/src/cache.rs:302-385 | In every run entries and queue keep their bounds, ids increase, and each entry has exactly one matching record |
| CacheAnswers.LookupsAreAnswered | crates/sni_router/src/cache.rs:186-247 | In every run a lookup is answered from a fresh entry, starting nothing; else it waits on the load that has its candidates' slot; else below the cap exactly one new load starts; else it is shed, and answered exactly with an entry inside its stale window |
| CacheAnswers.WaitersAreTold | crates/sni_router/src/cache.rs:219-234 | In every run a waiter is told its load's hits, or when the load failed its stale copy's, or gets no hits |
| CacheAnswers.LoadsSettle | crates/sni_router/src/cache.rs:414-448 | In every run the success of a slot's owner leaves its hits cached, fresh for at least the TTL less the jitter (exactly the negative TTL for a miss), with all others but those room was made of; any other success stores nothing; a failure removes exactly its entry past its stale window; its slot is free and no other touched |
| CacheAnswers.InvalidationRemoves | crates/sni_router/src/cache.rs:154-175 | In every run invalidation and clear remove exactly the entries and slots of candidates with the key, or all, and change nothing else |
| CacheAnswers.LoadsAreSingleFlight | crates/sni_router/src/cache.rs:207-218 | In every run, between the starts of two loads of the same candidates that are both running there is an invalidation or clear of them |
| Gate.ProxyGate.TryEnter | crates/sni_router/src/delivery/gate.rs:58-65 | A pass is granted and counted exactly while the gate is open |
| Gate.ProxyGate.Shut | crates/sni_router/src/delivery/gate.rs:69-74 | The gate closes, handshakes are cancelled with it, and the passes out are reported |
| Gate.ProxyGate.DropPass | crates/sni_router/src/delivery/gate.rs:85-90 | One pass fewer, and nothing else |
| Shutdown.ConnectionStepKeeps | crates/sni_router/src/delivery/connection.rs:143-285 | Every step of a connection's task, panics included, keeps slots and passes balanced and its books right |
| Shutdown.AcceptStepKeeps | crates/sni_router/src/delivery/server.rs:145-181 | Every step of the accept loop keeps slots balanced, on failures and on shutdown too |
| Shutdown.StepKeeps | crates/sni_router/src/delivery/server.rs:76-181 | Every step of the system keeps the invariant |
| Shutdown.ShutdownIsSafe | crates/sni_router/src/delivery/server.rs:92-133 | In every run: slots are conserved; the gate's count is the live passes; cancellation is recorded only after close, and force only after the grace period |
| Shutdown.BooksAreClosed | crates/sni_router/src/delivery/connection.rs:71-141 | When `serve` has returned no task is left, all slots are free, and every opened connection recorded exactly one close |
| ShutdownPaths.GateDecides | crates/sni_router/src/delivery/gate.rs:58-65 | A connection at the gate is admitted and counted exactly while it is open, and otherwise ends as cancelled |
| ShutdownPaths.TokensDecide | crates/sni_router/src/delivery/connection.rs:279-285 | A check lets a stage be polled unless its token has fired, and then ends it as cancelled or forced; only an alert keeps its outcome |
| ShutdownPaths.FailuresDecide | crates/sni_router/src/delivery/connection.rs:143-277 | A stage that fails, and a task that is dropped or panics, ends with that outcome |
| ShutdownPaths.OutcomesHaveTheirWays | crates/sni_router/src/delivery/connection.rs:143-277 | In every run each recorded outcome was come to in its own way: a missing name through the alert from the hello, an unknown host from the lookup, failures in their own stage, and ends of proxying through hello, lookup, upstream and gate in turn |
| ShutdownPaths.OpenedCanBeProxied | crates/sni_router/src/delivery/connection.rs:143-277 | Before shutdown any opened connection can be proxied to its end by its own steps, and gives back its slot and pass |
| ShutdownPaths.ClientCanBeProxied | crates/sni_router/src/delivery/server.rs:138-181 | With any capacity at all some run accepts a client, proxies it and records it |
| ShutdownTheorems.NoneSpawned | crates/sni_router/src/delivery/server.rs:110-116 | After close no connection is spawned and the gate stays closed |
| ShutdownTheorems.OneSideEach | crates/sni_router/src/delivery/gate.rs:58-74 | A connection racing shutdown lands on one side: counted at close, it is never reported cancelled; not counted, it never holds a pass again and, unless it had already left the proxy stage, never ends as a proxied one |
| ShutdownTheorems.SidesAreKeptForever | crates/sni_router/src/delivery/gate.rs:58-90 | Over every run after close each connection stays on its side, and passes are only given back |
| ShutdownTheorems.MovesDescend | crates/sni_router/src/delivery/connection.rs:143-285 | Stages only go down; after close every step counts down, except in the proxy stage before force |
| ShutdownTheorems.WorkOnlyShrinks | crates/sni_router/src/delivery/server.rs:110-134 | After close no step adds work, and steps outside draining remove some |
| ShutdownTheorems.AcceptLoopStops | crates/sni_router/src/delivery/server.rs:146-160 | After the shutdown token the accept loop stops within three of its own steps, and can always take one |
| ShutdownTheorems.ForcedRunsAreShort | crates/sni_router/src/delivery/server.rs:130-131 | Once forced, every run has at most as many steps as the work left, the clock's aside |
| ShutdownTheorems.ForcedShutdownReturns | crates/sni_router/src/delivery/server.rs:122-134 | From every forced state `serve` can return, with every task gone, within that many steps |
| ShutdownTheorems.ForcedCanStep | crates/sni_router/src/delivery/server.rs:122-134 | Until it has returned a forced system is never stuck |
| ShutdownTheorems.ShutdownReturns | crates/sni_router/src/delivery/server.rs:110-134 | From every reachable state in which the shutdown token has fired, some run through the closed gate and the grace period makes `serve` return with every task gone, in a bounded number of steps besides the clock's |
| ShutdownTheorems.ShutdownRunsAreShort | crates/sni_router/src/delivery/server.rs:110-181 | And every run from there is bounded by the stages left, aside from clock ticks and polls that leave a connection in its stage |
| Accept.AcceptAny | crates/sni_router/src/delivery/server.rs:186-201 | The ready listener first in cyclic order from `next` is taken and `next` moves behind it; with none ready, nothing changes |
| Accept.PickIsUnique | crates/sni_router/src/delivery/server.rs:190-200 | That contract determines the result |
| Accept.TakenInTurn | crates/sni_router/src/delivery/server.rs:186-201 | A listener that stays ready is taken after at most as many others as were ahead of it |
| Accept.AcceptIsFair | crates/sni_router/src/delivery/server.rs:186-201 | With n listeners it is among any n consecutive accept results, whatever the others do |
| Accept.NoneOvertakesTwice | crates/sni_router/src/delivery/server.rs:186-201 | While it waits, others are taken in polling order and none twice |
| Accept.RoundRobin | crates/sni_router/src/delivery/server.rs:186-201 | With all always ready the picks go round in order, so the bound is exact |
| ResolverState.RotationIsCyclic | crates/sni_router/src/delivery/resolver.rs:204-211 | A rotation is a permutation of the addresses in cyclic order |
| ResolverState.FirstTriesSpread | crates/sni_router/src/delivery/resolver.rs:204-205 | As many consecutive calls as there are addresses try each first exactly once if and only if the machine-word counter does not wrap among them or the addresses divide its range |
| Resolver.Resolver.BeginResolve | crates/sni_router/src/delivery/resolver.rs:98-115 | The locked region of a call answers, joins or starts a lookup as the function says |
| Resolver.Resolver.Prune | crates/sni_router/src/delivery/resolver.rs:162-164 | Exactly the entries past both their fresh and stale times go |
| Resolver.Resolver.FinishLookup | crates/sni_router/src/delivery/resolver.rs:144-202 | Freeing the slot, pruning and storing in place give the function's state and reply |
| Resolver.Resolver.Rotated | crates/sni_router/src/delivery/resolver.rs:204-211 | The addresses rotated by the counter, which then advances and wraps as a machine word |
| ResolverHistory.ServedAnswersAreRecent | crates/sni_router/src/delivery/resolver.rs:186-198 | A good answer obtained at t is served from memory only while newest, never empty, and only before t + ttl + 60 s + 1 s |
| ResolverHistory.OutlivesItsWindow | crates/sni_router/src/delivery/resolver.rs:184-198 | Past its stale window the newest good answer is served from memory if and only if the last lookup came after it, failed inside the window and less than a second ago |
| ResolverHistory.StaleOutlastsItsWindow | crates/sni_router/src/delivery/resolver.rs:41-43 | At any time in that extra second some history still serves it |
| ResolverHistory.SettledAnswersAreRecent | crates/sni_router/src/delivery/resolver.rs:170-200 | Waiters get the lookup's own answer or the newest good one, within t + ttl + 60 s |
| ResolverHistory.NoFailureInWindow | crates/sni_router/src/delivery/resolver.rs:192-198 | Before t + ttl + 60 s after a good answer nothing fails, for callers and waiters alike |
| ResolverHistory.FailuresAreBrief | crates/sni_router/src/delivery/resolver.rs:221-231 | A failure is repeated from memory for under a second |
| ResolverHistory.StoreReflects | crates/sni_router/src/delivery/resolver.rs:154-202 | Storing a result keeps a key's entry in step with its history of results, and the reply is the one the history calls for |
| ResolverHistory.PrunedReflects | crates/sni_router/src/delivery/resolver.rs:162-164 | Pruning keeps it in step: only entries of no more use go |
| ResolverRuns.RunsKeep | crates/sni_router/src/delivery/resolver.rs:93-202 | Slots, permits and every key's entry are right after every run |
| ResolverRuns.CallersGetTheHistory | crates/sni_router/src/delivery/resolver.rs:93-115 | In every reachable state a caller is answered exactly as the history of its key calls for, joins its one unfinished lookup, or starts one |
| ResolverRuns.WaitersGetTheHistory | crates/sni_router/src/delivery/resolver.rs:144-149 | Those who wait are told exactly what the history calls for once the lookup has ended |
| ResolverRuns.AnswersAreRecent | crates/sni_router/src/delivery/resolver.rs:93-202 | In every run a caller answered from memory gets a non-empty answer less than ttl + 61 s old, and no failure less than ttl + 60 s after a good answer |
| ResolverRuns.WaitersAreRecent | crates/sni_router/src/delivery/resolver.rs:116-149 | In every run those who wait get, as their lookup ends, a non-empty answer less than ttl + 60 s old, and no failure less than ttl + 60 s after a good answer |
| ResolverRuns.AnswersOutlivingTheirWindow | crates/sni_router/src/delivery/resolver.rs:93-202 | In every reachable state, a caller is served the newest good answer past its stale window if and only if the last refresh failed inside the window and less than a second ago |
| ResolverRuns.RefusedRefreshIsServed | crates/sni_router/src/delivery/resolver.rs:93-202 | For every TTL, answer and refresh refused inside the window, the run of two calls in which that happens serves the old answer for a whole second from the refusal |
| ResolverRuns.ServedAfterItsWindow | crates/sni_router/src/delivery/resolver.rs:41-43 | The concrete run: with a TTL of 30 s an answer obtained at 0 is served at 90.25 s |
| ResolverRuns.LookupsAreSingleFlight | crates/sni_router/src/delivery/resolver.rs:106-113 | At most one unfinished lookup a key, and at most the permitted number block a thread |
| ResolverRuns.PruningIsInvisible | crates/sni_router/src/delivery/resolver.rs:160-164 | Over every run a resolver that prunes and one that never does give every caller and waiter the same reply and start the same lookups |
| Splice.SpliceDirection | crates/sni_router/src/delivery/splice.rs:301-344 | The nested loops are a run of the step system's pump: what is left at both ends, in the pipe and on the meter is the pump's. It succeeds if and only if the source ends cleanly and no write or closing failed; then the whole source was delivered before the write half was closed. Without a failure at the sink everything is delivered even when the source ends in a fault; on any failure what was taken is what was delivered plus what the pipe holds, in order |
| Relay.UpPumpIsARun | crates/sni_router/src/delivery/splice.rs:370-380 | Any run of the pump towards the backend is a run of a copying connection that touches nothing else but the client total |
| Relay.DownPumpIsARun | crates/sni_router/src/delivery/splice.rs:381-390 | The same towards the client |
| Relay.StepKeeps | crates/sni_router/src/delivery/splice.rs:301-393 | Every step, of either direction or of a peer, keeps taken bytes equal to delivered, to be replayed and in the pipe, in order |
| Relay.BytesAreConserved | crates/sni_router/src/delivery/connection.rs:296-309 | In every run each receiver has an in-order, gap-free prefix of what its sender sent; totals are exact; nothing over the cap and a pipe is in between; write halves close only after everything was delivered |
| Relay.FinishedIsWhole | crates/sni_router/src/delivery/splice.rs:358-393 | A finished connection delivered both streams whole, with totals equal to their lengths |
| Relay.BackendSeesTheHello | crates/sni_router/src/delivery/hello_reader.rs:43-62 | From the end of the replay on, what the backend has parses to the very hello that was routed by |
| Relay.DirectionsAreIndependent | crates/sni_router/src/delivery/splice.rs:346-350 | Half-close: each direction whose sender is done can go on whatever the other does |
| Relay.CopyingRunsAreShort | crates/sni_router/src/delivery/splice.rs:301-393 | Once both senders are done every run of a copying connection is bounded by the bytes left |
| Relay.CopyingCanFinish | crates/sni_router/src/delivery/splice.rs:358-393 | And it can always finish, without an error |
| Relay.HelloCanBeRelayed | crates/sni_router/src/delivery/hello_reader.rs:43-65 | From every reachable state that is still reading, if the client's stream starts with an acceptable hello within the cap and both peers are done, the connection can finish, having delivered both streams whole |
| Relay.AcceptableIsNotRefused | crates/sni_router/src/delivery/hello_reader.rs:61-65 | In every run without a failure or cancellation, a client whose stream is or may still become an acceptable hello is never turned away, however it is read |
| Relay.StreamsCanBeRelayed | crates/sni_router/src/delivery/connection.rs:143-245 | Any two streams, the client's starting with such a hello, can be relayed whole from the start |

## Left out

- Tokio, sockets, `splice(2)`, `pipe2`, `EINTR` retries and readiness: a read, write or splice moves any number of bytes within its bounds, or fails.
- Mutexes, watch channels, semaphores and cancellation tokens are atomic steps; lock poisoning and the teardown of a dying runtime are not modelled (a load task that is dropped or panics is).
- Metrics, the admin server, logging, TOML configuration, reload, signal handling, the load-test tools and splice admission: plumbing or one-line arithmetic.
- `Backend` parsing, `connect_any`, the alert write and `lookup_outcome`: single passes with no property across operations. Backends are opaque values.
- The portable copy loop is Tokio's and is not part of this model; `Relay` covers any copy that moves bytes through a bounded buffer.
- The idle watchdog and the handshake timeouts are failures that may come at any poll; no bound on when they come is stated.
- Messages of `Malformed` errors, and the text of lookup and resolver errors: only the error's kind is kept.
- Host names are bytes rather than UTF-8 strings, since only ASCII survives validation; an IP literal is a strict dotted quad, since a name with `:` never validates.
- Clock overflow saturation, wrap-around of 64-bit ids and of sizes: ids, times and lengths are unbounded. The resolver's rotation counter does wrap.
- The hash and the floating-point product behind `jittered`: an arbitrary value in [0, 1) and real arithmetic.
- `load_timeout`: a load that times out is one that ends with an error.
- The builder's panics on oversized parts are preconditions of `Builder`'s methods.
- `sort_unstable` is a verified insertion sort, since only its being a sorted permutation matters.
- The inner `RouteLookup` is arbitrary: `AnswersFrom` states its contract for routing, and the cache assumes none.
- The cache's events take their clock readings as given, in no order, which allows more runs than a monotone clock does.
- The order in which `HashMap` and `HashSet` are visited: entries are removed in any order.
- `Router::serve` assumes that the shutdown token eventually fires and that tasks are scheduled; termination is stated as a bound on steps and the absence of stuck states.
