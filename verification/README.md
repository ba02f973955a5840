# HydraDNS: a verified model of the forwarding path

HydraDNS is a DNS forwarder. A client's query is rate limited, matched against blocklists, looked
up in a cache, and otherwise sent upstream once for all clients that ask the same question at the
same time. Responses are kept as wire bytes; the resolver ages and patches those bytes instead of
parsing and printing them again. This project models that path in Dafny and proves what it is
supposed to keep:

| module | models |
|---|---|
| `Wire` | bytes, 16- and 32-bit fields, results |
| `Names` | domain names on the wire, with compression pointers (`internal/dns/codec.go`) |
| `Packets` | headers, questions, records and whole messages (`internal/dns/packet.go`, `record.go`, ...) |
| `Edns` | EDNS options and the OPT record (`internal/dns/edns.go`) |
| `Truncation` | fitting replies into UDP (`internal/server/truncate.go`) |
| `Rewrites` | transaction IDs and EDNS patched into printed messages |
| `TtlAging`, `TtlFields` | `adjustTTLs`, on printed messages and on arbitrary bytes |
| `Cache` | the TTL + LRU cache (`internal/resolvers/cache.go`) |
| `Lifetimes` | how long a response may be cached, and the TTLs served from the cache |
| `Responses` | `validateResponse`, and what a reply may change of an upstream message |
| `Forwarding` | `Resolve` as a step system over any number of goroutines |
| `Upstreams` | upstream health, cooldown and failover |
| `Trie`, `DomainTries` | the domain trie, as shapes and as a heap structure |
| `RateLimit` | the token buckets and their three tiers |
| `Sync` | primary/secondary configuration sync |

Code that changes things step by step is a method or a class with its loops, and is proved equal to
a specification function; the main theorems are about those functions. Each section under one mutex
is one atomic step, and other goroutines may come between two such sections. Clock readings, network results and map iteration order are parameters or arbitrary
choices.

Main results, in short:

- Printing and parsing whole messages are inverse up to canonical form; name decoding is exact for
  section 4.1.4 of RFC 1035 with at most 20 pointers, and the visited set never rejects a name that
  the depth bound accepts.
- Every byte-level shortcut agrees with parse, change, print; `adjustTTLs` is in addition
  characterized on every byte string, parsed or not, compressed or not.
- In every interleaving of `Resolve`, a key has at most one leader, waiters get that leader's
  result, and every reply is, outside its ID and TTL fields, byte for byte an upstream message that
  validates for the asker's question. A served TTL wraps exactly for records cached longer than
  their TTL, so never for a nonzero answer of a positive hit.
- A larger LRU cache finds whatever a smaller one finds, over whole runs, despite expiry.
- The heap trie refines a map, and its structure depends on its contents only.
- When buckets refill within the cleanup interval, the limiter's eviction is invisible and the rate
  bound holds in every interval of time of every interleaving; for any other enabled limiter whose
  new buckets start full (rate times the longest duration, about 292 years, is at least burst) some
  run breaks the bound.

Where code and documentation disagree, the code is modelled:

- The comment on `adjustTTLs` (`internal/resolvers/forwarding_resolver.go:820`) promises a TTL of 1
  once the age reaches the TTL; the code subtracts in uint32 and wraps.
  `Lifetimes.DocumentedAgingIff` says exactly when the two agree. `Lifetimes.ZeroTTLServed` and
  `Lifetimes.SoaOutlived` give messages served with TTLs near 2^32.
- `truncateUDPResponse` (`internal/server/truncate.go:13-16`) promises the response's ID with TC
  set; the path that keeps the questions leaves the header zero.
  `Truncation.PromisedHeaderIff` says exactly when the promise is kept, and
  `Truncation.PrintedHeaderLost` gives the messages that lose their header.
- The comments at `internal/resolvers/forwarding_resolver.go:693-694` and `:758-759` promise that a
  negative response is kept for the MINIMUM of its SOA record. The record's names are decoded
  within its RDATA alone, so a compression pointer out of it makes the decoder fail, MINIMUM is
  ignored and the response is kept for 300 seconds. `Lifetimes.NegativeLifetimeIff` says exactly
  when MINIMUM counts, and `Lifetimes.CompressedSoaKept300` gives the messages for which it does not.
- A failed version read counts as version 0 in `doSync`, and row triggers change the version during
  an import. `Sync.VersionDecreasesIff` and `Sync.MismatchIff` say exactly when a sync goes wrong.

## Model

| member | source | states |
|---|---|---|
| `Names.EncodeName` | internal/dns/codec.go:45-84 | the scanning loop yields length-prefixed labels of the dot-trimmed text, or an error for an empty text, an empty, long or non-ASCII label or more than 255 bytes |
| `Names.TrimDot` | internal/dns/codec.go:231-236 | all trailing dots go, nothing else |
| `Names.JoinLabels` | internal/dns/codec.go:240-261 | the builder loop yields the labels separated by dots |
| `Names.LowerLetters` | internal/dns/codec.go:13-15 | the 26 capital letters become their small letters, every other byte stays |
| `Names.JoinSplit` | internal/dns/codec.go:240-261 | joining the labels of a text gives the text back, and no label holds a dot |
| `Names.SplitJoin` | internal/dns/codec.go:240-261 | splitting joined dotless labels gives the labels back |
| `Names.ReadLabel` | internal/dns/codec.go:211-228 | a label is returned exactly if its length byte is not reserved and its bytes are there and ASCII |
| `Names.FollowPointer` | internal/dns/codec.go:186-208 | following a pointer gives the name at its 14-bit offset within the remaining hops; a visited target is only refused when no bound would help |
| `Names.DecodeNameFrom` | internal/dns/codec.go:120-170 | with any visited set of earlier offsets on the chain, the result is the one of the depth bound alone |
| `Names.DecodeName` | internal/dns/codec.go:110-116 | every input terminates with the decoded name and an offset that has strictly advanced within the message, or an error |
| `Names.LoopNeverDecodes` | internal/dns/codec.go:186-208 | a pointer chain that returns to one of its own offsets has no name under any hop bound |
| `Names.DecodeExact` | internal/dns/codec.go:110-228 | decoding succeeds with a name and an end if and only if a chain of label runs, linked by at most 20 pointers of two bytes with a 14-bit offset and closed by the root label, spells that name and ends there |
| `Names.DecodeEncode` | internal/dns/codec.go:45-170 | wherever an encoded name stands in a message, decoding gives its text without trailing dots and stops right behind it |
| `Names.CompressedName` | internal/dns/codec.go:186-208 | labels in front of a pointer to an encoded name decode to the labels and that name, and consume the labels and two bytes |
| `Names.EncodableIff` | internal/dns/codec.go:45-84 | a text is encoded if and only if it is not empty and, without trailing dots, is empty or at most 253 bytes of ASCII labels of 1 to 63 bytes |
| `Packets.MarshalRecord` | internal/dns/record.go:87-121 | a record is printed as owner, type, class, TTL, length and RDATA, or refused when a name or its RDATA cannot be printed |
| `Packets.ParseRecord` | internal/dns/record.go:41-84 | a record is read with its kind chosen by type and its RDATA length enforced |
| `Packets.RecordRoundTrip` | internal/dns/record.go:41-121 | a printed record, wherever it stands, parses to its canonical form and ends where its bytes end |
| `Packets.AddressWire` | internal/dns/ip_record.go:21-43 | four bytes or a mapped address are printed with TYPE 1 and four bytes, any other sixteen bytes with TYPE 28, any other length not at all |
| `Packets.ParsedKind` | internal/dns/record.go:41-84 | TYPE 1 and 28 parse as addresses, 2, 5 and 12 as names, all others as opaque, each with the fields and RDATA of its bytes |
| `Packets.RecordPrintsIff` | internal/dns/record.go:87-121 | exactly the records with an encodable owner (any for TYPE 41) and printable RDATA of at most 65535 bytes are printed |
| `Packets.RDataRoundTrip` | internal/dns/name_record.go:42-56 | printed RDATA of every kind parses back to the record in canonical form |
| `Packets.ParseQuestion` | internal/dns/question.go:41-54 | a question is read with its name normalized |
| `Packets.QuestionRoundTrip` | internal/dns/question.go:24-54 | a printed question parses to itself, lowercased and without trailing dots |
| `Packets.HeaderRoundTrip` | internal/dns/header.go:32-61 | a printed header parses to itself |
| `Packets.AppendRecords` | internal/dns/packet.go:66-74 | the records' wire forms are appended in order, or the first failure is reported |
| `Packets.Marshal` | internal/dns/packet.go:24-64 | a message is printed section by section under its own section counts |
| `Packets.ParsePacket` | internal/dns/packet.go:76-120 | the sections announced by the header are read one after the other, trailing bytes ignored |
| `Packets.PacketRoundTrip` | internal/dns/packet.go:24-120 | every printable message whose record kinds match their types and whose sections fit 16-bit counts parses back to its canonical form, consuming every byte |
| `Edns.ParseEDNSOptions` | internal/dns/edns.go:50-81 | allowed options of at most 4096 data bytes are collected up to the first incomplete one |
| `Edns.MarshalEDNSOptions` | internal/dns/edns.go:84-107 | the wire form of the options that are not oversized |
| `Edns.OptionsRoundTrip` | internal/dns/edns.go:50-107 | printed options parse to those a reader may keep |
| `Edns.EdnsOptionsRoundTrip` | internal/dns/edns.go:50-107 | parsing what MarshalEDNSOptions prints gives exactly the allowed options of at most 4096 bytes, in order |
| `Edns.ExtractOPT` | internal/dns/edns.go:185-209 | the first raw OPT record is unpacked; none is found exactly if there is none |
| `Edns.FirstOptDecides` | internal/dns/edns.go:185-209 | the first OPT record is the one unpacked, whatever follows it |
| `Edns.PackUnpack` | internal/dns/edns.go:175-204 | extended RCODE, version and DO survive packing into the TTL field |
| `Edns.OptIsRecord` | internal/dns/edns.go:144-172 | OPTRecord.Marshal prints what MarshalRecord prints for the same record |
| `Edns.OptRoundTrip` | internal/dns/edns.go:144-209 | an OPT record survives Marshal, ParseRecord and ExtractOPT with payload size, extended RCODE, version and DO intact, and its options filtered |
| `Truncation.SkipQNAME` | internal/server/truncate.go:122-148 | the skipping loop computes the end of a name's own bytes |
| `Truncation.SkipAgrees` | internal/server/truncate.go:122-148 | wherever a name decodes, skipping it ends at the decoder's offset |
| `Truncation.FindQuestionSectionEnd` | internal/server/truncate.go:98-117 | the loop walks over the announced number of questions, or to the end of the message |
| `Truncation.QuestionEndAgrees` | internal/server/truncate.go:98-148 | where the questions parse, the walk ends behind the last parsed question |
| `Truncation.TruncateUDPResponse` | internal/server/truncate.go:27-58 | short replies pass unchanged; others become a header, or a zero header and the question bytes |
| `Truncation.UdpReply` | internal/server/udp_server.go:234-239 | every reply to a parsed request is at most min(max(512, advertised size), 4096) bytes, and is untouched if it fits |
| `Truncation.PromisedHeaderIff` | internal/server/truncate.go:13-58 | a shortened reply has the response's ID and TC set if and only if its questions were dropped |
| `Truncation.CutHeader` | internal/server/truncate.go:72-92 | a reply cut to its header keeps ID and question count, has no records, and of the flags changes TC only |
| `Truncation.PrintedTruncation` | internal/server/truncate.go:27-58 | exactly when a printed message passes unchanged, keeps its question bytes or is cut to 12 bytes, with 512 for a limit that is not positive |
| `Truncation.PrintedHeaderLost` | internal/server/truncate.go:44-57 | every printed message that is too long while its header and questions fit is cut to a reply without the response's ID and TC |
| `Truncation.QuestionBytesKept` | internal/server/truncate.go:40-58 | what follows the header is exactly the bytes of the parsed questions |
| `Rewrites.PatchTransactionID` | internal/resolvers/types.go:79-93 | the first two bytes become the ID, all others stay, messages under two bytes are returned as they are |
| `Rewrites.PatchCommutes` | internal/resolvers/types.go:79-93 | patching a printed message prints the message with that ID |
| `Rewrites.PatchTwice` | internal/resolvers/types.go:62-93 | only the last patch counts |
| `Rewrites.AddEDNSToRequestBytes` | internal/dns/edns.go:238-268 | a request without OPT gets one appended and its additional count raised, saturating |
| `Rewrites.PrepareQueryBytes` | internal/resolvers/forwarding_resolver.go:305-332 | the ID is zeroed in a copy and EDNS is added when enabled |
| `Rewrites.PrepareCommutes` | internal/resolvers/forwarding_resolver.go:305-332 | preparing a printed query prints the query with ID 0 and, only with EDNS enabled and if it showed no OPT, one OPT record appended |
| `Rewrites.OptForBytes` | internal/dns/edns.go:138-168 | the appended record is the eleven bytes of an OPT record with the clamped payload size, flags zero (DO clear) and no options |
| `Rewrites.UpstreamReadsOpt` | internal/resolvers/forwarding_resolver.go:319-329 | the prepared query reads as one with DO clear, version 0 and no options |
| `TtlAging.AdjustTTLs` | internal/resolvers/forwarding_resolver.go:822-887 | the copy is walked and each non-OPT TTL aged in uint32; any walk that fails returns the message unchanged |
| `TtlAging.AgeInPlace` | internal/resolvers/forwarding_resolver.go:862-872 | one record's TTL field is overwritten in the array and nothing else |
| `TtlAging.AgingCommutes` | internal/resolvers/forwarding_resolver.go:822-887 | aging the bytes of a printed message prints the message with each non-OPT TTL aged and all else unchanged |
| `TtlFields.AgeRecordsExact` | internal/resolvers/forwarding_resolver.go:850-887 | where the record walk succeeds, it changes exactly the TTL fields that a skipping walk finds |
| `TtlFields.AgedExact` | internal/resolvers/forwarding_resolver.go:822-887 | for every byte string the result is the input, or the input with exactly its TTL fields aged |
| `TtlFields.AgingParses` | internal/resolvers/forwarding_resolver.go:822-887 | for every message that parses and has no pointer into a TTL field, the aged bytes parse to the aged message |
| `TtlFields.PrintedClear` | internal/dns/packet.go:24-64 | no name of a printed message reads a TTL field |
| `Cache.GetKeepsConsistent` | internal/resolvers/cache.go:147-177 | after a lookup, list and map hold the same keys, each once, within capacity |
| `Cache.SetKeepsConsistent` | internal/resolvers/cache.go:182-254 | after a store, list and map hold the same keys, each once, within capacity |
| `Cache.RunKeepsConsistent` | internal/resolvers/cache.go:115-254 | the same after every run of operations |
| `Cache.EvictOnce` | internal/resolvers/cache.go:244-254 | eviction after an insertion drops at most the least recently used key |
| `Cache.Inclusion` | internal/resolvers/cache.go:115-254 | on one trace, the recency list of a cache of capacity n stays a subsequence of that of capacity m >= n, and every hit of the small cache is the same hit in the large one |
| `Cache.RecentSurvives` | internal/resolvers/cache.go:147-254 | a key just hit or stored is found again with the same entry until it expires, after any run that uses fewer than capacity other keys |
| `Cache.RunExplained` | internal/resolvers/cache.go:115-254 | over every run the list is in the order of last use in the trace, and every entry is the one its key was last stored with, its lifetime capped at a day, or an hour if negative |
| `Cache.HitIsLastSet` | internal/resolvers/cache.go:147-216 | a hit returns value and type of the last store of its key in the trace, and the time since |
| `Cache.EvictsLeastRecent` | internal/resolvers/cache.go:182-254 | a store pushes out only from a full cache, only the key whose last use in the trace is the oldest |
| `Cache.MissLeavesNothing` | internal/resolvers/cache.go:154-166 | after a miss nothing is stored under the key |
| `Cache.NegativeDisabled` | internal/resolvers/cache.go:219-241 | without negative caching a negative response is not stored |
| `Cache.CountersExact` | internal/resolvers/cache.go:147-177 | over every run the counters are the numbers of hits, misses and hits on negative entries |
| `Cache.EmptyWithin` | internal/resolvers/cache.go:96-108 | new caches start in the relation that Inclusion keeps |
| `Cache.TTLCache.constructor` | internal/resolvers/cache.go:96-108 | a new cache is empty, of at least one entry |
| `Cache.TTLCache.GetWithAge` | internal/resolvers/cache.go:147-177 | a lookup misses, drops an expired entry, or returns value, age and type and makes the key most recent |
| `Cache.TTLCache.EvictOldest` | internal/resolvers/cache.go:244-254 | the loop drops from the front until the map fits |
| `Cache.TTLCache.Set` | internal/resolvers/cache.go:182-216 | a store with a positive capped TTL replaces or inserts the entry and evicts; any other is ignored |
| `Lifetimes.FindMinimumTTL` | internal/resolvers/forwarding_resolver.go:737-756 | the least nonzero TTL of the answers, 0 if there is none |
| `Lifetimes.ExtractSOAMinimum` | internal/resolvers/forwarding_resolver.go:776-817 | MINIMUM of the first usable SOA record, 0 on a malformed one |
| `Lifetimes.MinimumReadIff` | internal/resolvers/forwarding_resolver.go:790-808 | in RDATA laid out as section 3.3.13 of RFC 1035 says, compressed or not, a nonzero MINIMUM is read if and only if both names decode within the RDATA alone; otherwise 0 is |
| `Lifetimes.MinimumFallback` | internal/resolvers/forwarding_resolver.go:805-814 | when the names decode but the numbers are cut short, the last four bytes are read, if there are as many |
| `Lifetimes.MinimumIsRead` | internal/resolvers/forwarding_resolver.go:790-808 | with uncompressed names, MINIMUM is what is read, whatever the names and other numbers |
| `Lifetimes.PointerSoaIgnored` | internal/resolvers/forwarding_resolver.go:790-801 | when MNAME is a pointer out of the RDATA, MINIMUM is ignored, whatever it is |
| `Lifetimes.FirstSoaDecides` | internal/resolvers/forwarding_resolver.go:776-817 | the first usable SOA record decides |
| `Lifetimes.NegativeLifetimeIff` | internal/resolvers/forwarding_resolver.go:696-735 | NXDOMAIN and NODATA responses are cached under their own type, at most an hour, for MINIMUM seconds if and only if the deciding SOA record's names decode within its RDATA (or MINIMUM is 300), else for 300 seconds |
| `Lifetimes.CompressedSoaKept300` | internal/resolvers/forwarding_resolver.go:690-735 | every printed negative response whose SOA names point out of the RDATA is kept for 300 seconds, whatever its MINIMUM |
| `Lifetimes.PlainSoaLifetime` | internal/resolvers/forwarding_resolver.go:690-735 | every printed negative response with an uncompressed SOA is kept for MINIMUM seconds, 300 for 0, at most an hour |
| `Lifetimes.AnalyzeCacheDecision` | internal/resolvers/forwarding_resolver.go:696-735 | lifetime and entry type by RCODE and answers |
| `Lifetimes.PrintedDecision` | internal/resolvers/forwarding_resolver.go:696-735 | for every printed message: SERVFAIL 30 seconds, NXDOMAIN and empty answers without SOA 300, answers their least nonzero TTL up to a day, any other code not cached |
| `Lifetimes.PositiveLifetime` | internal/resolvers/forwarding_resolver.go:672-756 | a positive entry never outlives an answer with a nonzero TTL |
| `Lifetimes.DocumentedAgingIff` | internal/resolvers/forwarding_resolver.go:819-880 | the documented rule holds if and only if the TTL is at least the age, or it is 0 and the age is 2^32-1 |
| `Lifetimes.ZeroTTLWraps` | internal/resolvers/forwarding_resolver.go:866-873 | a record with TTL 0 is served with 2^32 minus the age |
| `Lifetimes.NoWrap` | internal/resolvers/forwarding_resolver.go:866-873 | below the entry's lifetime the uint32 subtraction is exact |
| `Lifetimes.ShownIff` | internal/resolvers/forwarding_resolver.go:866-871 | the uint32 subtraction shows more than the stored TTL if and only if the TTL is below the age |
| `Lifetimes.HitTTLs` | internal/resolvers/forwarding_resolver.go:696-887 | while an entry of any type lives, its aged bytes parse, and every record of every section shows the subtraction's value |
| `Lifetimes.PositiveHitTTLs` | internal/resolvers/forwarding_resolver.go:696-887 | while a positive entry lives, its aged bytes parse, and each answer with a nonzero TTL shows its stored TTL minus the whole seconds of age, at least 1 |
| `Lifetimes.ZeroTTLServed` | internal/resolvers/forwarding_resolver.go:737-756 | every printed positive response with a zero-TTL answer is, while its entry lives, served with 2^32 minus the age for that answer |
| `Lifetimes.SoaOutlived` | internal/resolvers/forwarding_resolver.go:696-735 | every printed negative response whose SOA record has a TTL below its MINIMUM is, once older than that TTL and until its entry expires, served with a wrapped TTL |
| `Responses.ValidateResponse` | internal/resolvers/forwarding_resolver.go:637-667 | the method decides what the next two rows pin down |
| `Responses.ValidatesIff` | internal/resolvers/forwarding_resolver.go:637-667 | accepted if and only if the response parses and its first question has the asker's name (ignoring case and one trailing dot), type and class |
| `Responses.ValidatesPrinted` | internal/resolvers/forwarding_resolver.go:637-667 | a printed message is accepted if and only if the name, type and class of its first question, as printed, are the asker's |
| `Responses.FieldsIgnoreId` | internal/resolvers/forwarding_resolver.go:822-887 | where the TTL fields of a message are does not depend on its ID |
| `Responses.PatchedIsDerived` | internal/resolvers/forwarding_resolver.go:215-244 | a fresh or shared response patched for the asker differs from the upstream message in the ID only |
| `Responses.AgedIsDerived` | internal/resolvers/forwarding_resolver.go:202-208 | a cached response aged and patched for the asker differs from the upstream message in the ID and TTL fields only, for every message |
| `Responses.AgedUnderId` | internal/resolvers/forwarding_resolver.go:202-208 | aging and then patching equals patching and then aging on messages that are clear of TTL fields under both IDs |
| `Responses.TTLsIgnoreId` | internal/resolvers/types.go:79-93 | patching the ID changes no record's TTL or type |
| `Responses.ParsesUnderId` | internal/resolvers/types.go:79-93 | a message, compressed or not, whose names read neither its ID nor a TTL field parses under any ID to the same message with that ID, and stays clear of TTL fields |
| `Forwarding.OneLeader` | internal/resolvers/forwarding_resolver.go:215-244 | two goroutines that lead calls for one key are the same |
| `Forwarding.InflightExactly` | internal/resolvers/forwarding_resolver.go:215-244 | a key is in the inflight map if and only if some goroutine is between inserting and deleting it |
| `Forwarding.DeletesOwnEntry` | internal/resolvers/forwarding_resolver.go:236-239 | a leader deletes the entry of its own call and no other |
| `Forwarding.DoneStays` | internal/resolvers/forwarding_resolver.go:231-235 | once published, a call's result never changes |
| `Forwarding.StepKeepsLinked` | internal/resolvers/forwarding_resolver.go:197-244 | every step of every goroutine keeps the singleflight bookkeeping |
| `Forwarding.StepKeepsSound` | internal/resolvers/forwarding_resolver.go:197-291 | every step keeps cached entries, published results and replies traceable to validated upstream messages |
| `Forwarding.StoreKeepsCacheSound` | internal/resolvers/forwarding_resolver.go:669-681 | storing adds an entry that holds a validated message, with its type, for no longer than its lifetime |
| `Forwarding.Reachable` | internal/resolvers/forwarding_resolver.go:197-291 | both invariants hold in every state any run reaches |
| `Forwarding.HeardExactly` | internal/resolvers/forwarding_resolver.go:271-278 | the recorded upstream messages are exactly those received during the run |
| `Forwarding.EveryInterleaving` | internal/resolvers/forwarding_resolver.go:215-244 | in every reachable state: whoever returns from a call returns its leader's error, or its response under the own ID; a waiter's call is published or still led; a leader holds the only inflight entry of its key |
| `Forwarding.JoinerServed` | internal/resolvers/forwarding_resolver.go:215-244 | in every interleaving a client that finds its key in flight and is not cancelled has returned, or can wake, once the leader has returned, with the leader's error or the leader's response under its own ID |
| `Forwarding.JoinerWakes` | internal/resolvers/forwarding_resolver.go:217-224 | a client that joins a leader about to publish a response can wake right after and returns it under its own ID |
| `Forwarding.LeaderReturns` | internal/resolvers/forwarding_resolver.go:231-291 | from every reachable state a leader that hears a message returns it under its own ID if it asks the leader's question and an error otherwise, and an error if its query fails |
| `Forwarding.LeaderFinishes` | internal/resolvers/forwarding_resolver.go:231-243 | a leader that is done asking can always publish, delete its entry and return its result |
| `Forwarding.NewClientLooksUp` | internal/resolvers/forwarding_resolver.go:197-213 | a client whose key is cached returns the cached message aged and under its own ID, any other goes on to ask |
| `Forwarding.EveryReplySound` | internal/resolvers/forwarding_resolver.go:197-291 | in every reachable state each response handed out carries the asker's ID and is otherwise, outside TTL fields, byte for byte a message received during the run whose first question has the asker's name, type and class |
| `Forwarding.HitIsLive` | internal/resolvers/forwarding_resolver.go:202-208 | a hit has the entry type of its message and is younger than the message's lifetime |
| `Forwarding.ReadableUnderId` | internal/resolvers/forwarding_resolver.go:202-208 | a stored message whose names read neither TTL fields nor the ID meets the condition of the next rows under every ID |
| `Forwarding.LiveReplyTTLs` | internal/resolvers/forwarding_resolver.go:202-208 | the aged and patched bytes of a live entry of any type parse, with every record of every section at the value of the uint32 subtraction |
| `Forwarding.EverWrapsIff` | internal/resolvers/forwarding_resolver.go:202-208 | a record is served with more than its stored TTL at some moment of its entry's life if and only if its TTL plus one second is below the entry's lifetime |
| `Forwarding.ServedRecords` | internal/resolvers/forwarding_resolver.go:202-208 | in every reachable state, on a hit of any type, each record of each section wraps if and only if its TTL is below the whole seconds of age, and otherwise shows the difference, at least 1 |
| `Forwarding.ServedTTLs` | internal/resolvers/forwarding_resolver.go:202-208 | in every reachable state the reply to a positive hit parses, with each nonzero answer TTL reduced by exactly the whole seconds of age, at least 1 |
| `Forwarding.PrintedReadable` | internal/resolvers/forwarding_resolver.go:202-208 | every message Marshal prints meets the condition of ServedRecords and ServedTTLs, under every ID |
| `Forwarding.ServesValidated` | internal/resolvers/forwarding_resolver.go:197-291 | every message that validates reaches a client of an idle resolver with the client's ID, and the next client with the same question hits it in the cache until its lifetime ends |
| `Upstreams.SelectedIsEligible` | internal/resolvers/forwarding_resolver.go:389-402 | the selected upstream is configured and not marked as failed, whatever failed before |
| `Upstreams.CheckIff` | internal/resolvers/forwarding_resolver.go:371-384 | an upstream may be tried if and only if it never failed or failed 3600 seconds ago |
| `Upstreams.SelectsFirstEligible` | internal/resolvers/forwarding_resolver.go:389-402 | the first eligible upstream is selected, and the table is cleared only when every upstream is in cooldown |
| `Upstreams.Failover` | internal/resolvers/forwarding_resolver.go:263-297 | while upstreams fail or are in cooldown the next one is tried, the first eligible one that answers is returned, and exactly the eligible ones up to it were asked |
| `Upstreams.CancelledStops` | internal/resolvers/forwarding_resolver.go:263-266 | from a round with a done context on nothing is asked, and the query ends in the context's error unless it had its reply before |
| `Upstreams.DistinctTurns` | internal/resolvers/forwarding_resolver.go:267-268 | upstreams configured once each take different turns, as Failover asks |
| `Upstreams.TriedInOrder` | internal/resolvers/forwarding_resolver.go:263-290 | upstreams are asked in rotation order, each round at most once |
| `Upstreams.RotationDistinct` | internal/resolvers/forwarding_resolver.go:267-268 | different rounds visit different positions |
| `Upstreams.EligibleStartIsTried` | internal/resolvers/forwarding_resolver.go:263-297 | an uncancelled query that starts at an eligible upstream asks it first and cannot end in "no upstream servers available" |
| `Upstreams.SequentialQueryAsks` | internal/resolvers/forwarding_resolver.go:252-297 | select, find and loop together: an uncancelled query asks at least one upstream |
| `Upstreams.NoEarlyRetry` | internal/resolvers/forwarding_resolver.go:371-418 | in every interleaving an upstream is let through within an hour of its recorded failure only if the table was cleared or the upstream was marked healthy since |
| `Upstreams.NoEarlyRetrySequential` | internal/resolvers/forwarding_resolver.go:371-418 | with heals only after passed checks, only a cleared table allows a retry within the hour |
| `Upstreams.RunIsSequential` | internal/resolvers/forwarding_resolver.go:252-298 | queries run one after the other heal only after passed checks |
| `Upstreams.RunNoEarlyRetry` | internal/resolvers/forwarding_resolver.go:252-298 | over sequential runs of whole queries none is retried within an hour of a recorded failure unless the whole table was cleared |
| `Upstreams.UpstreamHealth.CanTryUpstream` | internal/resolvers/forwarding_resolver.go:371-384 | eligible if never failed or failed an hour ago, in which case the record is dropped |
| `Upstreams.UpstreamHealth.SelectUpstream` | internal/resolvers/forwarding_resolver.go:389-402 | the first eligible upstream, or the first one after clearing the table |
| `Upstreams.UpstreamHealth.MarkFailed` | internal/resolvers/forwarding_resolver.go:405-411 | only the first failure is recorded |
| `Upstreams.UpstreamHealth.MarkHealthy` | internal/resolvers/forwarding_resolver.go:414-418 | the record is dropped |
| `Upstreams.UpstreamHealth.FindUpstreamIndex` | internal/resolvers/forwarding_resolver.go:335-342 | the position of a configured upstream, 0 for any other |
| `Upstreams.UpstreamHealth.QueryUpstreams` | internal/resolvers/forwarding_resolver.go:252-298 | the failover loop's outcome, failure table and rounds asked |
| `Trie.NodesAreStems` | internal/filtering/trie.go:82-98 | in a canonical shape a node exists exactly for the root and the stems of stored domains |
| `Trie.ShapeDetermined` | internal/filtering/trie.go:68-253 | canonical shapes with equal contents are equal |
| `Trie.ReversedLabels` | internal/filtering/trie.go:264-271 | the in-place swap loop reverses the labels |
| `Trie.WildcardMatchesSubdomains` | internal/filtering/trie.go:112-144 | a wildcard domain matches every subdomain |
| `Trie.SameSpelling` | internal/filtering/trie.go:256-260 | spellings that differ in case, outer white space or one trailing dot have the same path |
| `Trie.SamePath` | internal/filtering/trie.go:256-271 | two domains share a path if and only if they normalize to the same text |
| `Trie.AddedMatches` | internal/filtering/trie.go:68-144 | adding a domain makes exactly it match, and everything below it if it is a wildcard, and loses no match |
| `Trie.UnionMatches` | internal/filtering/trie.go:112-253 | a merged trie matches exactly what one of the two matches |
| `Trie.MatchesByName` | internal/filtering/trie.go:112-144 | a stored domain matches a name if and only if the normalized texts are equal or, for a wildcard, the name ends in a dot and the domain |
| `Trie.AddCanonical` | internal/filtering/trie.go:68-99 | adding keeps the shape canonical |
| `Trie.AddContents` | internal/filtering/trie.go:68-99 | adding stores one path and ORs its wildcard flag |
| `Trie.PruneCanonical` | internal/filtering/trie.go:189-207 | pruning upwards restores canonical shape and loses no domain |
| `Trie.RemoveShape` | internal/filtering/trie.go:155-208 | clearing and pruning deletes exactly one domain |
| `Trie.MergeCanonical` | internal/filtering/trie.go:233-253 | merging canonical shapes gives a canonical shape |
| `Trie.MergeContents` | internal/filtering/trie.go:233-253 | merging is pointwise union |
| `DomainTries.DomainTrie.constructor` | internal/filtering/trie.go:53-65 | a new trie is valid and empty |
| `DomainTries.DomainTrie.Descend` | internal/filtering/trie.go:82-89 | the walk creates exactly the missing nodes of the path |
| `DomainTries.DomainTrie.Add` | internal/filtering/trie.go:68-99 | the contents gain the domain's path with the flag ORed, and nothing for an empty domain |
| `DomainTries.DomainTrie.Contains` | internal/filtering/trie.go:112-144 | true if and only if the path is stored or a proper ancestor is stored as a wildcard |
| `DomainTries.DomainTrie.Size` | internal/filtering/trie.go:147-151 | the number of stored domains |
| `DomainTries.DomainTrie.Prune` | internal/filtering/trie.go:189-205 | the cleanup loop removes exactly the orphans on the path |
| `DomainTries.DomainTrie.Remove` | internal/filtering/trie.go:155-208 | exactly the given domain is deleted, and the result says whether it was there |
| `DomainTries.DomainTrie.Clear` | internal/filtering/trie.go:211-216 | the trie becomes empty |
| `DomainTries.DomainTrie.MergeNode` | internal/filtering/trie.go:233-253 | everything below a source node is merged in, in any order of children, with the size kept right |
| `DomainTries.DomainTrie.Merge` | internal/filtering/trie.go:219-231 | the contents become the union with the other trie's, which is unchanged and shares no node |
| `DomainTries.EqualTries` | internal/filtering/trie.go:68-253 | two tries with equal contents have equal nodes, flags and size, whatever their histories |
| `DomainTries.Perform` | internal/filtering/trie.go:68-231 | each public operation does to the contents what its edit says |
| `DomainTries.Replay` | internal/filtering/trie.go:68-253 | after any sequence of Add, Remove, Clear and Merge, the trie is valid and holds what the same edits make of an empty map |
| `DomainTries.CompareHistories` | internal/filtering/trie.go:68-253 | two tries whose histories leave equal contents have equal nodes, flags and size |
| `RateLimit.AllowKeepsInv` | internal/server/rate_limit.go:223-286 | tokens stay between 0 and burst, and keys within maxEntries |
| `RateLimit.ForgettingInvisible` | internal/server/rate_limit.go:223-286 | if rate * interval >= burst and the run's keys fit, every decision is that of a limiter that never forgets |
| `RateLimit.RequestConserves` | internal/server/rate_limit.go:223-273 | one request spends only tokens that were there or were earned since |
| `RateLimit.RunConserves` | internal/server/rate_limit.go:223-286 | over every run the admitted requests of a key are paid for by its level and earnings |
| `RateLimit.BoundBroken` | internal/server/rate_limit.go:223-286 | for every configuration with rate * interval < burst whose new buckets start full, some run exceeds the bound |
| `RateLimit.IntervalBound` | internal/server/rate_limit.go:223-286 | in every interval of time of every run of one limiter, in its own lock order, at most burst + rate * T requests are admitted per key |
| `RateLimit.TiersInOrder` | internal/server/rate_limit.go:98-114 | in every interleaving a query visits global, prefix and IP in this order, each at most once |
| `RateLimit.PassedIff` | internal/server/rate_limit.go:98-114 | in every interleaving a query passes if and only if every tier admits it |
| `RateLimit.TierAlone` | internal/server/rate_limit.go:98-114 | in every interleaving each tier decides like a limiter alone with the requests of its own lock order |
| `RateLimit.PassedAreAdmitted` | internal/server/rate_limit.go:98-114 | the queries that pass are among those each tier admitted |
| `RateLimit.WindowBound` | internal/server/rate_limit.go:98-114 | in every interleaving, with lock orders that may differ per tier, at most burst + rate * T passed queries have a reading in any interval of length T, per key of each enabled tier |
| `RateLimit.TierBounds` | internal/server/rate_limit.go:98-114 | the bound over all passed queries at the global tier, over those of each prefix and over those of each address |
| `RateLimit.AdmitsIff` | internal/server/rate_limit.go:223-273 | with room for its key, a request is admitted if and only if what was left plus rate per second since, up to burst, is at least one token, which is then spent |
| `RateLimit.AtCapacityIff` | internal/server/rate_limit.go:240-252 | at capacity a new key is admitted if and only if some key has been idle for an interval |
| `RateLimit.TokenBucketRateLimiter.constructor` | internal/server/rate_limit.go:199-217 | an empty limiter with the given rate and burst, and with 60 seconds and one key in place of an interval or capacity that is not positive |
| `RateLimit.TokenBucketRateLimiter.CleanupLocked` | internal/server/rate_limit.go:277-286 | exactly the keys idle for an interval are dropped, visited in any order |
| `RateLimit.TokenBucketRateLimiter.Take` | internal/server/rate_limit.go:249-273 | refill by elapsed time up to burst, then spend one token if there is one |
| `RateLimit.TokenBucketRateLimiter.Allow` | internal/server/rate_limit.go:223-273 | cleanup, the capacity branch and the bucket together make the step that the lemmas are about |
| `Sync.Database.ImportFromCluster` | internal/database/cluster.go:26-56 | all sections are replaced and the version bumped by triggers, or nothing changes |
| `Sync.Database.SetVersion` | internal/database/cluster.go:300-313 | the version is written, or unchanged on failure |
| `Sync.Database.GetVersion` | internal/database/db.go:103-110 | the version, or 0 when the read fails |
| `Sync.Syncer.RecordSuccess` | internal/cluster/cluster.go:332-341 | the success fields and nothing else |
| `Sync.Syncer.RecordError` | internal/cluster/cluster.go:343-349 | the error fields and nothing else |
| `Sync.Syncer.Import` | cmd/hydradns/main.go:245-251 | the import, then the version write |
| `Sync.Syncer.DoSync` | internal/cluster/cluster.go:248-293 | one sync of database and counters, for every combination of failures |
| `Sync.VersionNeverDecreases` | internal/cluster/cluster.go:248-293 | while version reads work, the version never decreases over any run of syncs |
| `Sync.SectionsMatchVersion` | cmd/hydradns/main.go:245-251 | while version writes work, the sections are the initial ones or a snapshot exported under exactly the secondary's version |
| `Sync.VersionIsGreatest` | internal/cluster/cluster.go:248-293 | while both work, the version is the greatest of the initial one and all importable exports fetched |
| `Sync.EverySyncCounted` | internal/cluster/cluster.go:332-349 | successes plus errors equal completed syncs, whatever fails |
| `Sync.StatusExact` | internal/cluster/cluster.go:332-349 | over every run errorCount grows exactly with failed fetches, due imports and version writes, syncCount with all others, and the status shows the last sync |
| `Sync.VersionDecreasesIff` | internal/cluster/cluster.go:258-265 | a sync lowers the version if and only if the read failed and an older export was imported and recorded |
| `Sync.MismatchIff` | cmd/hydradns/main.go:245-251 | a sync leaves a pair of version and sections that nobody exported if and only if a committed import loses its version write, unless the bumps land on a known pair |
| `Sync.LostWriteHidesExport` | internal/cluster/cluster.go:257-266 | after a lost version write, a newer export can be reported as up to date although it was never imported |

## Left out

- Sockets, UDP connection pools, TCP framing and deadlines: what `queryOne` brings back is arbitrary.
- REST handlers, models and middleware, the web interface, SQLite access and migrations: database
  calls appear as abstract steps that succeed or fail.
- Blocklist fetching and parsing and the policy engine's refresh: nothing is claimed across a refresh.
- Custom DNS, chained and filtering resolvers, DomainSet, statistics, configuration and per-IP TCP
  counts: they would only add easy members.
- Requests without a question: `validateResponse` indexes the first one, so `Forwarding` gives every
  asker a question.
- ForceSync overlapping a periodic sync, and local edits on a secondary: `Sync` runs one sync after
  the other.
- Error texts: every wire error is one value, and the errors of `Resolve` are one value.
- Counters and Go's int lengths are unbounded here; 16- and 32-bit wire arithmetic is explicit.
- Unicode: case folding and white space are the ASCII ones; decoded names are ASCII.
- `prefixKey` is an arbitrary function of the address; nil receivers are not modelled.
- The cache's linked list is a sequence of keys, so element pointers are not modelled; `Get` is
  `GetWithAge` without the age.
- Negative caching is always enabled in runs, as the constructor leaves it.
- Packets.AppendRecords: values, not a shared buffer; that `out` is updated through a pointer is not captured.
- TtlAging.AdjustTTLs: whole seconds of age are the integer quotient and are taken modulo 2^32; Go leaves the conversion of a larger float unspecified.
- RateLimit.WindowBound: token arithmetic is over the reals, so float64 rounding is not captured; the readings of a tier, taken before its lock, are ordered as its lock is.
- RateLimit.ForgettingInvisible: token arithmetic is over the reals, so float64 rounding is not captured.
- DomainTries.DomainTrie.Merge: a trie is not merged into itself, which would wait for its own lock; two tries never share nodes.
- Forwarding.ServedRecords: asks that the message parses clear of TTL fields both as stored and under the asker's ID; Forwarding.ReadableUnderId gives a condition on the stored message alone.
- Forwarding.ServedTTLs: asks the same as Forwarding.ServedRecords.
- Rewrites.PatchTransactionID: a value, so that the same slice is returned when the ID already matches is not captured.
- Upstreams.SequentialQueryAsks: with other queries in between, the selected upstream may have failed again before the loop starts.
