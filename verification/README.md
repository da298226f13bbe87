# Packet classifier: verified model

A Dafny model of the stateful core of a DPDK packet classifier, with proofs about every input, every
interleaving or every reachable state of the parts it covers:

- **TCP stream reassembly** (`TcpReassembly`, `TcpReassembler`, `TcpAccounting`, `TcpContent`, `TcpOrder`, `TcpRuns`,
  `TcpOverlaps`, `TcpWindows`): 32-bit wrapping sequence numbers, out-of-order queue, overlap trimming, drain loop, four
  resource caps, stream recognition.
- **Host name extraction** (`HostExtraction`, `ClientHello`, `HostPipeline`): the TLS SNI and HTTP Host parsers, a
  ClientHello printer, and the parsers behind the reassembler.
- **Hot reload** (`ReloadProtocol`, `TableManager`, `DpiLinks`): barrier, pause counter, table publication, deferred
  reclamation, SPI to DPI links.
- **Flow table** (`FlowStore`, `FlowPurge`, `FlowTable`, `FlowRaces`, `FlowEviction`): bounded map with free list, TTL
  purge, migration, concurrent inserts, purges beside inserts.
- **DPI matching** (`HostnameCache`, `DpiMatching`): the generation-stamped host name cache in front of the DPI table.
- **SPI rules** (`Prefix`, `RuleMatching`, `RuleTable`, `MemberFilter`, `TupleSpace`, `BurstResolution`, `ParsePartition`):
  compilation into ACL chunks, prefilter, tuple-space table, batched resolution of a burst, parse-work split.
- **Burst processing** (`PacketDecision`, `BurstConservation`): what is decided about a packet, where every packet of a
  worker iteration goes and how it is counted.

`Machine` holds fixed-width arithmetic, `Packet` the parsed packet fields. `dafny verify dfyconfig.toml` checks all of it.

Code that updates state in place is modelled by classes and methods (`TcpReassembler.TcpStreamReassembler`,
`FlowTable.FlowTable`, `HostnameCache.HostnameCache`, `TableManager.Manager`, `BurstConservation.Worker`, and the array
methods of `RuleTable`, `MemberFilter`, `TupleSpace`, `BurstResolution` and `DpiLinks`), each proved against a function on
values; the lemmas are about those functions. Libraries appear as contracts:

- `rte_acl_classify`: a function of its input that answers zero when no rule of the context accepts it and otherwise the
  userdata of an accepting rule of highest priority (`RuleMatching.Answers`); the build refuses priorities outside its range.
- `rte_hash`: a map from keys to data pointers that puts a new key at an unused position of its choice, also beyond the number of
  slots, or refuses it.
- `rte_member`: a set without false negatives, all of whose insertions succeeded (`MemberFilter.Remembers`).
- Hyperscan: a list of reported pattern ids per name, in any order. Two uses of it are taken to be sound: the thread-local
  scratch, which is allocated for the first database a thread sees and kept for later ones
  (include/dpdk/dpi/dpi_rule_engine.cpp:212-218), and the pattern ids, which are assigned before the constructor sorts the
  filters again with an unstable sort (include/dpdk/dpi/dpi_rule_engine.cpp:93, 336-370).
- `std::unordered_map` over stream keys: a map. Its hash reads the key's padding byte too; equal keys are taken to hash alike.
- Clocks, device send results, quit flags, MAC lookups and fragment completion: parameters.

## Where code and promise part

Each of these is stated as a lemma: a counterexample, and wherever it was found the exact condition under which the code
does meet the promise.

- Host name inspection is documented as independent of TCP segmentation. What is inspected is a window of consecutive
  segments from the first one to arrive that looks like a start (`TcpWindows.AnswersAreWindows`), and all such windows
  occur (`TcpWindows.WindowIsReached`). The whole stream is seen in every order if and only if the first segment looks like
  a start and no later one does (`TcpWindows.WholeIffValid`). A stream whose first segment is not recognised, such as
  fewer than six bytes of a ClientHello (`HostPipeline.RecordStartIff`), is never inspected (`TcpWindows.NoStartNoAnswer`);
  a later segment that looks like a start and comes first replaces it (`TcpWindows.LaterStartIsNotWhole`,
  `HostPipeline.PipelinedRequestMisleads`). No wrong name is ever reported if and only if the windows at later start-like
  segments name no other host and, for HTTP, no cut falls strictly inside the Host value of a recognised request
  (`HostPipeline.HttpIndependentIff`, `HostPipeline.TlsIndependentIff`).
- Reassembly is order independent for consecutive cuts, among handshakes, acknowledgements and other traffic
  (`TcpRuns.OrderIndependence`), and for both directions at once (`TcpRuns.DuplexIndependence`). For overlapping pieces it
  is if and only if no path over them ends inside others whose beginnings it has jumped over
  (`TcpOverlaps.OverlapsReassembleIff`): such pieces, if they come first, stay in the queue unused. A payload in the other
  direction takes the watched direction down with it if and only if its own guards refuse it (`TcpRuns.AsideErasesIff`,
  `TcpOrder.RefusedIff`).
- A retransmission of a queued segment is charged against queue and budget before it is recognised. It is recognised if and
  only if there is room for one more such segment (`TcpOrder.RetransmissionRecognisedIff`); otherwise the stream is erased
  (`TcpOrder.RetransmissionErasesIff`).
- The TLS length guard admits 5 bytes and then byte 5 is read; `HostExtraction.ExtractTlsSni` names exactly those
  payloads, and `HostPipeline.ReassembledPayloadsAreSafe` shows that the reassembler never delivers one.
- Purge and migration take hash position i to own slot i. Inserts establish that only by accident
  (`FlowStore.AlignmentIsAccidental`). A purge scan leaves a sound table if and only if the keys at the positions it clears own
  the slots it clears, in whatever arrangement (`FlowPurge.PurgeSoundIff`), and removes exactly the stale flows if and only
  if those positions are the positions of the stale flows (`FlowPurge.PurgeExactIff`); two inserts suffice to purge the
  wrong flow (`FlowPurge.WrongFlowPurged`). A migration keeps exactly the flows if and only if every key's word is the one
  at its position (`FlowPurge.MigrationExactIff`). Flows at positions beyond the slots are neither purged nor migrated
  (`FlowPurge.BeyondIsNeverPurged`, `FlowPurge.BeyondIsNeverMigrated`).
- Concurrent inserts, in any number and any interleaving, leave slots and free list a partition if and only if no two of them
  missed on one key and both registered it (`FlowRaces.RacesSoundIff`); such interleavings exist from every table with room
  (`FlowRaces.LossIsReachable`). Beside a purge, an insert that has found its slot may write it after the slot went to
  another key (`FlowEviction.MisdirectedWrite`); `FlowEviction.FoundSlotKept` says exactly until when the slot is its own.
- The reload barrier can be raised while a worker is still leaving the previous wait, and is not awaited at all with one
  worker; from every initial state both let one burst see two configurations (`ReloadProtocol.TornBurstIsReachable`,
  `ReloadProtocol.SingleWorkerReloadTearsABurst`).
- The SPI table manager is commented as freeing a table at the next swap; the code frees it at the third
  (`TableManager.ReclaimedByTheThirdSwap`), which is the safe direction.
- Generation stamps restart at 1 when DPI is disabled and enabled again, so old results are served
  (`DpiMatching.ReenablingServesStaleResults`); a reload is safe if and only if nothing is cached under the stamp it gets
  (`DpiMatching.ReloadSafeIff`). The cache serves a set of names rightly if and only if it can tell them apart
  (`DpiMatching.NamesServedIff`), and a table if and only if 16 bits can index its matches
  (`DpiMatching.SecondAnswerRightIff`). Negative results are stored but never served
  (`DpiMatching.NegativeResultsAreNeverServed`). Names under four bytes are compared by hash alone, and hashes collide
  (`HostnameCache.DistinctNamesCollide`). A filter of priority 0xFFFFFFFF is never chosen (`DpiMatching.BestHitIsMinimum`).
- The rule table's move constructor drops the tuple-space table and the flag for destinations that cannot be enumerated, and
  the compiler returns its table through that constructor. `MemberFilter.MovedTableLosesExactly` says which packets the
  prefilter then loses; `MemberFilter.PortOnlyRuleIsLost` gives two rules that show it.
- The prefilter reads the IPv4 field of IPv6 packets, which is zero: such a packet is kept if and only if some filter covers
  address 0.0.0.0 (`MemberFilter.Ipv6KeptIff`).
- ACL result words hold 16-bit indices: they read back exactly below 65535 (`RuleMatching.UserdataReadsBack`).
- Bursts hold up to 256 packets, the bulk matcher takes 64: for tables as deployed, batched and per-packet resolution agree if
  and only if no later candidate has a match and no skipped packet is matched by a filter with an unbounded destination
  (`BurstResolution.BatchedResolutionAgreesIff`).
- Tuple-space keys are stored in host byte order as written, packets are looked up in network byte order and canonical
  direction: a filter is found for its own packets if and only if its two keys coincide
  (`TupleSpace.TssFindsItsPacketsIff`), and for its own packets only if and only if its key is out of canonical order or it is
  a palindrome from an endpoint to itself (`TupleSpace.TssOnlyItsPacketsIff`). A hit is taken before the ACL; the
  resolution is then precedence matching if and only if the ACL finds a match of the same precedence
  (`BurstResolution.ResolveByPrecedenceIff`).
- With the reclassify overflow policy a drop rule is enforced if and only if the key is known or the flow table takes it;
  otherwise the packet counts as unmatched and is forwarded unless unmatched packets are dropped
  (`PacketDecision.DropRuleEnforcedIff`).
- The response-direction test before inspection never decides (`PacketDecision.ResponseTestNeverDecides`).
- In the parse-work split the branch for a worker that took no group is never reached (`ParsePartition.TakeSpan`).

## Model

| member | source | states |
|---|---|---|
| `Machine.ZeroDistance` | include/dpdk/spi/spi_tcp_reassembly.cpp:79-82 | Serial-number distance is zero exactly between equal sequence numbers. |
| `Machine.DistanceIsOffsetDifference` | include/dpdk/spi/spi_tcp_reassembly.cpp:79-82 | Across a wrap, the distance of positions less than 2^31 apart is their true distance (section 3.4 of RFC 9293). |
| `TcpReassembly.TrimIsShorterThanPayload` | include/dpdk/spi/spi_tcp_reassembly.cpp:190-199 | An overlapping segment that reaches past the next expected byte is trimmed by less than its length. |
| `TcpContent.KeyIgnoresDirection` | include/dpdk/spi/spi_tcp_reassembly.cpp:50-65 | Both directions of a connection share the stream key and get opposite direction indices. |
| `TcpContent.KeysSeparateConnections` | include/dpdk/spi/spi_tcp_reassembly.cpp:50-65 | Equal keys mean the same two endpoints, in the same or the opposite order. |
| `TcpContent.Ipv4EndpointsAreAddresses` | include/dpdk/spi/spi_tcp_reassembly.cpp:50-65 | For IPv4 the endpoint determines address and port. |
| `TcpContent.OnlySynShifts` | include/dpdk/spi/spi_tcp_reassembly.cpp:219-220 | The SYN bit, and no other flag, moves the first byte of the payload by one sequence number. |
| `TcpReassembler.StateBytes` | include/dpdk/spi/spi_tcp_reassembly.cpp:16-25 | The summing loops compute the payload bytes a stream holds. |
| `TcpReassembler.TcpStreamReassembler.constructor` | include/dpdk/spi/spi_tcp_reassembly.cpp:27-33 | A new reassembler is empty and accounted for. |
| `TcpReassembler.TcpStreamReassembler.QueuePending` | include/dpdk/spi/spi_tcp_reassembly.cpp:117-135 | Refuses at the caps, recognises a queued sequence number, otherwise queues and charges the bytes. |
| `TcpReassembler.TcpStreamReassembler.AppendAndDrain` | include/dpdk/spi/spi_tcp_reassembly.cpp:137-167 | The nested drain loop terminates and computes the drain of the specification. |
| `TcpReassembler.TcpStreamReassembler.AddSegment` | include/dpdk/spi/spi_tcp_reassembly.cpp:169-200 | Every branch for one segment: base, append, queue, overlap check, trim. |
| `TcpReassembler.TcpStreamReassembler.AccountRemove` | include/dpdk/spi/spi_tcp_reassembly.cpp:92-94 | Subtracts the stream's bytes, saturating at zero, and exactly when they are accounted for. |
| `TcpReassembler.TcpStreamReassembler.Erase` | include/dpdk/spi/spi_tcp_reassembly.cpp:219-228 | Removes one stream and its bytes, keeps the invariant. |
| `TcpReassembler.TcpStreamReassembler.PurgeExpired` | include/dpdk/spi/spi_tcp_reassembly.cpp:232-244 | Removes exactly the streams idle beyond the timeout, whatever the iteration order. |
| `TcpReassembler.TcpStreamReassembler.Insert` | include/dpdk/spi/spi_tcp_reassembly.cpp:202-230 | One call: new state and answer are those of the specification, and the invariant is kept. |
| `TcpReassembler.TcpStreamReassembler.Deliver` | include/dpdk/spi/spi_tcp_reassembly.cpp:209-230 | The part of Insert after the purge: admission, storing the segment, erasing on fatal outcomes. |
| `TcpAccounting.DrainCorrect` | include/dpdk/spi/spi_tcp_reassembly.cpp:148-166 | A successful drain leaves no queued segment at the next sequence number, keeps numbers distinct and bytes constant. |
| `TcpAccounting.DrainIgnoresQueueOrder` | include/dpdk/spi/spi_tcp_reassembly.cpp:148-166 | The drain's result does not depend on the order of the pending vector. |
| `TcpAccounting.AddCorrect` | include/dpdk/spi/spi_tcp_reassembly.cpp:169-200 | Any segment keeps the caps and distinct numbers, and charges exactly the bytes it stores. |
| `TcpAccounting.DiscardIsExact` | include/dpdk/spi/spi_tcp_reassembly.cpp:92-94 | Erasing a stream never subtracts more than is buffered. |
| `TcpAccounting.InsertedAccounted` | include/dpdk/spi/spi_tcp_reassembly.cpp:202-230 | One call keeps: buffered bytes equal the sum over live streams, within the budget; all caps hold. |
| `TcpAccounting.RunAccounted` | include/dpdk/spi/spi_tcp_reassembly.cpp:84-94 | The same in every reachable state, for every sequence of calls and of clean-ups between bursts. |
| `TcpAccounting.SurvivesPurgeIff` | include/dpdk/spi/spi_tcp_reassembly.cpp:232-244 | A stream survives a purge, as it is, if and only if ageing is off or its unsigned age is within the timeout. |
| `TcpAccounting.CleanupAbsorbedIff` | include/dpdk/spi/spi_pipeline.cpp:1649-1651 | A clean-up leaves no trace after a later purge if and only if that purge finds idle whatever the clean-up found idle. |
| `TcpContent.AddKeepsTruth` | include/dpdk/spi/spi_tcp_reassembly.cpp:169-200 | A true slice of a stream, however it overlaps, keeps the contiguous payload a true slice from the base. |
| `TcpContent.TrueSlicesNeverConflict` | include/dpdk/spi/spi_tcp_reassembly.cpp:96-115 | The overlap check reports a conflict on a true slice exactly when conflicts are dropped and it starts before the base. |
| `TcpContent.InsertedKeepsTruth` | include/dpdk/spi/spi_tcp_reassembly.cpp:202-230 | One call keeps all streams true, and the payload handed to inspection occurs in the sender's stream. |
| `TcpContent.RunKeepsTruth` | include/dpdk/spi/spi_tcp_reassembly.cpp:137-200 | In every state reachable by calls and clean-ups each contiguous payload is the sender's bytes from the base, next is base plus length mod 2^32. |
| `TcpOrder.Arrive` | include/dpdk/spi/spi_tcp_reassembly.cpp:117-200 | One segment of a recognised cut is accepted if and only if there is room for it, and then queue and prefix are what the set of arrived segments determines. |
| `TcpOrder.OverlapConflictsIff` | include/dpdk/spi/spi_tcp_reassembly.cpp:96-115 | The overlap check reports a conflict if and only if conflicts are dropped and the payload starts before the base or differs at some byte both have; for any payload. |
| `TcpOrder.RefusedIff` | include/dpdk/spi/spi_tcp_reassembly.cpp:117-200 | A payload is refused if and only if, ahead of the next byte, queue cap, budget or another payload of that number stand against it; at the next byte, budget or the bytes it connects; behind it, a differing byte or the same for the rest. It is called conflicting exactly for a rival payload or a differing byte. |
| `TcpOrder.InsertOutcome` | include/dpdk/spi/spi_tcp_reassembly.cpp:202-230 | A whole call: ignored, turned away, refused as conflicting, refused or accepted, each exactly when; what is erased, stamped and handed out. |
| `TcpOrder.OverlapEvasionIsRefused` | include/dpdk/spi/spi_tcp_reassembly.cpp:188-226 | A segment that contradicts a received byte is reported as conflicting and its connection erased. |
| `TcpRuns.RunGrid` | include/dpdk/spi/spi_tcp_reassembly.cpp:117-230 | After any schedule of segments of a recognised cut among packets of the same connection and any other traffic, each admitted when it came, with no silence beyond the idle timeout, the stream is what the set of arrived segments determines, and so was every answer. |
| `TcpRuns.OrderIndependence` | include/dpdk/spi/spi_tcp_reassembly.cpp:117-230 | Once each consecutive segment has arrived and been admitted at least once, in any order, among SYNs, bare acknowledgements, the other direction and other connections, the contiguous payload is the whole stream and the queue is empty. |
| `TcpRuns.BothTolerated` | include/dpdk/spi/spi_tcp_reassembly.cpp:202-230 | If both directions are scheduled streams whose segments are admitted when they come, no payload of either takes the connection down. |
| `TcpRuns.DuplexIndependence` | include/dpdk/spi/spi_tcp_reassembly.cpp:202-230 | Both directions of one connection, cut and interleaved in any way, are reassembled completely. |
| `TcpRuns.ProvisionedIndependence` | include/dpdk/spi/spi_tcp_reassembly.cpp:84-94 | Order independence for runs whose bytes and connections fit the limits as a whole. |
| `TcpRuns.AsideErasesIff` | include/dpdk/spi/spi_tcp_reassembly.cpp:221-226 | A payload in the other direction erases the connection if and only if the guards of its own direction refuse it. |
| `TcpOrder.RetransmissionRecognisedIff` | include/dpdk/spi/spi_tcp_reassembly.cpp:117-135 | A queued segment offered again changes nothing; it is recognised if and only if queue and budget have room for one more, and refused otherwise. |
| `TcpOrder.RetransmissionErasesIff` | include/dpdk/spi/spi_tcp_reassembly.cpp:202-230 | At the level of Insert: with room the stream is only refreshed, without room it is erased. |
| `TcpOverlaps.DeliveryFollowsFront` | include/dpdk/spi/spi_tcp_reassembly.cpp:117-200 | However true pieces of a stream overlap, one direction inspects exactly the bytes before a front that takes pieces over it or beginning at it. |
| `TcpOverlaps.FrontOrderFreeIff` | include/dpdk/spi/spi_tcp_reassembly.cpp:148-166 | Every delivery of a set of overlapping pieces brings that front to the first missing byte if and only if no path over the pieces ends inside others whose beginnings it has jumped over. |
| `TcpOverlaps.OverlapsReassembleIff` | include/dpdk/spi/spi_tcp_reassembly.cpp:117-200 | The same for the reassembler: over every delivery, in any order and with repetitions, everything up to the first missing byte is inspected if and only if nothing can be bypassed. |
| `TcpOverlaps.LaminarIsOrderFree` | include/dpdk/spi/spi_tcp_reassembly.cpp:148-166 | Nothing can be bypassed if no piece begins inside another and ends outside of it. |
| `TcpOverlaps.TwoPiecesBypassIff` | include/dpdk/spi/spi_tcp_reassembly.cpp:148-166 | A start and a later piece: it can be bypassed if and only if it straddles the start's end. |
| `TcpWindows.AnswersAreWindows` | include/dpdk/spi/spi_tcp_reassembly.cpp:169-230 | For any cut, over all runs and whatever the room, time and order: every answer in the watched direction is nothing or consecutive segments from one that looks like a start. |
| `TcpWindows.WindowIsReached` | include/dpdk/spi/spi_tcp_reassembly.cpp:169-230 | Every such window is the answer of some run. |
| `TcpWindows.NamesOnlyIff` | include/dpdk/spi/spi_pipeline.cpp:1298-1322 | For any name extractor and any cut: no answer of any run names anything but what the whole stream names if and only if every window that opens at a start-like segment agrees with the whole. |
| `TcpWindows.WholeIffValid` | include/dpdk/spi/spi_tcp_reassembly.cpp:169-188 | Every complete run of a cut ends with the whole stream if and only if its first segment looks like a start and no later one does. |
| `TcpWindows.LaterStartIsNotWhole` | include/dpdk/spi/spi_tcp_reassembly.cpp:169-188 | A later segment that looks like a start, delivered first, leaves the stream incomplete for good. |
| `TcpWindows.NoStartNoAnswer` | include/dpdk/spi/spi_tcp_reassembly.cpp:175-178 | As long as no packet of a direction looks like a start, nothing of it is ever inspected. |
| `HostExtraction.FindHostHeaderValue` | include/dpdk/spi/spi_packet_parser.cpp:279-313 | The search loop finds the first Host header's value, or nothing. |
| `HostExtraction.ExtractHttpHost` | include/dpdk/spi/spi_packet_parser.cpp:588-597 | A name is found exactly when a known method is followed by a Host header with a value; it is the first such value, inside the inspected 256 bytes, without leading space or carriage return; no read is out of bounds. |
| `HostExtraction.FindHostIsFirst` | include/dpdk/spi/spi_packet_parser.cpp:279-313 | The search answers with the first Host header that has a value, and with nothing exactly when there is none. |
| `HostExtraction.HttpHostIff` | include/dpdk/spi/spi_packet_parser.cpp:588-597 | In the first 256 bytes of a payload that begins like a request, exactly the value of the first Host header that has one, spelled out byte by byte. |
| `HostExtraction.HttpHostOfPrefix` | include/dpdk/spi/spi_packet_parser.cpp:588-597 | On any prefix the parser answers with as much of the value as is visible. |
| `HostExtraction.MisleadingExactlyInsideValue` | include/dpdk/spi/spi_packet_parser.cpp:588-597 | A prefix gives a wrong name exactly when it ends strictly inside the value. |
| `HostExtraction.HostReadsBack` | include/dpdk/spi/spi_packet_parser.cpp:279-313 | Round trip: the value of the first Host header of any request is returned without leading spaces. |
| `HostExtraction.FindSniExtension` | include/dpdk/spi/spi_packet_parser.cpp:224-255 | The extension walk terminates and finds what the specification finds. |
| `HostExtraction.ExtractTlsSni` | include/dpdk/spi/spi_packet_parser.cpp:573-586 | Any name lies inside the payload; the only out-of-bounds reads are on 5-byte payloads that look like a TLS record. |
| `HostExtraction.TlsSniIff` | include/dpdk/spi/spi_packet_parser.cpp:573-585 | In the first 512 bytes of a ClientHello record, exactly the first complete non-empty name in an extension of type zero, behind the three sections, spelled out byte by byte. |
| `ClientHello.ParseOfPrefix` | include/dpdk/spi/spi_packet_parser.cpp:168-255 | The answer on every prefix of a printed ClientHello of any length (section 4.1.2 of RFC 8446, section 3 of RFC 6066). |
| `ClientHello.RoundTrip` | include/dpdk/spi/spi_packet_parser.cpp:573-586 | For any session id, ciphers, compressions and leading extensions, parsing a printed record of at most 512 bytes returns the host name. |
| `HostPipeline.ReassembledPayloadsAreSafe` | include/dpdk/spi/spi_tcp_reassembly.cpp:202-230 | After any calls and clean-ups, no delivered payload makes the TLS parser read out of bounds. |
| `HostPipeline.PayloadAlongARun` | include/dpdk/spi/spi_pipeline.cpp:1298-1312 | Along any schedule of a recognised cut our segments are accepted and every answer about the stream is the prefix of the leading segments seen. |
| `HostPipeline.HttpAnswersAlongARun` | include/dpdk/spi/spi_pipeline.cpp:1298-1322 | Along any schedule of a recognised cut every HTTP answer is the visible part of the right value; without a cut inside it, it is the right name. |
| `HostPipeline.HttpIndependentIff` | include/dpdk/config/dpdk_config.hpp:271 | For any cut, over all runs, no HTTP answer is wrong if and only if no cut falls strictly inside the Host value (where the first segment is recognised) and no window that opens at a later start-like segment names another host. |
| `HostPipeline.PipelinedRequestMisleads` | include/dpdk/spi/spi_tcp_reassembly.cpp:169-188 | Two requests cut between them: no cut inside the Host value, and yet a run that names the wrong host. |
| `HostPipeline.TlsIndependentIff` | include/dpdk/config/dpdk_config.hpp:271 | For any cut of a ClientHello, over all runs, no TLS answer is wrong if and only if no window that opens at a later start-like segment names another host. |
| `HostPipeline.RecordStartIff` | include/dpdk/spi/spi_tcp_reassembly.cpp:67-77 | A leading part of a ClientHello is recognised as a start if and only if it has six bytes and record version 3. |
| `HostPipeline.StreamStartIff` | include/dpdk/spi/spi_tcp_reassembly.cpp:67-77 | A stream starts exactly with one of seven request lines or the six bytes of a ClientHello record. |
| `HostPipeline.ParserKnowsTheMethods` | include/dpdk/spi/spi_packet_parser.cpp:267-275 | The parser accepts exactly payloads that begin with four bytes of one of these request lines, so all that start a stream as one. |
| `HostPipeline.TlsAnswersAlongARun` | include/dpdk/spi/spi_pipeline.cpp:1298-1322 | However a recognised cut of a ClientHello is ordered, every TLS answer is nothing until the name is complete within the inspected bytes, and the right name from then on. |
| `ReloadProtocol.StepKeeps` | include/dpdk/spi/spi_pipeline.cpp:583-634 | Every step of main or a worker keeps the protocol invariant. |
| `ReloadProtocol.ReloadIsSafe` | include/dpdk/spi/spi_pipeline.cpp:583-634 | For two or more workers and a settled counter, in every interleaving: nobody is in a burst while tables are published, a burst sees one configuration, the barrier is up exactly from raising to lowering. |
| `ReloadProtocol.ReloadIsAllOrNothing` | include/dpdk/spi/spi_pipeline.cpp:538-634 | Over every run, between two consecutive idle moments either no table has changed or both are of one configuration that passed every check, with the flow table old or migrated for it. |
| `ReloadProtocol.ReloadCanComplete` | include/dpdk/spi/spi_pipeline.cpp:583-634 | From every idle state with running workers a schedule parks them all and publishes all three tables of any configuration. |
| `ReloadProtocol.WorkerResumes` | include/dpdk/spi/spi_pipeline.cpp:1788-1812 | From there every worker can leave the wait and load the three new tables. |
| `ReloadProtocol.DrainedIsSettled` | include/dpdk/spi/spi_pipeline.cpp:1789-1808 | A pause counter of zero means no worker is on its way out of the wait. |
| `ReloadProtocol.UnsettledIsReachable` | include/dpdk/spi/spi_pipeline.cpp:1799-1807 | From every initial state one timed-out reload can leave a worker between wait and decrement. |
| `ReloadProtocol.UnsettledReloadTearsABurst` | include/dpdk/spi/spi_pipeline.cpp:1799-1807 | From every such state, some schedule lets a burst mix old and new tables. |
| `ReloadProtocol.TornBurstIsReachable` | include/dpdk/spi/spi_pipeline.cpp:583-634 | So from every initial state, with any number of workers, some schedule tears a burst. |
| `ReloadProtocol.SingleWorkerReloadTearsABurst` | include/dpdk/spi/spi_pipeline.cpp:592-612 | With one worker, from the initial state, the first reload can tear its burst. |
| `TableManager.Manager.Init` | include/dpdk/spi/spi_rule_table_manager.hpp:62 | Stores the first table. |
| `TableManager.Manager.Swap` | include/dpdk/spi/spi_rule_table_manager.hpp:48-54 | Moves the three pointers on and destroys the oldest. |
| `TableManager.HistoryInClosedForm` | include/dpdk/spi/spi_rule_table_manager.hpp:37-67 | After any history the last three tables are alive and everything older is destroyed, in order. |
| `TableManager.ReclaimedByTheThirdSwap` | include/dpdk/spi/spi_rule_table_manager.hpp:48-54 | A table is destroyed exactly by the third swap after its publication, and never twice. |
| `TableManager.TablesAreConserved` | include/dpdk/spi/spi_rule_table_manager.hpp:48-67 | Every table is in exactly one of active, retired, previously retired, destroyed. |
| `DpiLinks.FindByFilterGroup` | include/dpdk/dpi/dpi_rule_engine.cpp:298-309 | The first filter of the named group, or nothing for an empty or unknown name. |
| `DpiLinks.ResolveDpiLinks` | include/dpdk/spi/spi_rule_engine.cpp:1020-1045 | Succeeds exactly when every named DPI group exists; what it has written on success and on failure. |
| `DpiLinks.ReportedLinksAreConfigured` | include/dpdk/spi/spi_rule_engine.cpp:1020-1045 | However a packet is resolved, by tuple space or ACL, alone or in a burst, the reported link is absent or below the DPI filter count and names the configured group. |
| `DpiLinks.LinksHoldInEveryBurst` | include/dpdk/spi/spi_pipeline.cpp:566-634 | In every interleaving under the quiescence hypotheses, a burst resolves packets to links below the filter count of the DPI table it has loaded. |
| `DpiLinks.LinksAreResolvedOnce` | include/dpdk/spi/spi_rule_engine.cpp:1020-1045 | Resolving again, against any table, succeeds and changes nothing. |
| `FlowStore.CanonicalKeysAreConnections` | include/dpdk/spi/spi_flow_table.hpp:51-66 | Two IPv4 packets share a key exactly when they belong to one connection, in either direction. |
| `FlowStore.PackedWordsReadBack` | include/dpdk/spi/spi_flow_table.hpp:96-103 | The action survives packing; the count if and only if it fits 60 bits; when an entry looks empty. |
| `FlowStore.InsertRefinesMap` | include/dpdk/spi/spi_flow_table.hpp:312-375 | Insert sets word and time of one key of a map and nothing else, keeps slots and free list a partition, and reports full exactly for a new key without a slot or refused by the hash. |
| `FlowStore.LookupReadsMap` | include/dpdk/spi/spi_flow_table.hpp:237-258 | A lookup that answers sets the key's time of last use to now and changes nothing else; one that does not changes nothing. |
| `FlowStore.CallRefinesMap` | include/dpdk/spi/spi_flow_table.hpp:237-375 | One call answers as a bounded map with times of last use, and leaves what the map has. |
| `FlowStore.RunRefinesMap` | include/dpdk/spi/spi_flow_table.hpp:237-375 | The same over every sequence of calls, whatever positions the hash picks. |
| `FlowStore.LookupsCommute` | include/dpdk/spi/spi_flow_table.cpp:146-162 | Any number of lookups leave every key reading as before. |
| `FlowStore.RefreshedTimes` | include/dpdk/spi/spi_flow_table.cpp:146-162 | After a burst of lookups every key that was asked for and answered is used now, every other as before. |
| `FlowStore.AlignmentIsAccidental` | include/dpdk/spi/spi_flow_table.hpp:352-353 | An insert keeps position and slot aligned exactly when the hash position equals the popped slot. |
| `FlowRaces.StepKeeps` | include/dpdk/spi/spi_flow_table.hpp:328-375 | Every step of every worker keeps the account of each slot: free, owned, held or lost. |
| `FlowRaces.RacesSoundIff` | include/dpdk/spi/spi_flow_table.hpp:328-375 | Over every interleaving of any number of inserts, slots and free list are a partition at the end if and only if no two workers missed on one key and both registered it. |
| `FlowRaces.DistinctKeysAreSafe` | include/dpdk/spi/spi_flow_table.hpp:328-375 | Inserts of pairwise distinct keys never lose a slot. |
| `FlowRaces.RacesWriteTheirOwn` | include/dpdk/spi/spi_flow_table.hpp:328-375 | Over every interleaving, every key reads at the end as before, if nobody inserted it, or as one of its own inserts wrote it; none disappears. |
| `FlowRaces.LossIsReachable` | include/dpdk/spi/spi_flow_table.hpp:328-375 | From every consistent table with two free slots, two inserts of a new key can lose a slot. |
| `FlowEviction.SlotKeptIff` | include/dpdk/spi/spi_flow_table.cpp:209-262 | Beside purges, each step leaves a key its slot if and only if it is not a purge turn on the key's position or a late registration of the key. |
| `FlowEviction.FoundSlotKept` | include/dpdk/spi/spi_flow_table.hpp:328-345 | Over any run of inserts and purge turns, a found slot is the key's own exactly until such a step. |
| `FlowEviction.FoundWriteRightIff` | include/dpdk/spi/spi_flow_table.hpp:328-345 | The write of an insert that found its key does what Insert should if and only if the slot is still the key's own. |
| `FlowEviction.MisdirectedWrite` | include/dpdk/spi/spi_flow_table.hpp:328-345 | From every consistent table with a stale flow, an insert, a purge and a second insert can be scheduled so that the first overwrites the second one's flow. |
| `FlowTable.FlowTable.constructor` | include/dpdk/spi/spi_flow_table.cpp:56-90 | All slots are free and the table is consistent. |
| `FlowTable.FlowTable.Lookup` | include/dpdk/spi/spi_flow_table.hpp:237-258 | Computes the specification's lookup and keeps the table consistent. |
| `FlowTable.FlowTable.LookupBulk` | include/dpdk/spi/spi_flow_table.cpp:109-163 | One chunk of at most 64 lookups; a miss leaves its result alone. |
| `FlowTable.FlowTable.BulkFlowLookup` | include/dpdk/spi/spi_pipeline.cpp:1390-1403 | Every key of a burst of any size is answered as if it were looked up alone and first. |
| `FlowTable.FlowTable.Insert` | include/dpdk/spi/spi_flow_table.hpp:312-375 | Computes the specification's insert, counts overflows. |
| `FlowTable.FlowTable.AddKey` | include/dpdk/spi/spi_flow_table.hpp:381-408 | The miss path: pop, fill, register, or push back. |
| `FlowTable.FlowTable.PurgeExpired` | include/dpdk/spi/spi_flow_table.cpp:166-267 | On every table: nothing when now is within the TTL; otherwise the purge of a prefix that ends only where a poll saw the quit flag; the result is sound exactly when the cleared positions own the cleared slots. |
| `FlowTable.PollsOnceIn1024` | include/dpdk/spi/spi_flow_table.cpp:206-221 | Among any 1024 consecutive slots the quit flag is looked at once. |
| `FlowTable.FlowTable.PurgeOne` | include/dpdk/spi/spi_flow_table.cpp:222-256 | One slot of the scan. |
| `FlowTable.Migrate` | include/dpdk/spi/spi_pipeline.cpp:1943-1949 | For any sizes and alignment: the new table holds the first visible flows, as many as it has slots. |
| `FlowPurge.PurgeInClosedForm` | include/dpdk/spi/spi_flow_table.cpp:209-262 | Which slots, positions and keys a scan clears, and what it adds to the free list. |
| `FlowPurge.InterruptedPurgeResumes` | include/dpdk/spi/spi_flow_table.cpp:199-220 | An interrupted purge followed by a full one equals one full purge. |
| `FlowPurge.PurgeSlotSoundIff` | include/dpdk/spi/spi_flow_table.cpp:229-250 | Purging one stale slot keeps the table sound if and only if the key at that position owns that slot. |
| `FlowPurge.PurgeSoundIff` | include/dpdk/spi/spi_flow_table.cpp:209-262 | A scan of any length leaves a consistent table if and only if the keys at the cleared positions own the cleared slots. |
| `FlowPurge.PurgeExactIff` | include/dpdk/spi/spi_flow_table.cpp:209-262 | A scan removes exactly the stale flows it has passed if and only if the cleared positions are theirs. |
| `FlowPurge.PurgeRemovesExactlyTheStale` | include/dpdk/spi/spi_flow_table.cpp:166-267 | On aligned tables both conditions hold: exactly the scanned stale flows go, and the table stays sound and aligned. |
| `FlowPurge.UsedFlowSurvives` | include/dpdk/spi/spi_flow_table.hpp:252-256 | On an aligned table a flow that was looked up survives every purge with a threshold up to that time. |
| `FlowPurge.AlignedTableExpires` | include/dpdk/spi/spi_flow_table.cpp:166-267 | Over any run of inserts, lookups and purges that keeps positions aligned, the table is a bounded map whose entries expire by their time of last use. |
| `FlowPurge.BeyondIsNeverPurged` | include/dpdk/spi/spi_flow_table.cpp:209-233 | A flow at a hash position beyond the slots survives every purge. |
| `FlowPurge.WrongFlowPurged` | include/dpdk/spi/spi_flow_table.cpp:229-250 | Two inserts after which a purge removes the recent flow and frees the slot of the old one. |
| `FlowPurge.MigrateSlot` | include/dpdk/spi/spi_flow_table.hpp:422-436 | One turn of the migration adds one visible flow while there is a free slot, and keeps the new table sound. |
| `FlowPurge.MigrationKeepsFirst` | include/dpdk/spi/spi_flow_table.hpp:381-437 | Whatever sizes and alignment, the new table gains the first visible flows, as many as it has free slots, each stamped with the time of the move. |
| `FlowPurge.MigrationExactIff` | include/dpdk/spi/spi_pipeline.cpp:1930-1960 | A migration with enough room keeps exactly the flows, counts and actions if and only if every key's word is the one read for its position (none beyond the slots). |
| `FlowPurge.BeyondIsNeverMigrated` | include/dpdk/spi/spi_flow_table.hpp:417-437 | A flow at a hash position beyond the slots is copied by no migration. |
| `FlowPurge.AlignedHasSameWords` | include/dpdk/spi/spi_flow_table.hpp:417-437 | Aligned tables qualify. |
| `HostnameCache.ComputeHash32` | include/dpdk/dpi/hostname_cache.hpp:137-144 | The FNV-1a loop, with sign-extended bytes. |
| `HostnameCache.HighByteIsSignExtended` | include/dpdk/dpi/hostname_cache.hpp:137-144 | A byte from 0x80 on enters the hash as a negative number. |
| `HostnameCache.HostnameCache.Lookup` | include/dpdk/dpi/hostname_cache.hpp:37-60 | Answers from the first hit of the four-slot window. |
| `HostnameCache.HostnameCache.Insert` | include/dpdk/dpi/hostname_cache.hpp:64-95 | Updates the first empty or owned slot of the window, or nothing. |
| `HostnameCache.StoredIsFound` | include/dpdk/dpi/hostname_cache.hpp:37-95 | A stored result is found again unless the window was full or the hash is zero. |
| `HostnameCache.StoredUnlessFourOthers` | include/dpdk/dpi/hostname_cache.hpp:64-95 | A name is stored and found again unless its hash is zero or the four slots from its own on hold other names; then nothing changes. |
| `HostnameCache.ConfusableIff` | include/dpdk/dpi/hostname_cache.hpp:146-190 | Two names are taken for each other if and only if the hashes agree and, from four bytes on, the first twelve bytes with zero padding. |
| `HostnameCache.DistinctNamesCollide` | include/dpdk/dpi/hostname_cache.hpp:137-190 | Two names the cache cannot tell apart. |
| `DpiMatching.ScanHits` | include/dpdk/dpi/dpi_rule_engine.cpp:73-86 | The callback's updates compute the fold. |
| `DpiMatching.BestHitIsMinimum` | include/dpdk/dpi/dpi_rule_engine.cpp:73-86 | Whatever the report order, the chosen filter has minimal priority; none is chosen exactly when all have the sentinel priority. |
| `DpiMatching.FindIndex` | include/dpdk/spi/spi_pipeline.cpp:856-864 | The index search with its 16-bit truncation. |
| `DpiMatching.MatchDpi` | include/dpdk/spi/spi_pipeline.cpp:814-872 | Answer and cache contents of one call. |
| `DpiMatching.QueryIsTransparent` | include/dpdk/spi/spi_pipeline.cpp:814-872 | For names without a confusable cacheable pair one query answers as the active table and keeps the cache right for all of them. |
| `DpiMatching.CacheIsTransparent` | include/dpdk/spi/spi_pipeline.cpp:814-872 | Over any sequence of queries, swaps and disablings in which nothing is cached under a stamp when it is given, every answer is the active table's. |
| `DpiMatching.CacheIsTransparentFromTheStart` | include/dpdk/spi/spi_pipeline.cpp:814-872 | From an empty cache and the first table, through any queries and reloads to tables of at most 65536 filters, every answer is the active table's. |
| `DpiMatching.SecondAnswerRightIff` | include/dpdk/spi/spi_pipeline.cpp:856-864 | A name's second answer from an empty cache is right if and only if its filter is among the first 65536 or the number of filters is a multiple of 65536. |
| `DpiMatching.SmallTablesIndexable` | include/dpdk/spi/spi_pipeline.cpp:856-864 | Tables of at most 65536 filters qualify. |
| `DpiMatching.StampsStayFresh` | include/dpdk/dpi/dpi_rule_table_manager.hpp:41-50 | With DPI never disabled, nothing is cached under a new stamp within 2^32 reloads. |
| `DpiMatching.StampSafeIff` | include/dpdk/spi/spi_pipeline.cpp:837-847 | Every table that carries a stamp is answered for rightly if and only if nothing is cached for the name under it. |
| `DpiMatching.ReloadSafeIff` | include/dpdk/dpi/dpi_rule_table_manager.hpp:41-50 | After any run whatsoever, the next reload is safe for a set of names and every table if and only if nothing is cached for them under the stamp it gets. |
| `DpiMatching.ReenablingServesStaleResults` | include/dpdk/dpi/dpi_rule_table_manager.hpp:41-50 | Disabling and enabling DPI makes a cached answer of the first table be served for the second. |
| `DpiMatching.NamesServedIff` | include/dpdk/dpi/hostname_cache.hpp:37-95 | From the start, every run over a set of names gets the right answers from every table if and only if no two of its non-empty names of non-zero hash share hash and key bytes. |
| `DpiMatching.ConfusableNamesShareAnswers` | include/dpdk/dpi/hostname_cache.hpp:37-60 | Two names of equal hash and key bytes get one answer. |
| `DpiMatching.NegativeResultsAreNeverServed` | include/dpdk/spi/spi_pipeline.cpp:837-847 | A name without a match never hits the cache. |
| `DpiMatching.NegativeResultsTakeRoom` | include/dpdk/spi/spi_pipeline.cpp:866-871 | A name without a match claims the first slot of its window if that is empty. |
| `Prefix.MaskClearsHostBits` | include/dpdk/spi/spi_ip_address.hpp:22-32 | Bitwise masking with the prefix mask clears exactly the host bits, for every length. |
| `Prefix.HostExpansionCoversPrefix` | include/dpdk/spi/spi_rule_engine.cpp:972-982 | The addresses network + host are exactly those with that masked prefix, without wrap-around. |
| `RuleMatching.ParsedCidrIsWellFormed` | include/dpdk/spi/spi_ip_address.cpp:49-50 | A parsed CIDR has no host bits set. |
| `RuleMatching.Ipv6LooksLikeItsHead` | include/dpdk/spi/spi_rule_engine.cpp:405-415 | An IPv6 packet is matched as the IPv4 packet whose addresses are the heads of its own. |
| `RuleMatching.RuleMeansFilter` | include/dpdk/spi/spi_rule_engine.cpp:195-244 | The built ACL rule accepts exactly the packets whose every named field agrees with the filter. |
| `RuleMatching.UserdataReadsBack` | include/dpdk/spi/spi_rule_engine.cpp:199-201 | The result word leads back to its group and filter if and only if both indices are below 65535. |
| `RuleMatching.ChunkRulesMember` | include/dpdk/spi/spi_rule_engine.cpp:831-841 | A chunk's rule buffer holds one rule per filter of its groups and nothing else. |
| `RuleMatching.FirstHitIsBest` | include/dpdk/spi/spi_rule_engine.cpp:422-449 | From any chunk on, the first hit is a matching group of minimal precedence, and there is none exactly when nothing matches. |
| `RuleMatching.MatchIsPrecedenceMatching` | include/dpdk/spi/spi_rule_engine.cpp:400-452 | Sorting, chunking, encoding and the first hit give precedence matching over the configuration: a match carries action, inspection flag, link, name and precedence of a best matching group. |
| `RuleTable.BuildChunkRules` | include/dpdk/spi/spi_rule_engine.cpp:831-841 | The nested loops fill the specified buffer. |
| `RuleTable.CountRules` | include/dpdk/spi/spi_rule_engine.cpp:797-801 | The counting loop gives the size of that buffer. |
| `RuleTable.SplitIntoWindows` | include/dpdk/spi/spi_rule_engine.cpp:787-809 | Windows of 256 groups, ascending, exactly those that hold a rule. |
| `RuleTable.CompileChunks` | include/dpdk/spi/spi_rule_engine.cpp:777-907 | Fails exactly when there is no rule or the library refuses a window; otherwise ascending chunks cover every filter. |
| `RuleTable.Match` | include/dpdk/spi/spi_rule_engine.cpp:400-452 | The walk over the chunks for one packet. |
| `RuleTable.MatchBulk` | include/dpdk/spi/spi_rule_engine.cpp:454-525 | The first 64 packets get what Match gives each alone; results beyond are untouched. |
| `RuleTable.BulkChunk` | include/dpdk/spi/spi_rule_engine.cpp:487-515 | One chunk's turn for the packets still unmatched. |
| `RuleTable.HitWithinIsFirstHit` | include/dpdk/spi/spi_rule_engine.cpp:487-525 | Consulting chunks for a burst with early exit or for one packet comes to the same. |
| `MemberFilter.BuildMemberKeys` | include/dpdk/spi/spi_rule_engine.cpp:958-986 | The set holds exactly the keys of filters with an address or a network of at most 4096 hosts. |
| `MemberFilter.KeysOf` | include/dpdk/spi/spi_rule_engine.cpp:962-983 | The keys of one filter, by host expansion. |
| `MemberFilter.MemberFilterBulk` | include/dpdk/spi/spi_rule_engine.cpp:542-595 | The two passes mark exactly the packets, among the first 64, for which neither key is found. |
| `MemberFilter.SkippedPacketsMatchNothing` | include/dpdk/spi/spi_rule_engine.cpp:542-595 | No false negatives: an IPv4 packet whose keys are absent matches no filter with an enumerable destination. |
| `MemberFilter.SkippingIsTransparent` | include/dpdk/spi/spi_rule_engine.cpp:542-595 | With the flag as the value constructor sets it, a skipped IPv4 packet is one the ACL finds nothing for. |
| `MemberFilter.MovedTableLosesExactly` | include/dpdk/spi/spi_rule_engine.cpp:343-355 | After a move, a matching packet is skipped if and only if its keys are absent and an unbounded filter matches it. |
| `MemberFilter.MoveIsHarmlessWithoutUnbounded` | include/dpdk/spi/spi_rule_engine.cpp:343-355 | Without unbounded destinations a move changes no decision. |
| `MemberFilter.PortOnlyRuleIsLost` | include/dpdk/spi/spi_rule_engine.cpp:343-355 | Two rules and a family of packets that a moved table loses. |
| `MemberFilter.Ipv6KeptIff` | include/dpdk/spi/spi_rule_engine.cpp:551-557 | With an exact set an IPv6 packet is kept if and only if some filter of its protocol and port covers 0.0.0.0. |
| `MemberFilter.Ipv6PacketIsLost` | include/dpdk/spi/spi_rule_engine.cpp:551-557 | One host rule loses every IPv6 packet it matches. |
| `TupleSpace.StoreEntry` | include/dpdk/spi/spi_rule_engine.cpp:1100-1113 | Stores in the first free slot of the probe sequence; drops exactly at 128 entries. |
| `TupleSpace.ScanGroup` | include/dpdk/spi/spi_rule_engine.cpp:1079-1115 | The scan of one group. |
| `TupleSpace.EligibleIff` | include/dpdk/spi/spi_rule_engine.cpp:1079-1099 | The table takes exactly the filters that name no network and match packets of one tuple only. |
| `TupleSpace.BuildTss` | include/dpdk/spi/spi_rule_engine.cpp:1076-1116 | The table holds the first 128 eligible filters in scan order; the flag is set exactly when some destination is unbounded. |
| `TupleSpace.ProbeTss` | include/dpdk/spi/spi_rule_engine.cpp:1118-1138 | The open-addressed search answers as a front-to-back search of the stored filters. |
| `TupleSpace.FullExactlyAtCapacity` | include/dpdk/spi/spi_rule_engine.cpp:1101-1113 | An unused slot exists exactly while fewer than 128 entries are stored. |
| `TupleSpace.TssPicksSmallestPrecedence` | include/dpdk/spi/spi_rule_engine.cpp:1076-1116 | A hit names the first group that owns the key, of smallest precedence among all owners; no hit exactly when no stored filter has the key. |
| `TupleSpace.TssFindsItsPacketsIff` | include/dpdk/spi/spi_rule_engine.cpp:1087-1136 | The probe for a packet finds the entry of a filter that matches it if and only if the stored key equals the packets' key. |
| `TupleSpace.TssOnlyItsPacketsIff` | include/dpdk/spi/spi_rule_engine.cpp:1087-1136 | Every IPv4 packet with a filter's stored key matches the filter if and only if the key is not canonical, or all fields are byte palindromes and both endpoints are equal. |
| `TupleSpace.TssFindsForeignPacket` | include/dpdk/spi/spi_rule_engine.cpp:1087-1094 | A filter found for a packet it does not match. |
| `BurstResolution.ProbePhase` | include/dpdk/spi/spi_pipeline.cpp:1453-1474 | First phase: tuple-space hits are resolved, the other flow misses gathered. |
| `BurstResolution.FilterPhase` | include/dpdk/spi/spi_pipeline.cpp:1499-1518 | Prefilter phase: which misses go on to the ACL. |
| `BurstResolution.MatchCandidates` | include/dpdk/spi/spi_pipeline.cpp:1520-1524 | Bulk matching into a buffer that starts unmatched. |
| `BurstResolution.Scatter` | include/dpdk/spi/spi_pipeline.cpp:1525-1529 | Results go back to their packets and nowhere else. |
| `BurstResolution.AclPhase` | include/dpdk/spi/spi_pipeline.cpp:1520-1530 | Gather, match and scatter together. |
| `BurstResolution.ResolveBurst` | include/dpdk/spi/spi_pipeline.cpp:1445-1532 | All phases: what each flow miss is resolved to. |
| `BurstResolution.MissesAre` | include/dpdk/spi/spi_pipeline.cpp:1453-1474 | The gathered misses are exactly the packets neither cache nor tuple space answers, each once. |
| `BurstResolution.CandidatesAre` | include/dpdk/spi/spi_pipeline.cpp:1499-1518 | The candidates are exactly the misses the prefilter keeps, each once. |
| `BurstResolution.OutcomeRightIff` | include/dpdk/spi/spi_pipeline.cpp:1445-1530 | A miss gets what the packet alone gets if and only if tuple space answers, it reaches the ACL, or the ACL has nothing. |
| `BurstResolution.ResolutionReportsAGroup` | include/dpdk/spi/spi_rule_engine.hpp:369-384 | A match, from tuple space or ACL, carries action, inspection flag, link, name and precedence of a configured group with a filter that matches the packet or owns its key. |
| `BurstResolution.TupleSpaceComesFirst` | include/dpdk/spi/spi_pipeline.cpp:930-935 | If a stored entry has the packet's key, the first such entry's group is the answer, otherwise the ACL's. |
| `BurstResolution.OutcomeIsOwnOrNone` | include/dpdk/spi/spi_pipeline.cpp:1445-1530 | In a burst a packet gets what it would get alone, or nothing. |
| `BurstResolution.SkippedMatchIsUnbounded` | include/dpdk/spi/spi_pipeline.cpp:1499-1518 | What the ACL would find for a skipped IPv4 packet comes from an unbounded filter. |
| `BurstResolution.BatchedResolutionAgreesIff` | include/dpdk/spi/spi_pipeline.cpp:1445-1530 | For moved and unmoved tables: batched and per-packet resolution of an IPv4 burst agree if and only if no candidate beyond the 64th has a match and no skipped miss is matched by an unbounded filter. |
| `BurstResolution.SmallBurstsAgree` | include/dpdk/spi/spi_pipeline.cpp:930-935 | With at most 64 misses they agree if and only if no skipped miss is matched by an unbounded filter, always so with the constructor's flag. |
| `BurstResolution.ResolveByPrecedenceIff` | include/dpdk/spi/spi_pipeline.cpp:930-935 | Tuple space before ACL is precedence matching if and only if there is no tuple-space hit or the ACL finds a match of the same precedence. |
| `ParsePartition.TakeSpan` | include/dpdk/spi/spi_rule_engine.cpp:733-749 | One worker takes groups until the next would exceed its share, at least one, leaving one for each later worker; the last takes the rest. |
| `ParsePartition.ShareIsCeiling` | include/dpdk/spi/spi_rule_engine.cpp:733-736 | A worker's share is the rules left over the workers left, rounded up. |
| `ParsePartition.SplitByRules` | include/dpdk/spi/spi_rule_engine.cpp:720-750 | One non-empty span per worker, consecutive, covering all groups, each as long as its share allows; the remainder is exact. |
| `ParsePartition.EveryGroupOnce` | include/dpdk/spi/spi_rule_engine.cpp:720-750 | Every group lies in exactly one span. |
| `BurstConservation.PairsNeighbours` | include/dpdk/spi/spi_pipeline.cpp:246-266 | Each port transmits on its neighbour in the list, the last one without neighbour and ports not listed on themselves. |
| `BurstConservation.PairingIsInvolution` | include/dpdk/spi/spi_pipeline.cpp:246-266 | Over distinct ports the pairing stays among them and undoes itself. |
| `BurstConservation.FedOnceIff` | include/dpdk/spi/spi_pipeline.cpp:246-266 | No staging buffer is fed twice in an iteration if and only if no port is listed twice. |
| `PacketDecision.ResponseTestNeverDecides` | include/dpdk/spi/spi_pipeline.cpp:1258-1283 | A packet is inspected exactly when it is TCP to port 443 or 80; the response test has no effect. |
| `PacketDecision.DropsIff` | include/dpdk/spi/spi_pipeline.cpp:1211-1348 | A packet is dropped by the decision if and only if a drop is cached, its stream is refused, a drop rule's insert succeeds, or an insert that is tried fails and overflow means drop. |
| `PacketDecision.MatchesIff` | include/dpdk/spi/spi_pipeline.cpp:1211-1348 | Exactly when a packet counts as matched; an unmatched one is forwarded. |
| `PacketDecision.StoresIff` | include/dpdk/spi/spi_pipeline.cpp:1211-1348 | What is put into the flow table: exactly the inserts that are tried and succeed, always the decision taken. |
| `PacketDecision.ExaminedGets` | include/dpdk/spi/spi_pipeline.cpp:1285-1346 | What an examined packet gets for each outcome of its inspection, with and without an SPI match; never a drop for what the DPI table says. |
| `PacketDecision.ExamineCases` | include/dpdk/spi/spi_pipeline.cpp:1285-1306 | Inspection is unreadable exactly without a payload and refused exactly with a fatal answer of the reassembler. |
| `PacketDecision.ExaminedDropsIff` | include/dpdk/spi/spi_pipeline.cpp:1285-1346 | Behind the reassembler, in any state of it, an examined packet is dropped if and only if its segment is refused or a tried insert fails and overflow means drop. |
| `PacketDecision.EvasionIsDropped` | include/dpdk/spi/spi_pipeline.cpp:1297-1306 | A packet that contradicts bytes already received is dropped and its connection forgotten. |
| `PacketDecision.TlsPacketsAskForTheName` | include/dpdk/spi/spi_pipeline.cpp:1307-1325 | Along any schedule of a recognised ClientHello to port 443, each packet waits until the name is complete, then the DPI table is asked for exactly that name. |
| `PacketDecision.HttpPacketsAskForTheHost` | include/dpdk/spi/spi_pipeline.cpp:1307-1325 | Along any schedule of a recognised request to port 80, each packet waits until the Host value has begun, then asks for what is visible of it. |
| `PacketDecision.DropRuleEnforcedIff` | include/dpdk/spi/spi_pipeline.cpp:1561-1585 | An uncached packet matched by a drop rule is dropped by it if and only if its key is known, a slot is free and the hash takes it, or overflow means drop; otherwise it is dropped exactly when unmatched packets are. |
| `BurstConservation.Worker.ParseReceived` | include/dpdk/spi/spi_pipeline.cpp:1355-1387 | Parsed packets are numbered consecutively; parsed and malformed ones are counted, fragments parked. |
| `BurstConservation.Worker.Classify` | include/dpdk/spi/spi_pipeline.cpp:1548-1585 | The decision, and the one of cache hit, matched and unknown that moves. |
| `BurstConservation.Worker.Apply` | include/dpdk/spi/spi_pipeline.cpp:1405-1431 | The packet is dropped or staged once, in its transmit port's buffer only, and exactly when which. |
| `BurstConservation.Worker.DropPacket` | include/dpdk/spi/spi_pipeline.cpp:1030-1033 | Counts and frees one packet. |
| `BurstConservation.Worker.Finalize` | include/dpdk/spi/spi_pipeline.cpp:1532-1594 | Exactly the packets that are passed on are staged, in order, on the neighbour's port; the others are freed; every counter moves by the packets that meet it. |
| `BurstConservation.Worker.ProcessPortBurst` | include/dpdk/spi/spi_pipeline.cpp:1596-1629 | The same for a received burst, with the ledger balanced. |
| `BurstConservation.Worker.FlushTransmitBuffers` | include/dpdk/spi/spi_pipeline.cpp:1149-1170 | Of each staged buffer as much as the device takes is sent, the rest freed; all buffers end empty. |
| `BurstConservation.Worker.ReceiveOnAllPorts` | include/dpdk/spi/spi_pipeline.cpp:1672-1674 | Each port's buffer holds what its neighbour received and passes on; no other buffer is used; counters are the totals. |
| `BurstConservation.Worker.ProcessWorkerIteration` | include/dpdk/spi/spi_pipeline.cpp:1665-1688 | Received = transmitted + dropped + parked, token by token; sent on a port is what the device takes of what its neighbour received and passes on; parsed = cache hits + matched + unknown, each the number of packets with that decision. |
| `BurstConservation.TransmittedAre` | include/dpdk/spi/spi_pipeline.cpp:1665-1688 | A packet leaves if and only if it is passed on and within what the device takes on the paired port. |
| `BurstConservation.PlacesFormABurst` | include/dpdk/spi/spi_pipeline.cpp:1355-1387 | The numbering that parsing produces is what the batched resolution requires. |

## Left out

- `ClassifyPacket` beyond its SPI resolution, ring dispatch and L3 forwarding: the model covers queue mode with L2 forwarding.
- Statistics counters for DPI skips, cache hits and flow-table overflow inside a burst: no decision depends on them.
- IPv6 folding in flow keys: lossy by design; key claims are for IPv4. ACL matching is modelled with the head word it uses.
- `MatchFallback`, the FIB lookup (a no-op), `RebuildInPlace`, header rewriting, configuration loading and validation.
- Memory ordering: atomics are atomic steps. A purge beside inserts frees a slot in the step that clears it; the code holds the free-list lock and frees all at the end.
- Failed `rte_acl_classify` and `rte_member_add` calls: taken not to happen; a failed member insertion would break `MemberFilter.Remembers`.
- The fragment table: a fragment is parked or completes a packet, which then stands for it. A set that completes into a malformed packet, whose chain the code drops through the pointer of its last fragment (include/dpdk/spi/spi_pipeline.cpp:1371-1386), and sets the table frees on expiry are not modelled.
- The quiescence time-out: the wait is modelled as ending with the count reached, or cancelled at any moment.
- `TcpRuns.OrderIndependence`: for segments that are admitted when they come (`Admitted`: a known connection or a place in the table, and room in budget, direction and queue; retransmissions are charged first) and payloads of the other direction that do not erase the connection (`Tolerated`; `TcpRuns.BothTolerated` and `TcpRuns.AsideErasesIff` say when). Clean-ups between bursts are no step of these runs; `TcpAccounting.CleanupAbsorbedIff` says when they leave no trace.
- `TcpOverlaps.OverlapsReassembleIff`: for one direction within its limits and pieces of which only the start looks like one; pieces with the same start have the same end, since two different ones in the queue are a conflict.
- `FlowPurge.MigrationKeepsFirst`: for a new hash table that takes a key while slots are free (`Accepting`).
- `DpiMatching.CacheIsTransparent`: for names the cache can tell apart, tables whose results a 16-bit index can name and stamps under which nothing is cached; each of the three conditions is exact (`DpiMatching.NamesServedIff`, `DpiMatching.SecondAnswerRightIff`, `DpiMatching.ReloadSafeIff`).
- `RuleMatching.MatchIsPrecedenceMatching`: for at most 65535 groups of at most 65535 filters, the exact range in which result words read back.
- `BurstConservation.Worker.Classify`: the SPI result, the inspection outcome and the flow-table replies are given; `BurstResolution`, `PacketDecision.Examine` and `FlowStore` say what they are. Inspection without a reassembler (one segment at a time) is not modelled.
