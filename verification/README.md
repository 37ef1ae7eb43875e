# Verified models of the demultiplexer and of the algorithms in its vendored test framework

The project models two families of code and proves what they are for, over every input and every run.

**The MPEG-2 transport stream demultiplexer** (`src/`, ISO/IEC 13818-1). Bytes arrive in chunks of any size. A
packetizer resynchronises on the sync byte and hands out 188-byte packets from one storage block that it compacts in
place; a demultiplexer dispatches packets by PID to parser objects that reassemble sections, decode the program
association and program map tables and strip PES headers, and its registry grows while it runs. `Bytes`, `TsPackets`,
`Packetizers`, `PsiSections`, `Tables`, `PesPackets`, `Demuxers` and `Pumps` follow the source file by file, as classes
and loops over arrays and maps; `PacketizerLimits` shows where the packetizer's operations
stop being sound; `Framing`, `PsiReassembly` and `DemuxModel` hold the value-level meaning that these
methods are proved against; `DemuxInvariants`, `EndToEnd`, `Multiplex` and `OneProgram` hold the results about whole
runs. The main one is `Multiplex.DemultiplexPlan`: for any multiplex in which each PID carries what a plan says and
nothing before it is announced, interleaved in any way and cut into any chunks that fit their blocks and overwrite no
packet view, every announced stream's consumer is created once, with its announced type, and receives exactly its bytes
in order; that no parser assumption is violated on the way is proved, not assumed.

**Kernels of the vendored GoogleTest** (`depends/googletest`): maximum bipartite matching with its optimality
(`BipartiteMatching`), the simple regular expression matcher against a language (`SimpleRegex`), the UTF-8 validator
(`Utf8`), the string literal printer against a reader of C string literals (`CharPrinter`), the prime tables
(`PrimeTables`), the Fisher-Yates shuffle (`Shuffling`), the expectation prerequisite graph and the calls that walk it
(`PrerequisiteGraphs`, `ExpectationModel`, `Expectations`, with what the events mean in `ExpectationLaws`) and the
lazily initialised mutex as an interleaving protocol (`MutexProtocol`), with its safety and its progress. `Options` holds
the datatype for missing values.

## Where the code meets its promise only under a condition

- `request` returns the block behind the first `size` bytes of the storage, not behind the buffered bytes. It continues
  every buffer that a packetizer can hold at a cursor exactly when the cursor is the start of the storage
  (`RequestAppendsIff`), as it is for a depleted packetizer. `RequestTooEarly` receives three packets and takes one; the
  block it then requests is part of the input buffer.
- `get` compacts the storage after it has built the packet's view, so the view may be overwritten before it is read.
  `Get` says which bytes the view then shows; `CompactionKeepsViewIff` says exactly for which cursor, payload offset and
  number of kept bytes that is the payload whatever the contents, `ViewsIntactIff` when it is so for a whole buffer.
  `ViewOverwritten` receives one packet and twelve more bytes and gets a view that does not show the payload.
- The repository's README says that the extra bytes which some formats put before each packet are silently skipped. They
  are, whatever the packet, exactly when no sync byte is among them (`SkippedIff`).
- Section reassembly depends on where payloads are cut in exactly one situation: everything before the cut was consumed
  and a padding byte comes next (`CutIsInvisibleIff`).
- The string printer writes NUL as a one-digit octal escape. Its output reads as the input exactly when no NUL stands
  directly before an octal digit; `PrintedReads` also says what it reads as otherwise.
- A pattern that ends in an escaped dollar sign gets no closing anchor for a full match; `FullPatternAnchorsIff` says
  that those are the only patterns affected.
- `OnTheFlyPrimeTable::GetNextPrime` returns -1 for negative arguments, although 2 is a larger prime.
- An expectation that allows no call at all does not retire its prerequisites when it takes one;
  `CallRetiresPrerequisitesIff` gives the condition and `ForbiddenCallFreezesNothing` an instance.
- Unlocking a mutex that was locked more than once by its holder clears the recorded owner too early;
  `UnlockingForgetsTheOwnerIff` says exactly when, in every reachable state of a static or dynamic mutex. Allocation,
  phases and exclusion do not suffer from it, nor does `AssertHeld` then pass for a thread that does not hold the mutex.

The preconditions are those the code has and does not check: a unit start in a section packet has a pointer field,
sections have room for the extended header and a checksum, adaptation fields fit, PES headers lie in one packet and
have a supported stream id, chunks fit the requested block.

## Model

| member | source | states |
|---|---|---|
| Bytes.ReadSixteenBits | src/masked_two_bytes_value.h:13-19 | the unmasked read is the big-endian value of two bytes |
| Bytes.ReadThirteenBits | src/masked_two_bytes_value.h:13-19 | with mask 0x1f, computed bit by bit, the low thirteen bits remain |
| Bytes.ReadTwelveBits | src/masked_two_bytes_value.h:13-19 | with mask 0x0f the low twelve bits remain |
| Bytes.LowBits | src/masked_two_bytes_value.h:14 | a mask of the n lowest bits, for every n, keeps the remainder by two to the n |
| Bytes.ThirteenBitsReadBack | src/masked_two_bytes_value.h:13-19 | a PID written under any three reserved bits reads back |
| Bytes.TwelveBitsReadBack | src/masked_two_bytes_value.h:13-19 | a length written under any four reserved bits reads back |
| TsPackets.ParsePacket | src/ts_packet.cpp:7-44 | the constructor yields PID, unit start flag and a payload view placed as the header fields say; a size that would be negative wraps around modulo two to the 64 |
| TsPackets.DecodeEncoded | src/ts_packet.cpp:7-44 | header fields and payload of every encoded packet are those encoded, whatever the ignored fields |
| TsPackets.EveryFrameIsEncoded | src/ts_packet.cpp:7-44 | every 188 bytes with a sync byte and a fitting adaptation field are the encoding of some packet |
| Framing.FramesSplit | src/packetizer.cpp:15-47 | framing a concatenation is framing the first part and then its residue with the second |
| Packetizers.Packetizer.FeedAll | README.md:23-25 | chunks that fit their blocks, whatever else, yield packets that decode the frames of all the bytes at once, and leave the same residue |
| Packetizers.Packetizer.Drain | src/demuxer.cpp:18-19 | taking packets until depleted yields exactly the frames of the buffered bytes, decoded, and leaves the residue |
| Framing.ChunkIndependence | README.md:23-25 | framing chunk by chunk, as FeedAll does, is framing the whole stream wherever it was cut, packets and residue |
| Framing.ResidueIsSettled | src/packetizer.cpp:36-47 | the residue is shorter than a packet, empty or at a sync byte, and framing it again changes nothing |
| Framing.WovenPacketsAreFramed | src/packetizer.cpp:25-47 | packets with any bytes but sync bytes between them come out, all of them and in order |
| Framing.SkippedIff | README.md:24-25 | extra bytes are skipped before every packet and every continuation iff none of them is a sync byte |
| Framing.FramingAccountsForAllBytes | src/packetizer.cpp:15-47 | conversely every stream is its packets, skipped bytes that are no sync bytes, and the residue; the lengths add up |
| Packetizers.Packetizer.constructor | src/packetizer.cpp:6-8 | an empty buffer at the start of fresh storage |
| Packetizers.Packetizer.Request | src/packetizer.cpp:10-13 | names the block behind the first size bytes; it follows the buffer when that stands at the start, and is not empty when depleted |
| Packetizers.Packetizer.Confirm | src/packetizer.cpp:15-19 | the new bytes are appended and everything up to a sync byte is dropped |
| Packetizers.Packetizer.Get | src/packetizer.cpp:25-34 | hands out the frame at the cursor and advances by 188 bytes and to the next sync byte; if the adaptation field fits, the view reads the payload with the kept bytes that a compaction moved over it |
| Packetizers.Packetizer.Advance | src/packetizer.cpp:29-32 | behind the packet, a depleted buffer's bytes are moved to the start and nothing else in the storage changes |
| Packetizers.IntactViewShowsPayload | src/packetizer.cpp:28-33 | the view reads the payload when the packet is not the last complete one or the kept bytes end before the payload |
| Packetizers.Packetizer.Sync | src/packetizer.cpp:36-47 | a non-empty buffer starts with a sync byte, a depleted one stands at the storage base, nothing behind the moved bytes changes |
| Packetizers.Packetizer.SkipGarbage | src/packetizer.cpp:38-41 | the loop drops exactly the bytes before the first sync byte |
| Packetizers.Packetizer.Feed | src/main.cpp:79-82 | request, write and confirm append the chunk to the buffered bytes |
| Packetizers.MoveToStart | src/packetizer.cpp:44 | an overlapping move leaves the moved bytes at the start and the rest alone |
| PacketizerLimits.RequestAppendsIff | src/packetizer.cpp:10-13 | writing to the requested block appends to the buffer, for all contents that a packetizer can hold at the cursor, iff the cursor is the start of the storage |
| PacketizerLimits.RequestTooEarly | src/packetizer.cpp:10-13 | after three packets were received and one taken, the requested block lies inside the input buffer |
| PacketizerLimits.CompactionKeepsViewIff | src/packetizer.cpp:28-33 | the view shows the payload, for all contents with this payload offset and number of kept bytes, iff the payload is empty, the packet is not the last complete one, or the kept bytes end before the payload |
| PacketizerLimits.ViewOverwritten | src/packetizer.cpp:28-33 | after one packet and twelve more bytes were received, the packet's view does not show its payload |
| Pumps.ViewsIntactIff | src/packetizer.cpp:25-47 | all views of a buffer stay intact iff its first packet is not the last complete one or fewer bytes are kept than lie before its payload |
| PsiSections.TryParseHeader | src/parser_psi.cpp:49-84 | succeeds iff the bytes hold a complete section, and reports its length |
| PsiSections.SkipPaddingBytes | src/parser_psi.cpp:39-47 | the number of leading padding bytes |
| PsiSections.CutSections | src/parser_psi.cpp:16-32 | the loop delivers all complete sections in order and stops at the rest |
| PsiSections.PsiParser.Put | src/parser_psi.cpp:5-37 | for the piece of section data that the payload carries, all of it but for one byte at a unit start: callbacks and kept bytes are those of the kept bytes followed by the piece |
| PsiReassembly.CutElsewhereIsInvisible | src/parser_psi.cpp:14-36 | a cut that is not inside fully consumed padding changes neither callbacks nor rest |
| PsiReassembly.CutIsInvisibleIff | src/parser_psi.cpp:14-36 | a cut shows for no continuation iff the bytes before it were not fully consumed |
| PsiReassembly.PaddingByteShowsCut | src/parser_psi.cpp:29 | padding disappears when it comes with the section and stays when it comes later |
| PsiReassembly.Reassembly | src/parser_psi.cpp:5-37 | feeding payloads one by one makes the callbacks of their concatenation, same bytes and order, and keeps the same rest |
| PsiReassembly.RestIsBounded | src/parser_psi.cpp:16-36 | at most 4097 bytes are kept |
| PsiReassembly.EncodedSectionsComeBack | src/parser_psi.cpp:16-36 | encoded sections with any padding between them come back and nothing is kept |
| PsiReassembly.EverySectionIsEncoded | src/parser_psi.cpp:49-84 | conversely every section that is accepted, unless it starts with padding, is an encoded one with its body as delivered |
| PsiReassembly.PrefixOfSections | src/parser_psi.cpp:16-36 | wherever encoded sections break off, exactly the leading ones have been delivered and no broken section is accepted |
| Tables.FirstWinsMeaning | src/parser_pat.cpp:25 | the map holds exactly the listed keys, each with the value of its first entry |
| Tables.ParsePatPayload | src/parser_pat.cpp:11-28 | for any bytes of at least checksum length the loop stays inside them and maps each PID to its first program number |
| Tables.PatRoundTrip | src/parser_pat.cpp:11-28 | decoding inverts encoding for any number of entries, reserved bits and checksum |
| Tables.PatEntriesMeaning | src/parser_pat.cpp:11-28 | for bytes of any length: one entry for every four bytes in front of the checksum, and which PID and number each has |
| Tables.ParsePmtPayload | src/parser_pmt.cpp:13-48 | for any bytes of at least checksum length every read stays inside, descriptors are skipped, each PID maps to its first stream type |
| Tables.PmtRoundTrip | src/parser_pmt.cpp:13-48 | decoding inverts encoding for any program and stream descriptors, number of entries and checksum |
| Tables.OverrunEndsTable | src/parser_pmt.cpp:29-45 | a stream whose descriptors claim to be longer than what is left is listed and ends the table |
| PesPackets.TryParseHeader | src/parser_pes.cpp:28-89 | for every stream id, also when the header reaches beyond the bytes: with a supported id succeeds iff at least eight bytes are there and consumes nine and the optional header; with another id consumes six, where assertions are compiled out |
| PesPackets.PesParser.Put | src/parser_pes.cpp:11-26 | the consumer gets the payload behind a header at a unit start, and no call for no bytes |
| PesPackets.HeaderRoundTrip | src/parser_pes.cpp:11-89 | the bytes behind any supported header come back |
| DemuxModel.CreationsMeaning | src/demuxer.cpp:37-45 | each listed PID is created once, with its type, in ascending order |
| DemuxModel.RunSplit | src/demuxer.cpp:17-26 | a run over two stretches of packets is the second run from where the first ended |
| Demuxers.Demuxer.constructor | src/demuxer.cpp:11-15 | only PID 0 is registered, with an association parser |
| Demuxers.Demuxer.OnPat | src/demuxer.cpp:28-35 | exactly the unregistered PIDs of the table get fresh map parsers |
| Demuxers.Demuxer.OnPmt | src/demuxer.cpp:37-45 | exactly the unregistered PIDs get a consumer and a fresh stream parser, in map order |
| Demuxers.Demuxer.Dispatch | src/demuxer.cpp:20-23 | parser objects, callbacks and registry change as one step of the state machine; packets of unknown PIDs do nothing |
| Demuxers.Demuxer.Consume | src/demuxer.cpp:17-26 | draining the packetizer is a run over all packets in its bytes, and leaves the residue |
| Demuxers.NextPacket | src/demuxer.cpp:18-23 | taking one packet from the buffer leads to the same end state and residue |
| Pumps.Pump | src/main.cpp:77-88 | feeding chunks and consuming after each has the effect of all bytes at once |
| DemuxInvariants.RunExtends | src/demuxer.cpp:28-45 | over every run a registered PID keeps its kind of parser and the logs only grow |
| DemuxInvariants.EveryRunIsTraced | src/demuxer.cpp:11-45 | over every run PID 0 alone is the association parser, map parsers were named by an association section, each stream was created once with the type of the first map section that gave it, and all that was named is registered |
| EndToEnd.OutputOfStream | src/demuxer.cpp:17-26 | a stream's output is that of its own packets after registration |
| EndToEnd.CallbacksOfParser | src/demuxer.cpp:17-26 | a section parser's callbacks are those of its own packets after registration |
| EndToEnd.PartsArePieces | src/parser_psi.cpp:9-14 | what section packets add to their parser is the section data they carry: behind the pointer field at a unit start, the whole payload otherwise |
| EndToEnd.SpreadSectionsArrive | src/parser_psi.cpp:5-37 | encoded sections spread over any number of packets, cut anywhere but in padding and interleaved with any other PIDs, all reach the callback in order |
| EndToEnd.NoPacketsNoChange | src/demuxer.cpp:17-26 | packets of other PIDs can only register a PID |
| EndToEnd.WovenUnitsComeBack | src/ts_packet.cpp:7-44 | encoded packets between foreign bytes are seen as those packets |
| EndToEnd.Demultiplex | src/main.cpp:74-88 | a fresh demultiplexer fed with chunks ends in the run over all packets of the bytes |
| Multiplex.PlannedRuns | src/demuxer.cpp:17-45 | packets according to a plan meet every parser assumption, and each parser's state is what its PID's packets make it |
| Multiplex.PlannedStreamIsDelivered | src/demuxer.cpp:17-45 | every announced stream of a plan is created once with its type and receives exactly its bytes, in every interleaving |
| Multiplex.PlannedStreamsAreDelivered | src/demuxer.cpp:17-45 | the same for all streams of the plan at once |
| Multiplex.DemultiplexPlan | src/main.cpp:74-88 | the same from bytes: any bytes but sync bytes between packets, any chunks that fit and overwrite no packet view |
| OneProgram.OneProgramIsPlanned | src/demuxer.cpp:17-45 | plans can be met: both tables cut at any byte over a unit start and a continuation packet, and a stream packet, for any PIDs, type, header and bytes |
| OneProgram.OneProgramIsDelivered | src/main.cpp:74-88 | on the wire: five packets of 188 bytes with adaptation stuffing in one chunk, both tables cut at any byte, for any PIDs and type and any header and bytes that fit, deliver the bytes |
| OneProgram.OneProgramExists | src/main.cpp:74-88 | there are such packets for every program |
| BipartiteMatching.MaxBipartiteMatchState.constructor | depends/googletest/googlemock/src/gmock-matchers.cc:124-127 | nothing is matched |
| BipartiteMatching.MaxBipartiteMatchState.TryAugment | depends/googletest/googlemock/src/gmock-matchers.cc:182-206 | terminates; success restores mutual reference and adds exactly the start node to the matched ones; failure changes neither vector and its explored nodes have all neighbours seen and matched among them |
| BipartiteMatching.MaxBipartiteMatchState.Search | depends/googletest/googlemock/src/gmock-matchers.cc:145-153 | each round keeps a vertex cover of the nodes tried so far that is as large as the matching |
| BipartiteMatching.MaxBipartiteMatchState.Compute | depends/googletest/googlemock/src/gmock-matchers.cc:130-161 | the result is a matching as large as some vertex cover of the graph |
| BipartiteMatching.SwapCover | depends/googletest/googlemock/src/gmock-matchers.cc:182-206 | after a failed search, exchanging explored left nodes for seen right nodes gives a cover of the same size for one node more |
| BipartiteMatching.LinkReleased | depends/googletest/googlemock/src/gmock-matchers.cc:198-203 | linking to a right node whose partner found another one restores mutual reference |
| BipartiteMatching.MatchingAtMostCover | depends/googletest/googlemock/src/gmock-matchers.cc:129-161 | no matching is larger than a vertex cover |
| BipartiteMatching.FindMaxBipartiteMatching | depends/googletest/googlemock/src/gmock-matchers.cc:228-230 | for every graph the result is a matching and no matching has more pairs |
| BipartiteMatching.FindPairing | depends/googletest/googlemock/src/gmock-matchers.cc:420-459 | by flag: for a superset true iff some matching covers all matchers, for a subset iff some matching covers all elements, for an exact match iff one covers both |
| SimpleRegex.ValidateRegex | depends/googletest/googletest/src/gtest-port.cc:823-874 | accepts iff the text is the spelling of some regex |
| SimpleRegex.SpecialCharacters | depends/googletest/googletest/src/gtest-port.cc:769-790 | the characters that may be escaped, that are not supported and that repeat, as literal sets |
| SimpleRegex.AtomStandsFor | depends/googletest/googletest/src/gtest-port.cc:776-812 | the characters that every atom accepts, plain or escaped, as literal sets |
| SimpleRegex.TokenStandsFor | depends/googletest/googletest/src/gtest-port.cc:883-905 | a token matches such characters, as often as its repetition sign allows |
| SimpleRegex.OneAtomIsFound | depends/googletest/googletest/src/gtest-port.cc:946-958 | a pattern of one atom is found iff one of its characters occurs |
| SimpleRegex.ScanAcceptsSpellings | depends/googletest/googletest/src/gtest-port.cc:829-873 | the character-by-character conditions describe the grammar, both ways |
| SimpleRegex.ReadingIsUnique | depends/googletest/googletest/src/gtest-port.cc:910-936 | a text spells at most one regex |
| SimpleRegex.HeadUnfold | depends/googletest/googletest/src/gtest-port.cc:883-936 | matching a token and the rest at the head, in terms of how often the token repeats |
| SimpleRegex.MatchRepetitionAndRegexAtHead | depends/googletest/googletest/src/gtest-port.cc:883-905 | terminates, true iff some allowed number of repetitions and then the rest match at the head |
| SimpleRegex.MatchRegexAtHead | depends/googletest/googletest/src/gtest-port.cc:910-936 | terminates, true iff some prefix (the whole string if anchored) is in the language; which characters an atom accepts is fixed by AtomStandsFor |
| SimpleRegex.MatchRegexAnywhere | depends/googletest/googletest/src/gtest-port.cc:946-958 | true iff a substring that respects the anchors is in the language |
| SimpleRegex.FullPatternSpelling | depends/googletest/googletest/src/gtest-port.cc:991-1009 | the full pattern spells the regex with both anchors, unless it ends in an escaped dollar sign |
| SimpleRegex.FullPatternAnchorsIff | depends/googletest/googletest/src/gtest-port.cc:1006-1007 | a full match decides membership of the whole string, for all strings, iff the regex does not end in an escaped dollar sign |
| SimpleRegex.RE.constructor | depends/googletest/googletest/src/gtest-port.cc:979-1010 | valid iff the text spells a regex, with both patterns kept |
| SimpleRegex.RE.FullMatch | depends/googletest/googletest/src/gtest-port.cc:968-970 | true iff valid and the whole string is in the language; for a regex that ends in an escaped dollar sign, iff some prefix is |
| SimpleRegex.RE.PartialMatch | depends/googletest/googletest/src/gtest-port.cc:974-976 | true iff a substring that respects the anchors is in the language |
| Utf8.IsValidUtf8 | depends/googletest/googletest/src/gtest-printers.cc:380-415 | accepts iff the bytes are a concatenation of encoded Unicode scalar values, reading inside the length only |
| Utf8.EncodedIsCharacter | depends/googletest/googletest/src/gtest-printers.cc:390-412 | every encoded scalar value passes the tests of its length |
| Utf8.CharacterIsEncoded | depends/googletest/googletest/src/gtest-printers.cc:390-412 | whatever passes the tests encodes a scalar value, so no overlong forms and no surrogates pass |
| Utf8.PeelCharacter | depends/googletest/googletest/src/gtest-printers.cc:384-413 | behind a leading character, well-formedness is that of the rest |
| CharPrinter.PrintAsCharLiteralTo | depends/googletest/googletest/src/gtest-printers.cc:145-192 | the escape and the format of each byte in a character literal |
| CharPrinter.PrintAsStringLiteralTo | depends/googletest/googletest/src/gtest-printers.cc:194-214 | the escape and the format of each byte in a string literal |
| CharPrinter.PrintCharsAsStringTo | depends/googletest/googletest/src/gtest-printers.cc:267-289 | the printed text, broken before a digit that would lengthen a hexadecimal escape, and whether one was needed |
| CharPrinter.SpellingIs | depends/googletest/googletest/src/gtest-printers.cc:145-192 | the spelling of every byte written out: as it is from space to tilde, the ten letter escapes, otherwise hexadecimal digits without a leading zero |
| CharPrinter.PrintedIs | depends/googletest/googletest/src/gtest-printers.cc:267-289 | the printed text is those spellings, with a break where a hexadecimal digit follows a hexadecimal escape |
| CharPrinter.PrintedReads | depends/googletest/googletest/src/gtest-printers.cc:267-289 | a reader of adjacent C string literals always accepts the text, and gets the input back iff no NUL stands directly before an octal digit |
| CharPrinter.MeaningIsInputIff | depends/googletest/googletest/src/gtest-printers.cc:149-150 | what the text reads as is the input iff no NUL stands directly before an octal digit |
| PrimeTables.IsPrime | depends/googletest/googletest/samples/prime_tables.h:57-66 | trial division up to the square root decides primality for every integer |
| PrimeTables.PrimeAbove | depends/googletest/googletest/samples/prime_tables.h:68-74 | above every number there is a prime, so the search ends |
| PrimeTables.GetNextPrimeOnTheFly | depends/googletest/googletest/samples/prime_tables.h:68-74 | the least larger prime, or -1 for negative arguments |
| PrimeTables.PreCalculatedPrimeTable.constructor | depends/googletest/googletest/samples/prime_tables.h:82-85 | the table is right up to its maximum |
| PrimeTables.PreCalculatedPrimeTable.IsPrimeAt | depends/googletest/googletest/samples/prime_tables.h:88-90 | agrees with primality inside the table |
| PrimeTables.PreCalculatedPrimeTable.GetNextPrime | depends/googletest/googletest/samples/prime_tables.h:92-98 | the least larger prime in the table, or -1 iff it holds none |
| PrimeTables.CalculatePrimesUpTo | depends/googletest/googletest/samples/prime_tables.h:101-117 | for every number up to the maximum the mark says whether it is prime |
| PrimeTables.CandidateDecided | depends/googletest/googletest/samples/prime_tables.h:107-108 | when the sieve reaches a candidate its mark is already right |
| PrimeTables.SieveMovesOn | depends/googletest/googletest/samples/prime_tables.h:107 | skipping even candidates above two loses nothing |
| PrimeTables.SieveDone | depends/googletest/googletest/samples/prime_tables.h:107 | stopping at the square root and marking from squares on is enough |
| Shuffling.ShuffleRange | depends/googletest/googletest/src/gtest-internal-inl.h:309-330 | the array after the in-place swaps, for any random numbers in range |
| Shuffling.FirstRound | depends/googletest/googletest/src/gtest-internal-inl.h:321-329 | a round exchanges the chosen element with the last of the range and leaves the others |
| Shuffling.LastIsChosen | depends/googletest/googletest/src/gtest-internal-inl.h:321-329 | the first number drawn picks the element that ends up last |
| Shuffling.ShuffledPermutes | depends/googletest/googletest/src/gtest-internal-inl.h:309-330 | a permutation of the range that leaves everything else alone |
| Shuffling.ChoicesAreDetermined | depends/googletest/googletest/src/gtest-internal-inl.h:321-329 | different random numbers give different orders of distinct elements |
| Shuffling.EveryOrderIsReached | depends/googletest/googletest/src/gtest-internal-inl.h:321-329 | every order of the range comes from some random numbers |
| PrerequisiteGraphs.TransitiveIffPath | depends/googletest/googlemock/src/gmock-spec-builders.cc:112-127 | the transitive prerequisites, as a smallest closed set, are the ends of nonempty paths |
| PrerequisiteGraphs.WeightOfPop | depends/googletest/googlemock/src/gmock-spec-builders.cc:134-147 | replacing a stack entry by all its prerequisites removes exactly one path, so traversal without a visited set ends |
| PrerequisiteGraphs.NewestNodeGainsPrerequisites | depends/googletest/googlemock/include/gmock/gmock-spec-builders.h:970-981 | clauses on the newest expectation make no cycle and change nobody else's transitive prerequisites |
| Expectations.Expectation.constructor | depends/googletest/googlemock/src/gmock-spec-builders.cc:79-93 | a new expectation is active, uncalled and without prerequisites |
| Expectations.Expectation.AddPrerequisite | depends/googletest/googlemock/include/gmock/gmock-spec-builders.h:977-979 | adds one prerequisite, once |
| Expectations.Expectation.RetireImmediatePreRequisites | depends/googletest/googlemock/src/gmock-spec-builders.cc:117-125 | the inner loop retires and pushes exactly the unretired immediate prerequisites |
| Expectations.Expectation.RetireAllPreRequisites | depends/googletest/googlemock/src/gmock-spec-builders.cc:104-127 | if the retired set is closed, exactly the transitive prerequisites are retired in addition |
| Expectations.Expectation.AllPrerequisitesAreSatisfied | depends/googletest/googlemock/src/gmock-spec-builders.cc:131-148 | terminates on every acyclic graph, true iff all transitive prerequisites are satisfied |
| Expectations.Expectation.FindUnsatisfiedPrerequisites | depends/googletest/googlemock/src/gmock-spec-builders.cc:151-174 | adds exactly the unsatisfied prerequisites reachable through satisfied ones that were never called |
| Expectations.Expectation.ShouldHandleArguments | depends/googletest/googlemock/include/gmock/gmock-spec-builders.h:1094-1106 | true iff active, all transitive prerequisites satisfied, and the arguments match |
| Expectations.Expectation.GetActionForArguments | depends/googletest/googlemock/include/gmock/gmock-spec-builders.h:1192-1218 | counts the call, and reports it as excessive iff the cardinality was used up before; the new state of all objects is the one that CallEffects describes |
| Expectations.FindMatchingExpectation | depends/googletest/googlemock/include/gmock/gmock-spec-builders.h:1728-1744 | the newest expectation that matches and can take the call, with every newer one that matches unable to; none iff no matching one can |
| Expectations.MockCall | depends/googletest/googlemock/include/gmock/gmock-spec-builders.h:1694-1716 | a call goes to the newest expectation that can take it, is one step of the state machine and keeps its invariant; excessive iff the cardinality was used up; nothing changes when nobody takes it |
| ExpectationLaws.CanHandleIff | depends/googletest/googlemock/src/gmock-spec-builders.cc:131-148 | an expectation takes calls iff it is active and the call count of everything at the end of a path of prerequisites lies within its bounds |
| ExpectationLaws.UncalledPrerequisiteBlocks | depends/googletest/googlemock/src/gmock-spec-builders.cc:144 | a prerequisite called less often than it has to be, at any distance, holds back who depends on it |
| ExpectationLaws.CallEffects | depends/googletest/googlemock/include/gmock/gmock-spec-builders.h:1192-1218 | everything a call does to any expectation: one count; unless excessive, the ends of paths of prerequisites are retired; the called one is retired iff it retires on saturation and this was its last call |
| ExpectationLaws.SaturatedIsNeverExceeded | depends/googletest/googlemock/include/gmock/gmock-spec-builders.h:1211-1213 | over every run an expectation that allows calls and retires on saturation never takes an excessive call, and is retired once saturated |
| ExpectationLaws.DeclareMeaning | depends/googletest/googlemock/src/gmock-spec-builders.cc:79-93 | a declaration adds an active, uncalled expectation with the given bounds and leaves the others and their prerequisites alone |
| ExpectationLaws.AfterMeaning | depends/googletest/googlemock/include/gmock/gmock-spec-builders.h:970-981 | a clause gives the expectation the prerequisite with all that this depends on, and changes nothing else |
| ExpectationModel.EveryRunIsOrdered | depends/googletest/googlemock/src/gmock-spec-builders.cc:104-127 | over every run the retired set is closed under prerequisites, and whoever took a call within its cardinality has only retired and satisfied prerequisites |
| ExpectationModel.PrerequisitesAreOver | depends/googletest/googlemock/include/gmock/gmock-spec-builders.h:1192-1218 | once an expectation that allows calls has taken one, no prerequisite of it ever takes another |
| ExpectationModel.CallRetiresPrerequisitesIff | depends/googletest/googlemock/include/gmock/gmock-spec-builders.h:1198-1213 | a handled call leaves all prerequisites retired iff the expectation allows calls or they were retired before |
| ExpectationModel.ForbiddenCallFreezesNothing | depends/googletest/googlemock/include/gmock/gmock-spec-builders.h:1198-1206 | an expectation of no calls takes one and its prerequisite still takes calls |
| ExpectationModel.DiagnosisIsComplete | depends/googletest/googlemock/src/gmock-spec-builders.cc:151-174 | in every reachable state the reported set is empty iff all transitive prerequisites are satisfied, although the search does not look behind called ones |
| ExpectationLaws.DiagnosisIff | depends/googletest/googlemock/src/gmock-spec-builders.cc:151-174 | exactly those are reported whose count is out of bounds and which a path through satisfied, never called prerequisites leads to |
| MutexProtocol.ReachableIsKept | depends/googletest/googletest/src/gtest-port.cc:358-461 | the inductive invariants of all interleavings from both starts, for any use of the mutex and for two kinds of restricted use |
| MutexProtocol.SectionIsMadeOnce | depends/googletest/googletest/src/gtest-port.cc:418-461 | over any threads, interleavings and use, recursive or not, the section is allocated once, and nobody gets past the initialisation before it is complete |
| MutexProtocol.InitializationNeverFails | depends/googletest/googletest/src/gtest-port.cc:421-459 | over any interleavings and use the phase is never unexpected, publishing finds it at 1, no section is used before it is ready |
| MutexProtocol.SpinningEnds | depends/googletest/googletest/src/gtest-port.cc:442-449 | in every state that keeps the invariants a spinning thread leaves the loop, ready for the operation it came for, after at most four steps of one other thread and one of its own |
| MutexProtocol.InitializationEnds | depends/googletest/googletest/src/gtest-port.cc:417-461 | in every reachable state, whatever the use, a thread in the lazy initialisation gets behind it, with the operation it came for, by at most six steps of its own and one other thread |
| MutexProtocol.LockingSucceeds | depends/googletest/googletest/src/gtest-port.cc:358-362 | in every reachable state, a thread that locks a mutex which is free, its own or not set up yet holds it one level deeper and is its recorded owner after at most eight such steps |
| MutexProtocol.OnlyAssertHeldFails | depends/googletest/googletest/src/gtest-port.cc:364-379 | if threads unlock only while holding, nothing but the check of AssertHeld fails, recursive locking or not |
| MutexProtocol.LeavingPassesIffHeld | depends/googletest/googletest/src/gtest-port.cc:364-371 | whatever the use, leaving the section succeeds iff the thread holds it, at any depth |
| MutexProtocol.HoldersExclude | depends/googletest/googletest/src/gtest-port.cc:358-371 | if threads unlock only while holding, at most one thread holds the mutex or is entering or leaving it, recursive locking or not |
| MutexProtocol.OnlyTheHolderIsRecorded | depends/googletest/googletest/src/gtest-port.cc:358-379 | if threads unlock only while holding, the recorded owner holds the mutex and AssertHeld passes for no other thread, recursive locking or not |
| MutexProtocol.OwnerNamesTheHolder | depends/googletest/googletest/src/gtest-port.cc:358-371 | under non-recursive use (OneLevel) the recorded owner is the holder, from the assignment in Lock to the reset in Unlock, and nobody otherwise |
| MutexProtocol.AssertHeldPassesIffHeld | depends/googletest/googletest/src/gtest-port.cc:375-379 | under non-recursive use (OneLevel) the check passes iff the calling thread holds the mutex |
| MutexProtocol.UnlockingForgetsTheOwnerIff | depends/googletest/googletest/src/gtest-port.cc:364-371 | in every reachable state of a static or dynamic mutex, unlocking leaves the recorded owner right iff the mutex was locked once |
| MutexProtocol.RecursiveUseForgetsTheOwner | depends/googletest/googletest/src/gtest-port.cc:358-371 | from every state in which an initialised mutex is free, locking twice and unlocking once leaves a thread that holds it and is not its recorded owner |

## Left out

- Packetizers.Packetizer.Get: nothing is said of the view's bytes when the adaptation field does not fit the packet; its size then wraps around and it lies outside the packet.
- SimpleRegex.MatchRepetitionAndRegexAtHead: strings must be shorter than the largest size_t, a limit that the source admits to as well.
- PrimeTables.GetNextPrimeOnTheFly: over mathematical integers; overflow of `i*i` and `n++` in `int` is not modelled.
- PrimeTables.PreCalculatedPrimeTable.GetNextPrime: arguments below -1 index before the array in the source and are excluded.
- Demuxers.Demuxer.Dispatch: the callbacks of one packet are made after its section loop rather than inside it; the callbacks only register other parsers, so the parser that is running is not affected.
- BipartiteMatching.MaxBipartiteMatchState.Compute: the unused marker is -1 of unbounded integers rather than the largest size_t, and the match matrix is a sequence of rows rather than one flat vector.
- MutexProtocol.ReachableIsKept: sequentially consistent steps with one shared access each; memory ordering weaker than that, fairness and thread priorities are not modelled. Leaving a section that the thread is not in is undefined in the system's interface; here it stops the thread.
- Expectations.MockCall: whether arguments match is a parameter, and the cardinality of an expectation is fixed when it is declared; actions, messages and the sequence objects that add the previous expectation as a prerequisite are left out.
- Expectations.Expectation.RetireAllPreRequisites: the order in which a set of prerequisites is visited is that of any sequence; ownership through shared pointers is not modelled.
- File input and output, file names, output sinks and exceptions of the main program: plumbing; the consumer is a log of its calls and the factory a log of its creations.
- Checksums, table ids, versions, section numbers, continuity counters, scrambling: the code ignores them, so they are arbitrary bytes.
- PES packets with other stream ids and PES headers split over packets: asserted away or documented as unsupported in the source.
- Test descriptions, failure messages, listeners and the other parts of the vendored framework: operating system and template plumbing.
- Wide character printing, and regular expressions on platforms that have their own library.
- Random number generation: the numbers drawn are parameters of the shuffle.
