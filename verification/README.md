# Verification of libaribtlv

libaribtlv demultiplexes ARIB MMT/TLV broadcasts incrementally. It is a stack of state machines, each driven by bytes or by
events from the one below. This project models those machines in Dafny with the branches, limits, constants and error paths of the
C++ sources, and proves what they promise over all inputs and all runs.

The C++ objects that update themselves appear as classes with the same fields, updated by methods. Each method is proved against a
specification function or relation on values, and the long-range properties are lemmas about those specifications.

| file | models |
|---|---|
| `Bytes.dfy`, `Totals.dfy` | bytes, big-endian reads, sums over maps |
| `TlvFraming.dfy`, `TlvLocking.dfy`, `TlvParser.dfy` | TLV framing: the simple framing function, the buffered parser, getting into step, and the class with its split-packet, direct and resynchronizing paths |
| `Crc.dfy`, `TlvSections.dfy`, `SectionLosses.dfy`, `TlvSectionExtractor.dfy`, `SectionAssembly.dfy` | the section CRC, cutting sections out of TLV-SI packets, which sections are lost, assembling NIT and AMT tables |
| `Fragments.dfy`, `Hevc.dfy`, `Timing.dfy`, `TrackModel.dfy`, `TrackPackets.dfy`, `TrackRoundTrip.dfy`, `MediaParser.dfy` | MMTP media: fragments, HEVC access units, time stamps and leap seconds, a whole track, packets through a track, pictures from sender to sink, and the classes |
| `StateBudget.dfy`, `PacketStates.dfy` | committing an MPT to packet routing, and the global budget of packet states |
| `SnapshotDiff.dfy`, `ServiceInventory.dfy` | MPT snapshots against the inventory of tracks, and the events a sink sees |
| `Timeline.dfy` | exact 64-bit timeline arithmetic and normalization |
| `Statistics.dfy`, `SeekIndex.dfy`, `Recording.dfy` | the recording index |
| `ProbeProtocol.dfy`, `ProbeOutcomes.dfy`, `DurationProbe.dfy` | the range protocol of the duration probe, what it comes to, and the class |
| `ResourcePaths.dfy`, `ResourceIndex.dfy`, `SectionSets.dfy`, `ResourceCatalogue.dfy`, `CatalogueContents.dfy`, `ResourceShelf.dfy`, `ResourceRuns.dfy`, `ResourceEffects.dfy`, `ResourceOrigins.dfy`, `ResourceTables.dfy`, `ResourceRetries.dfy`, `ResourceListings.dfy`, `ResourceQuiet.dfy`, `ResourceWitness.dfy`, `ResourceHomes.dfy`, `ResourceStranded.dfy`, `ResourceAssembler.dfy` | application resources: paths, index items, table sections, the catalogue, what one unit does, runs, what the operations bring about, where stored files come from, when tables commit, the retry loop and when it goes wrong, what an index lists, a run in which it does, where files belong, files that nothing takes away, and the assembler and store classes |

Where the code does not keep what one would expect of it, the model follows the code and a lemma says exactly when it does:

- A push makes the reports of buffering everything, and one resource limit more exactly when a header that was split over two
  pushes is refused, more input follows it, and the resync limit is below three bytes (`TlvParsing.ReportsExactly`; it happens in
  `TlvParsing.OnceMoreWitness`).
- A TLV-SI section is lost exactly when, at some turn of the loop, the loop passes over its first byte: to the first complete section
  further back, by the length of an invalid section in front of it while none is complete, or by publishing a section that covers it
  (`SectionLosses.LostExactly`; each of the three happens, in `SectionLosses.OvertakenWitness`, `SectionLosses.SwallowedWitness` and
  `SectionLosses.CoveredWitness`).
- An HEVC continuation slice opens an access unit exactly when a picture waits, the sample number is new and the NAL fits
  (`Hevc.ContinuationOpensUnit`). All units handed on in a run begin with their first slice exactly when no unit opened like that is
  handed on (`Hevc.RunLeadsExactly`, `Hevc.ContinuationWitness`).
- A unit whose last fragments are missing is lost without damage being noted exactly when the first fragment of another one comes
  with the very next packet number and fits; every gap in the numbers is noted (`Fragments.LossIsNoted`).
- An index item that can be used at once is not followed by a retry, so an item that waits for it stays there, usable, until another
  unit has to wait or a catalogue is committed. From a state in which nothing usable waits, this happens exactly when such an index
  lists an item that waits and does not remove it (`ResourceRetries.SettlesExactly`).
- An item that awaits its deferred removal may be listed again. If a waiting unit completes the update that removes its own item while
  the retry loop stands on it, the loop's iterator is erased under it; `ResourceRetries.DanglesExactly` says exactly when, and
  `ResourceQuiet.NeverDangles` gives a condition on what arrives under which it never happens. The model records it in `dangling` and
  goes on without a second release. What the C++ program does from there on is undefined, so statements about states in which
  `dangling` is set say nothing about the program. `ResourceWitness.WitnessRun` is a run that reaches both failures.
- When the successor of an MPU leaves the catalogue before its update ends, no unit takes the files of that MPU away any more
  (`ResourceStranded.StrandedStays`; `ResourceStranded.StrandingRun` is a run that gets there). Otherwise every stored file belongs to an
  MPU of the catalogue or to one that is superseded (`ResourceHomes.FilesHaveHomes`).
- When a catalogue is replaced, the search for MPUs whose nodes changed has no effect: those that are still listed are passed over
  (`ResourceAssembly.ApplicationResourceAssembler.FindRetired`).

Modelling choices:

- Callbacks are recorded: as fields of the classes, or as event sequences.
- The demuxer inside the duration probe is an arbitrary environment, and `uncompress` an arbitrary function from bytes and a size.
- Where the program visits a hash map or an ordered map, the model leaves the order open, so what is proved holds for every order.
- The superseded MPUs and deferred items of an MPU are sets: the order and repetitions of those lists change nothing but the order of
  removal events.
- TLV-SI bytes are bit vectors, all other bytes are integers from 0 to 255.

## Model

| member | source | states |
|---|---|---|
| TlvFraming.FirstBoundary | src/tlv_parser.cpp:134-193 | the boundary found is validated by the header after it (or the end of the stream) and no earlier position is; TlvLocking.SearchExactly says so over the bytes themselves |
| TlvLocking.SearchExactly | src/tlv_parser.cpp:134-193 | the search finds the first place where the bytes of a packet of known type within the limit are followed by a header of known type (or by the end of the stream), and fails iff there is no such place |
| TlvLocking.OutOfStep | src/tlv_parser.cpp:134-193 | a push gets an unsynchronized parser into step and delivers a packet iff such a place is there; otherwise it delivers nothing and keeps everything within the resync limit, or else the last three bytes, at their offset |
| TlvLocking.LocksOn | src/tlv_parser.cpp:14-193 | bytes in which no header can begin, and then packets, in any chunks of which the first reaches over the first packet and the next header: a new or reset parser delivers exactly those packets, each at its offset |
| TlvFraming.FrameExtends | src/tlv_parser.cpp:195-248 | more input never changes the packets already framed or their offsets, it only continues the framing |
| TlvFraming.LossStays | src/tlv_parser.cpp:195-248 | a loss of synchronization stays at its place however much input follows |
| TlvFraming.SettleIsFrame | src/tlv_parser.cpp:195-248 | while in step the buffered parser is the simple framing function, and a loss is reported at its offset |
| TlvFraming.ChunkInvariance | src/tlv_parser.cpp:14-81 | for every byte sequence and every split into pushes, packets, absolute offsets and leftover bytes of a synchronized parser are those of framing the whole input once; after a loss the packets before it and its place still are |
| TlvFraming.RoundTrip | src/tlv_parser.cpp:14-81 | packets sent in any chunks come out exactly, each at its offset |
| TlvFraming.RunSound | src/tlv_parser.cpp:83-248 | over every run of pushes and flushes on any bytes: packets are disjoint in-order slices at the offsets they claim, buffer and offset account for every byte, a flush leaves nothing, and the buffer stays within one packet or the resync limit |
| TlvParsing.TopUp | src/tlv_parser.cpp:24-52 | completing only the split packet first and then pushing the rest of the input is pushing both together, and leaves the parser waiting for the rest of one packet or out of step with three bytes |
| TlvParsing.TlvParser.Reset | src/tlv_parser.cpp:88-93 | an empty, unsynchronized parser at the given offset |
| TlvParsing.TlvParser.Compact | src/tlv_parser.cpp:116-128 | erasing the consumed prefix leaves what the parser holds and where it stands unchanged |
| TlvParsing.TlvParser.Scan | src/tlv_parser.cpp:134-175 | the search loop finds exactly the first validated boundary |
| TlvParsing.TlvParser.FindBoundary | src/tlv_parser.cpp:134-193 | resynchronization moves to the first boundary, or keeps only the tail that may still begin one, with the reports of the specification |
| TlvParsing.TlvParser.Process | src/tlv_parser.cpp:195-248 | the in-place loop ends in the state and with the events of the buffered parser |
| TlvParsing.TlvParser.FillSplitPacket | src/tlv_parser.cpp:24-52 | the top-up loop terminates; it ends the push, or what is left of the input, pushed from there, does |
| TlvParsing.TlvParser.DeliverDirect | src/tlv_parser.cpp:61-76 | packets handed out without buffering are those buffering would report |
| TlvParsing.TlvParser.Push | src/tlv_parser.cpp:14-81 | whichever path it takes, from any state, a push ends in the state of the buffered push and with its packets, offsets, resynchronizations and reports, plus the one report that ReportsExactly tells of |
| TlvParsing.ReportsExactly | src/tlv_parser.cpp:14-81 | state and deliveries of a push are always those of buffering; the reports differ iff a split header is refused with more input behind it and a resync limit below three, and then by one |
| TlvParsing.OnceMoreWitness | src/tlv_parser.cpp:14-81 | three bytes of a bad header and two more bytes give the second report |
| TlvParsing.TlvParser.Flush | src/tlv_parser.cpp:83-86 | the end of the stream is that of the buffered parser |
| Crc.Crc32Mpeg | src/tlv_transport_parser.cpp:14-25 | the two loops compute the shift-register CRC of the bytes |
| Crc.ResidueZero | src/tlv_transport_parser.cpp:14-25 | the CRC over a section is zero iff its last four bytes are the CRC of what precedes them |
| Crc.BurstDetected | src/tlv_transport_parser.cpp:14-25 | two sections that differ only within four consecutive bytes never have the same CRC, so at most one passes |
| Crc.CheckValue | src/tlv_transport_parser.cpp:14-25 | the CRC of the digits 1 to 9 is 0x0376e6e7 |
| TlvSections.ValidExactly | src/tlv_transport_parser.cpp:239-253 | the valid sections are exactly the encodings of a table number, flags, a length from 9 to 1021, extension and version, a number not past the last, a payload and the CRC of all that |
| TlvSections.OriginsByPacket | src/tlv_transport_parser.cpp:228-232 | each byte of each packet is in the stream, in order, with the offset of its packet |
| TlvSections.FirstValid | src/tlv_transport_parser.cpp:239-253 | the offset returned starts a complete valid section and no earlier one does |
| TlvSections.SkipLosesNothing | src/tlv_transport_parser.cpp:254-293 | no discarded position starts a complete valid section |
| TlvSections.SplitWaitsExactly | src/tlv_transport_parser.cpp:275-282 | the first bytes of a section at the front of the buffer wait for the rest iff no complete section starts inside them |
| TlvSections.DrainInOrder | src/tlv_transport_parser.cpp:264-302 | published sections are valid contiguous slices of the bytes, in order and disjoint |
| TlvSections.DrainLeavesLittle | src/tlv_transport_parser.cpp:264-302 | the loop ends with fewer than 1024 bytes, none of which starts a complete section |
| TlvSections.NoSectionLost | src/tlv_transport_parser.cpp:264-302 | every complete section in the bytes is published or starts inside a published one |
| TlvSections.RunSound | src/tlv_transport_parser.cpp:228-303 | the three properties above over any sequence of packets |
| TlvSections.OutputValid | src/tlv_transport_parser.cpp:283-301 | every section told to a subscriber has CRC residue zero and a number not past the last |
| TlvSections.WholeSectionsComeThrough | src/tlv_transport_parser.cpp:228-303 | a packet of whole valid sections publishes exactly those, with the packet's offset, and leaves nothing waiting |
| SectionLosses.MoveExactly | src/tlv_transport_parser.cpp:264-293 | a turn goes past the first byte of a section iff it publishes a section that covers it, the first complete section lies further back, or the length of an invalid section in front reaches past it while none is complete |
| SectionLosses.LostExactly | src/tlv_transport_parser.cpp:228-303 | over any packets, a valid section anywhere in the stream is published, at its place and whole, iff no turn passed over its first byte in one of these ways |
| SectionLosses.OvertakenWitness | src/tlv_transport_parser.cpp:275-282 | a section split behind a complete one inside it is lost |
| SectionLosses.SwallowedWitness | src/tlv_transport_parser.cpp:283-293 | any section split behind an invalid one that is ten bytes long and claims twelve is lost |
| SectionLosses.CoveredWitness | src/tlv_transport_parser.cpp:294-302 | a section inside another one is not published by itself |
| TlvSectionExtraction.TlvSectionExtractor.FindCompleteBoundary | src/tlv_transport_parser.cpp:239-253 | the search loop returns the first complete section |
| TlvSectionExtraction.TlvSectionExtractor.NextMove | src/tlv_transport_parser.cpp:264-293 | the branches of one turn take the specified decision |
| TlvSectionExtraction.TlvSectionExtractor.ProcessSections | src/tlv_transport_parser.cpp:264-302 | the loop terminates; buffer and origins are erased in step, and each section is told with the origin of its first byte |
| TlvSectionExtraction.TlvSectionExtractor.ConsumeTlvSi | src/tlv_transport_parser.cpp:228-232 | after any packets the buffers are the unconsumed stream with its origins and the subscriber was told the specified output |
| SectionAssembly.RunHolds | src/tlv_transport_parser.cpp:488-531 | each table holds exactly the latest section of every number since its version began, and no other version of it is kept |
| SectionAssembly.CountSuffices | src/tlv_transport_parser.cpp:512-515 | having last + 1 sections means having exactly the sections 0 to last |
| SectionAssembly.NewVersionIsEmitted | src/tlv_transport_parser.cpp:488-531 | whatever a table held before, a new version is emitted by the section that comes last, once each of its numbers has come |
| SectionAssembly.EmitsExactly | src/tlv_transport_parser.cpp:506-531 | a snapshot is emitted iff a section that is no mere repetition completes sections 0 to last; its lists are those of the latest sections 0 to last, one after another in the order of section numbers, and it carries the offset of the arrival that brought the body of section 0 |
| SectionAssembly.JoinedInOrder | src/tlv_transport_parser.cpp:516-530 | joining flattens the lists of the latest sections, by section number |
| SectionAssembly.ArrivalOrderIrrelevant | src/tlv_transport_parser.cpp:516-530 | the same sections in any order of arrival give the same snapshot |
| SectionAssembly.TableAssembler.EraseOtherVersions | src/tlv_transport_parser.cpp:489-498 | exactly the other versions of that table are erased |
| SectionAssembly.TableAssembler.AcceptSection | src/tlv_transport_parser.cpp:533-572 | the in-place update and its result are those of the specification |
| Fragments.RepeatsAreInvisible | src/mmtp_media_parser.cpp:111-116 | a run with repeated packets is the run without them |
| Fragments.RunSound | src/mmtp_media_parser.cpp:92-192 | every unit emitted is one unfragmented piece or one first, any middle and one last piece of consecutive packets mod 2^32, of one MPU and one sample or item, within the size limit |
| Fragments.NothingLost | src/mmtp_media_parser.cpp:92-192 | from any state, a fragmented unit whose first packet is not the one last seen is emitted exactly once and unchanged, however often its packets repeat |
| Fragments.UnitComesThrough | src/mmtp_media_parser.cpp:92-192 | in terms of packets alone: from any state, a fragmented unit whose first packet does not have the number seen last comes out exactly once and unchanged, each packet coming any number of times |
| Fragments.AnyUnitComesThrough | src/mmtp_media_parser.cpp:92-192 | the same for any unit, fragmented or not, and the packet seen last is then its last |
| Fragments.PayloadsInOrder | src/mmtp_media_parser.cpp:77-90 | what is collected is the payloads one after another in the order of the packets |
| Fragments.HeadersRead | src/mmtp_media_parser.cpp:92-110 | a timed or untimed header in front of a payload reads back as its sample or item number and that payload |
| Fragments.LossIsNoted | src/mmtp_media_parser.cpp:92-192 | a gap in the packet numbers is always noted as damage, and a unit being collected is lost without that iff the first fragment of another one comes with the very next number |
| Fragments.ChainIsUndamaged | src/mmtp_media_parser.cpp:92-192 | packets of a unit that follow on each other cause no damage to be noted |
| MediaParser.AppendMedia | src/mmtp_media_parser.cpp:77-90 | a piece is appended or, past the limit, the unit is given up |
| MediaParser.Reassemble | src/mmtp_media_parser.cpp:586-691 | the branches of the state machine are the specified acceptance of one piece |
| MediaParser.DataAsset.ConsumeDataPiece | src/mmtp_media_parser.cpp:586-691 | the data asset reassembles as specified and a data unit carries and clears the damage noted |
| Hevc.FeedSound | src/mmtp_media_parser.cpp:214-284 | one NAL keeps what waits proper, and what it hands on is an access unit that the wait for random access admits |
| Hevc.KindsOnTheWire | src/mmtp_media_parser.cpp:229-240 | from the header bytes of section 7.3.1.2 of H.265: what counts as a slice, a first slice, a delimiter, a parameter set or prefix SEI, and as offering random access |
| Hevc.LossIsNoted | src/mmtp_media_parser.cpp:214-284 | a NAL leaves all that waited in place or handed on, and itself behind it, or notes damage, or what waited is passed over for not offering random access, or it is skipped itself |
| Hevc.EndIsNoted | src/mmtp_media_parser.cpp:194-212 | what waits is handed on, passed over for not offering random access, or noted as damage |
| Hevc.AnnexBInOrder | src/mmtp_media_parser.cpp:274-277 | the byte stream is the NAL units in order, each behind the start code 00 00 01 |
| Hevc.RunSound | src/mmtp_media_parser.cpp:194-284 | over every run, each unit handed on is NALs in arrival order with at least one slice, at most one first slice, a delimiter only in front, no parameter set or prefix SEI after a slice (section 7.4.2.4.4 of H.265), one nonzero sample number at most, within the limit, and none before a random-access one while that is awaited |
| Hevc.RoundTrip | src/mmtp_media_parser.cpp:194-284 | well-formed pictures come out exactly, NAL by NAL, from the first random-access one on |
| Hevc.ContinuationOpensUnit | src/mmtp_media_parser.cpp:214-284 | a continuation slice closes the unit before it and opens one by itself iff nothing is being skipped, a picture waits, its sample number is neither zero nor that of the picture, and it fits |
| Hevc.UnitLeadsExactly | src/mmtp_media_parser.cpp:194-284 | over every run, a unit handed on begins with its first slice iff no continuation slice opened it under that guard |
| Hevc.RunLeadsExactly | src/mmtp_media_parser.cpp:194-284 | all units of a run begin with their first slice iff no unit opened under that guard is handed on |
| Hevc.ContinuationWitness | src/mmtp_media_parser.cpp:214-284 | two slices of different sample numbers, the second a continuation, come out as two units, or not at all while random access is awaited |
| Timing.UniformAgree | src/mmtp_media_parser.cpp:467-485 | with uniform gaps and distances equal to the decoding offset both types agree at every index |
| Timing.FixedDtsRises | src/mmtp_media_parser.cpp:475-477 | type 1 decode times never fall inside an MPU |
| Timing.StampExactly | src/mmtp_media_parser.cpp:439-527 | under type 2 the presentation time is the sum of the gaps before the place and the decode time that less the own distance (at place 0 minus the decoding offset); otherwise the decode time is the place times the first gap less the decoding offset and the presentation time lies behind it by the own distance; with the NTP stamp corrected, the earliest restart offset, and the clock after it; a unit is dropped iff its type 1 decode time falls |
| Timing.UndescribedExactly | src/mmtp_media_parser.cpp:446-457 | a unit without descriptors that reach to its place is dropped or takes its anchor, and takes its place |
| Timing.GapsAccumulate | src/mmtp_media_parser.cpp:467-474 | under type 2 the first unit is presented at zero and each later than the one before by the gap between them |
| Timing.InOrderKept | src/mmtp_media_parser.cpp:443-484 | samples that come in order, numbered or counted, are never dropped for their decode time under type 1, and each gets its own |
| Timing.UntimedInOrder | src/mmtp_media_parser.cpp:443-451 | untimed samples are always in order, as far as the descriptor reaches |
| Timing.LeapOffset | src/mmtp_media_parser.cpp:491-500 | the correction is one second for each transition from 1 to 0 less one for each from 2 to 0 over the MPUs examined since the stream last ended |
| Timing.ExaminedOnce | src/mmtp_media_parser.cpp:491-500 | however many units an MPU has, its leap indicator counts at most once |
| Timing.RestartIsEarliest | src/mmtp_media_parser.cpp:459-466 | a unit's restart offset is not after that of its first packet nor after those of the descriptors that stamped it |
| Timing.ExpandNearest | src/mmtp_media_parser.cpp:12-21 | the expanded seconds agree with the short form (section 6 of RFC 5905) and lie within 32768 s of the reference, and away from the midpoint no others do |
| Timing.ExpandKeepsShort | src/mmtp_media_parser.cpp:12-21 | the expanded stamp carries the bits of the short form |
| TrackModel.FeedInSteps | src/mmtp_media_parser.cpp:214-284 | skipping, dropping a torn picture, closing and adding compose to the access-unit assembler |
| TrackModel.EvictKeepsHighest | src/mmtp_media_parser.cpp:55-59 | of the time stamp descriptors the 32 highest sequence numbers, or all when there are no more, are kept unchanged |
| TrackModel.AggregatedInTurn | src/mmtp_media_parser.cpp:800-820 | an aggregated packet is its units, each behind its length, taken in one after another, and a bad length at the end is noted as damage |
| TrackModel.MpuChangeExactly | src/mmtp_media_parser.cpp:767-787 | another MPU closes what waits and starts the places over; damage is noted iff an MPU is left out, or the old one had not as many units as its descriptor while no random access is awaited |
| TrackModel.MarkedExactly | src/mmtp_media_parser.cpp:519-560 | a unit is marked iff damage was noted before it, which is forgotten with it; a unit dropped for its time stamps is damage |
| TrackModel.DamageShows | src/mmtp_media_parser.cpp:439-560 | over every run, noted damage marks the next unit handed on, whenever that comes |
| TrackModel.GapShows | src/mmtp_media_parser.cpp:92-192 | so a gap in the packet numbers of an MPU marks the next unit, even one that the same packet completes |
| TrackModel.RunSound | src/mmtp_media_parser.cpp:42-284 | while packet offsets do not fall, with MPTs at any point, which may carry the earlier offset of their first fragment, every unit of a track is the byte stream of a lawful access unit and its restart offset is not after its input offset |
| TrackModel.RunTimed | src/mmtp_media_parser.cpp:439-560 | over every run of a track, ends of the stream included, its clock is where its own operations take it (each unit with the descriptors its tables have at that moment, each change of MPU, each end), and its units carry exactly the stamps those give |
| TrackModel.RunLeapOffset | src/mmtp_media_parser.cpp:491-500 | so the leap correction of a track is one second for each transition from 1 to 0 less one for each from 2 to 0 over the descriptors its own tables had for the MPUs examined since the stream last ended |
| TrackModel.RunInOrder | src/mmtp_media_parser.cpp:443-484 | when the units of a run come in order under one type 1 descriptor, all are handed on, each with its own decode time |
| TrackPackets.SendingTaken | src/mmtp_media_parser.cpp:92-284 | however one NAL unit is cut into packets and however often each comes, it does to a track what the NAL unit does to its access-unit assembler |
| TrackPackets.MpuHandsOn | src/mmtp_media_parser.cpp:92-284 | the packets of an MPU and the end of the stream hand on, stamped, what the access-unit assembler makes of their NAL units |
| TrackRoundTrip.PicturesComeThrough | src/mmtp_media_parser.cpp:92-560 | well-formed pictures sent in a new MPU, cut into packets in any way, each repeated any number of times, come out exactly, each as its NAL units behind start codes, from the first random-access one on, with the decode and presentation time that its own place has under either descriptor type, the leap correction of the MPU and the earliest restart offset |
| TrackRoundTrip.ShownFrom | src/mmtp_media_parser.cpp:194-212 | those shown are all from the first that offers random access on, or all when none is awaited |
| TrackRoundTrip.AnyCutSends | src/mmtp_media_parser.cpp:92-192 | any cut of any NAL unit behind its length, within the limit, is such a sending of it |
| MediaParser.GapsBefore | src/mmtp_media_parser.cpp:468-470 | the loop sums the gaps before an access unit |
| MediaParser.AccessUnitTimes | src/mmtp_media_parser.cpp:467-477 | the loop computes the decode and presentation time of the descriptor's type |
| MediaParser.WatchLeap | src/mmtp_media_parser.cpp:491-500 | the update of the leap state is the specified examination |
| MediaParser.StampUnit | src/mmtp_media_parser.cpp:446-527 | a unit is stamped, anchored or dropped as specified |
| MediaParser.EvictTable | src/mmtp_media_parser.cpp:55-59 | erasing lowest keys in a loop keeps the highest ones |
| MediaParser.HevcTrack.EmitAccessUnit | src/mmtp_media_parser.cpp:439-560 | what is emitted and the track after it are those of the model |
| MediaParser.HevcTrack.FinalizeHevc | src/mmtp_media_parser.cpp:194-212 | closing the access unit in progress refines the model |
| MediaParser.HevcTrack.ConsumeCompleteMfu | src/mmtp_media_parser.cpp:214-284 | one length-prefixed NAL unit refines the model |
| MediaParser.HevcTrack.ConsumeMfuPiece | src/mmtp_media_parser.cpp:92-192 | one fragment refines the model |
| MediaParser.HevcTrack.ConsumeAggregated | src/mmtp_media_parser.cpp:800-820 | the loop over an aggregated body refines the model |
| MediaParser.HevcTrack.ParseMpu | src/mmtp_media_parser.cpp:755-821 | one MPU packet refines the model |
| MediaParser.HevcTrack.Flush | src/mmtp_parser.cpp:133-156 | the end of the stream refines the model |
| MediaParser.HevcTrack.InstallTimestamps | src/mmtp_media_parser.cpp:42-59 | a replacing MPT refines the model |
| StateBudget.CommitExclusive | src/mmtp_signalling_parser.cpp:1285-1365 | after any accepted MPT no packet is both track and data asset, and only listed packets are routed |
| StateBudget.CommitWithin | src/mmtp_signalling_parser.cpp:1285-1365 | a commit never takes more states than the budget leaves |
| StateBudget.CommitExact | src/mmtp_signalling_parser.cpp:1285-1365 | with room for every listed packet, each is routed once under the asset listed last; a route whose asset was routed keeps its state, others start fresh; a packet listed as both is a data asset |
| StateBudget.CommitByPacket | src/mmtp_signalling_parser.cpp:1285-1365 | packet by packet: with room for all it is data iff listed as data, a track iff listed only as that, under the asset listed last for it, with its state kept iff it was routed under the asset listed first for it |
| StateBudget.LeftOutOnlyWhenFull | src/mmtp_signalling_parser.cpp:1339-1365 | with any room, a listed packet is left without a route only when every state is in use |
| PacketStates.StepBalanced | src/compressed_ip_parser.cpp:102-109 | every operation keeps the counter equal to the sum of states held and within the limit |
| PacketStates.RunBalanced | src/compressed_ip_parser.cpp:62-109 | over any run the counter is the sum over all contexts of signalling, track and data-asset states, never above the limit and never below zero |
| PacketStates.SignallingStep | src/mmtp_signalling_parser.cpp:1426-1434 | a packet is listened to, for one state more, unless it is already or the limit is reached |
| PacketStates.LeftOutOnlyAtLimit | src/mmtp_signalling_parser.cpp:1285-1365 | after an MPT a listed packet has no route only when the counter is at its limit |
| PacketStates.ReadInOrder | src/mmtp_signalling_parser.cpp:1187-1283 | tracks and data assets come out in the order of the entries |
| PacketStates.CompressedIpParser.Acquire | src/compressed_ip_parser.cpp:102-106 | a state is granted iff the counter is below the limit |
| PacketStates.CompressedIpParser.Release | src/compressed_ip_parser.cpp:107-109 | the counter goes down by one and not below zero |
| PacketStates.CompressedIpParser.EnsureContext | src/compressed_ip_parser.cpp:80-116 | a new context is opened only below the limit and holds no states |
| PacketStates.CompressedIpParser.OnSignalling | src/mmtp_signalling_parser.cpp:1426-1434 | a signalling state is acquired once per packet identifier, or refused with nothing changed |
| PacketStates.CompressedIpParser.Sweep | src/mmtp_signalling_parser.cpp:1294-1319 | exactly the routes listed again for the same asset survive, and each other one releases one state |
| PacketStates.CompressedIpParser.InstallTrack | src/mmtp_signalling_parser.cpp:1339-1348 | a track takes its packet from a data asset, acquires a state only when it is new, and is left out when refused |
| PacketStates.CompressedIpParser.InstallData | src/mmtp_signalling_parser.cpp:1349-1365 | the same for a data asset |
| PacketStates.ParseMpt | src/mmtp_signalling_parser.cpp:1187-1283 | the loop over the assets yields the tracks and data assets in order, or nothing when one of them is bad or they do not end where the table does |
| PacketStates.CompressedIpParser.OnPackageTable | src/mmtp_signalling_parser.cpp:1187-1365 | an MPT that is well formed to its end is committed as specified with the counter in balance; one with a bad asset anywhere leaves routing and counter unchanged |
| PacketStates.CompressedIpParser.FlushAll | src/mmtp_parser.cpp:166-167 | a flush releases exactly the signalling states of every context |
| PacketStates.CompressedIpParser.ResetAll | src/compressed_ip_parser.cpp:62-66 | destroying the parsers releases everything, so the counter is zero before it is set to zero |
| SnapshotDiff.SameTrackEqual | src/demuxer.cpp:237-281 | the field-by-field comparison of tracks is equality |
| SnapshotDiff.SameServiceEqual | src/demuxer.cpp:283-304 | likewise for application services |
| SnapshotDiff.SameAssetEqual | src/demuxer.cpp:306-311 | likewise for data assets |
| SnapshotDiff.UnchangedExactly | src/demuxer.cpp:371-405 | the short-cut is taken exactly for a snapshot equal to the last one of its context apart from source packet and input offset |
| SnapshotDiff.IdentityInjective | src/demuxer.cpp:348-359 | different contexts, packets or assets never share an identity |
| SnapshotDiff.AssignedExactly | src/demuxer.cpp:348-367 | two tracks get the same identifier iff context, packet and asset are the same |
| SnapshotDiff.SnapshotReplays | src/demuxer.cpp:407-430 | replaying the events of one snapshot turns the old tracks into the new ones |
| SnapshotDiff.AnnouncedExactly | src/demuxer.cpp:424-430 | tracks are announced in the order listed, each iff it differs from the one last known under its identifier |
| SnapshotDiff.EventsTellTheState | src/demuxer.cpp:195-430 | over any run, replaying all events yields the current tracks, which for each context are those of the last snapshot accepted since the last reset |
| SnapshotDiff.ListDiffReplays | src/demuxer.cpp:432-483 | replaying the removals and additions reported for two lists turns the items of the old one into those of the new one |
| SnapshotDiff.ListEventsTellTheState | src/demuxer.cpp:432-483 | whatever lists of services or data assets a context sends, replaying all events gives the items of the last one |
| ServiceInventory.TrackInventory.AssignTrackId | src/demuxer.cpp:348-367 | the map of identifiers is updated as specified |
| ServiceInventory.TrackInventory.IsUnchanged | src/demuxer.cpp:371-405 | the comparison loops decide whether a snapshot says the same |
| ServiceInventory.TrackInventory.RemoveGone | src/demuxer.cpp:408-423 | exactly the tracks of the context that are no longer listed are removed, each reported once |
| ServiceInventory.TrackInventory.InstallListed | src/demuxer.cpp:424-430 | every listed track ends up current, and is reported iff it is new or differs |
| ServiceInventory.TrackInventory.OnMptSnapshot | src/demuxer.cpp:369-430 | a snapshot is ignored, recognized as unchanged, or diffed as specified |
| ServiceInventory.TrackInventory.SelectServiceContext | src/demuxer.cpp:146-155 | selecting a service reports a reset and empties the inventory |
| ServiceInventory.TrackInventory.ResetAll | src/demuxer.cpp:111-125 | a reset does too, and keeps the identifiers |
| ServiceInventory.TrackInventory.ReportMissing | src/demuxer.cpp:441-483 | the loop reports, in order, what one list has and the other lacks |
| Timeline.RescaleExact | src/demuxer.cpp:790-809 | the result is value times target over source toward zero, and fails iff that exceeds the largest signed value or the source scale is zero, with no intermediate wrap |
| Timeline.ScaledTowardZero | src/demuxer.cpp:790-809 | that quotient is the one cut off toward zero |
| Timeline.NtpDeltaExact | src/demuxer.cpp:768-788 | the result is the NTP distance in ticks toward zero, and fails iff it exceeds the largest signed value |
| Timeline.AddSubtractExact | src/demuxer.cpp:811-829 | checked sums and differences are exact and fail iff out of range |
| Timeline.MicrosecondsExact | src/recording.cpp:14-32 | microseconds are exact toward zero and fail iff they do not fit or there is no scale |
| Timeline.OriginIsZero | src/demuxer.cpp:855-880 | the unit that sets the origin is presented at zero and keeps the distance of its two times |
| Timeline.NormalizeExact | src/demuxer.cpp:855-880 | every unit lies at its NTP distance from the origin plus its own offset less the origin's, and keeps the distance of its two times |
| Timeline.Normalizer.AccessUnit | src/demuxer.cpp:855-880 | the first acceptable unit sets the origin, later ones are placed relative to it |
| Timeline.Normalizer.Reposition | src/demuxer.cpp:127-144 | repositioning keeps the origin exactly when the timeline is to be preserved |
| Statistics.GreatestIsMaximum | src/recording.cpp:119-124 | the recorded maximum bounds all times and is one of them |
| Statistics.LeastIsMinimum | src/recording.cpp:119-119 | likewise for the minimum |
| Statistics.GapIsSmallest | src/recording.cpp:111-118 | the inferred frame duration is the smallest positive distance of neighbouring times |
| SeekIndex.LowerBound | src/recording.cpp:157-164 | the binary search finds the first point not before the new one |
| SeekIndex.UpperBound | src/recording.cpp:256-260 | the binary search finds the first point after the target |
| SeekIndex.InsertExact | src/recording.cpp:144-181 | a point is refused iff it conflicts with some point, and already there iff the first point not before it is at its time, offset and track; any other leaves the list ordered by time and by offset, with its contents and that point and nothing else |
| SeekIndex.PreviousSync | src/recording.cpp:253-263 | the point returned is the greatest not after the target, and there is none iff all lie after it |
| SeekIndex.SeekPointsFor | src/recording.cpp:265-279 | the points returned bracket the target |
| SeekIndex.EstimateBetween | src/recording.cpp:281-315 | the estimate lies between the offsets of the points around the target |
| SeekIndex.EstimateOnLine | src/recording.cpp:36-50 | between two points, before the first, behind the last up to the duration, and without points, the estimate is the offset on the line between the two ends, cut off to a byte |
| SeekIndex.EstimateAtPoint | src/recording.cpp:281-315 | at the time of a point it is the offset of the last point of that time |
| SeekIndex.EstimateMonotone | src/recording.cpp:281-315 | it never falls as the target rises, over all segments |
| SeekIndex.EstimateDefined | src/recording.cpp:281-315 | there is an estimate for every target up to the last point or the known duration |
| Recording.RecordingIndex.Begin | src/recording.cpp:79-83 | the index is empty and building |
| Recording.RecordingIndex.SelectVideoTrack | src/recording.cpp:85-95 | another track starts the index over, the same one changes nothing |
| Recording.RecordingIndex.SwitchVideoTrack | src/recording.cpp:97-102 | points and duration stay, the frame duration is inferred anew |
| Recording.RecordingIndex.Observe | src/recording.cpp:104-142 | what a unit adds to times, duration and points, and when it is refused |
| Recording.RecordingIndex.AddSeekPoint | src/recording.cpp:144-181 | a point is taken iff building, of the selected track, with its checkpoint not after it, and in order |
| Recording.RecordingIndex.UpdateDuration | src/recording.cpp:183-200 | an outside duration is taken iff it agrees with the state and neither shrinks nor replaces a final one |
| Recording.RecordingIndex.ReachReadableEnd | src/recording.cpp:218-224 | a recording that no longer grows becomes complete, with its last frame counted in full |
| Recording.RecordingIndex.Finalize | src/recording.cpp:226-235 | finalizing completes the index and fixes its duration |
| Recording.RecordingIndex.EstimateOffset | src/recording.cpp:281-315 | the lookup is the estimate that EstimateOnLine, EstimateAtPoint and EstimateDefined describe |
| Recording.ParserUnitsPassGuard | src/recording.cpp:146-147 | while packet offsets do not fall, every unit a track hands on passes the checkpoint guard, also when an MPT carries an earlier offset, so its point is refused only for the order of the list |
| ProbeProtocol.RunInv | src/duration_probe.cpp:57-311 | over every run and every behaviour of the demuxer inside: a request is held iff a range is needed, it is not empty and lies in the source, head ranges tile a prefix, and less than four times the largest range is transferred since begin |
| ProbeProtocol.PushRangeInv | src/duration_probe.cpp:94-120 | any answer, expected or not, keeps that invariant |
| ProbeProtocol.StaleLeavesNoTrace | src/duration_probe.cpp:94-129 | a run with answers that fit no request, at any points, is the run without them |
| ProbeProtocol.FreshId | src/duration_probe.cpp:229-235 | a finished request's identifier is not the next one's |
| ProbeProtocol.PushGoesFurther | src/duration_probe.cpp:94-311 | every expected answer that brings bytes or ends its range lowers a well-founded measure |
| ProbeProtocol.DriveEnds | src/duration_probe.cpp:94-311 | served faithfully, every exchange ends |
| ProbeProtocol.DoublingInRange | src/duration_probe.cpp:300-311 | the doubling of the window never leaves the range, so nothing wraps |
| ProbeOutcomes.CompletesExactly | src/duration_probe.cpp:237-326 | an answer completes the probe iff it ends the last range needed, with a candidate that has both ends, a union and no fatal error; the report is then the start of the union, its end and their difference |
| ProbeOutcomes.CompleteExactly | src/duration_probe.cpp:57-326 | over every run the probe is complete iff such an answer came since it last began, and it reports the union of that answer until it begins anew |
| ProbeOutcomes.BeginAsks | src/duration_probe.cpp:57-87 | beginning asks for the first range from zero, or ends without an answer iff source or options are no good |
| ProbeOutcomes.TakenExactly | src/duration_probe.cpp:94-120 | an expected answer is accepted iff it goes on where the last one ended, brings no more than is owed, ends the range only in full and does not upset the demuxer; else the probe fails |
| ProbeOutcomes.TailWidens | src/duration_probe.cpp:292-311 | a tail without a candidate is doubled up to the largest range and asked for again, or ends the probe when it is that or the whole source |
| ProbeOutcomes.HeadGoesOn | src/duration_probe.cpp:261-290 | a head with video goes on with what is left when that is short, otherwise with the end of the source; one without is doubled, or ends the probe |
| ProbeOutcomes.DriveCompletes | src/duration_probe.cpp:94-326 | served faithfully, with a demuxer that finds video and both ends, every exchange completes and reports them |
| DurationProbing.DurationProbe.Begin | src/duration_probe.cpp:57-87 | beginning refines the protocol |
| DurationProbing.DurationProbe.PushRange | src/duration_probe.cpp:94-120 | taking in bytes refines the protocol |
| DurationProbing.DurationProbe.FinishRequest | src/duration_probe.cpp:237-259 | ending a range refines the protocol, whose report is that of ProbeOutcomes.CompletesExactly |
| DurationProbing.DurationProbe.FinishHeadRange | src/duration_probe.cpp:261-290 | ending a head range refines the protocol |
| DurationProbing.DurationProbe.WidenTail | src/duration_probe.cpp:300-311 | doubling the tail window refines the protocol |
| DurationProbing.DurationProbe.FailRange | src/duration_probe.cpp:122-129 | a failed source refines the protocol |
| DurationProbing.DurationProbe.Cancel | src/duration_probe.cpp:131-141 | cancelling refines the protocol |
| DurationProbing.PhaseTimes.ObserveTimestamp | src/duration_probe.cpp:214-227 | first, last, count and smallest gap are those of all times observed |
| DurationProbing.PhaseTimes.EndUs | src/duration_probe.cpp:361-373 | the end is the greatest time plus the smallest gap, when two pictures tell one and the sum fits |
| DurationProbing.UnionVideoPresentationRanges | src/duration_probe_range.hpp:20-37 | the union runs from the least start to the greatest end, if both exist in order |
| ResourcePaths.NormalizePath | src/application_resources.cpp:176-193 | the loop drops empty and "." parts and refuses ".." |
| ResourcePaths.SafePathNormal | src/application_resources.cpp:176-193 | a normalized path has only proper parts |
| ResourcePaths.SafePathIdempotent | src/application_resources.cpp:176-193 | normalizing twice is normalizing once |
| ResourcePaths.SafePathOfPart | src/application_resources.cpp:176-193 | a single part without a slash stays, goes when empty or ".", and is refused when ".." |
| ResourcePaths.SafePathOfBoth | src/application_resources.cpp:176-193 | the kept parts of a path are those in front of any of its slashes and those behind it |
| ResourcePaths.JoinPathNormal | src/application_resources.cpp:195-208 | a joined path is normal and normalizes to itself |
| ResourcePaths.JoinPathStaysInside | src/application_resources.cpp:195-208 | a joined path is the directory it is joined to or goes on behind that directory and a slash |
| ResourcePaths.JoinPathIsSafePath | src/application_resources.cpp:195-208 | joining is normalizing directory, slash and name |
| ResourcePaths.JoinPathParts | src/application_resources.cpp:195-208 | joining fails iff a part of either is "..", and yields the kept parts of the directory followed by those of the name |
| ResourcePaths.JoinPathOfNormal | src/application_resources.cpp:195-208 | a proper directory and a proper name give directory, slash, name, so different names never share a path |
| ResourceIndex.RoundTrip | src/application_resources.cpp:210-238 | whatever is written for a list of records, with or without checksums, parses back to it |
| ResourceIndex.AcceptsExactly | src/application_resources.cpp:210-238 | the parser accepts exactly the encodings of lists of records |
| ResourceIndex.ParseIndex | src/application_resources.cpp:210-238 | the loop over the cursor is the specified parser |
| ResourceIndex.Cursor.ReadRecord | src/application_resources.cpp:216-235 | the reads of one record consume exactly its bytes or fail |
| SectionSets.CollectedHolds | src/application_resources.cpp:120-136 | each place holds the latest section of the current version and length with that number |
| SectionSets.CompleteExactly | src/application_resources.cpp:138-143 | a set is complete iff every number from 0 to the last has come since the version began |
| SectionSets.ComesComplete | src/application_resources.cpp:120-143 | whatever came before, a version is complete once each of its numbers has come, in any order |
| SectionSets.ValuesInOrder | src/application_resources.cpp:145-152 | a complete set yields one table per number in section order |
| ResourceCatalogue.MakeMpuMap | src/application_resources.cpp:359-373 | the last two-byte descriptor names the node of the MPU |
| ResourceCatalogue.BuiltIsUsable | src/application_resources.cpp:375-430 | a built catalogue has keys of its context only, paths that normalize to themselves, and every node its MPUs refer to |
| CatalogueContents.ConsistentExactly | src/application_resources.cpp:375-430 | the tables are consistent iff bases are safe and distinct, tags distinct, no node path escapes, components and MPUs are distinct and every MPU finds its nodes |
| CatalogueContents.BuiltExactly | src/application_resources.cpp:375-430 | a built catalogue has each node under its tag with its joined path, each MPU under component and sequence with what its table says, and nothing else |
| CatalogueContents.NodeIsLastPair | src/application_resources.cpp:359-373 | whatever descriptors an MPU has, its node is what the last one with two bytes of payload spells |
| ResourceCatalogue.NodeMapHolds | src/application_resources.cpp:383-399 | the nodes map each listed tag to its joined path and nothing else |
| ResourceCatalogue.MpuMapHolds | src/application_resources.cpp:402-415 | the MPUs map each listed key to its mapping and nothing else |
| ResourceCatalogue.ReadDirectories | src/application_resources.cpp:381-399 | the loops accept exactly distinct safe bases and distinct tags with safe paths |
| ResourceCatalogue.ReadManagement | src/application_resources.cpp:401-428 | the loops accept exactly distinct components and MPUs whose nodes are all present |
| ResourceCatalogue.BuildCatalogue | src/application_resources.cpp:375-430 | the loops build the catalogue iff the tables are consistent |
| ResourceShelf.EraseTwice | src/application_resources.cpp:783-835 | erasing one set of items after another is erasing both at once |
| ResourceShelf.EraseSound | src/application_resources.cpp:783-835 | erasing keeps paths, store, published items and pending bytes in agreement |
| ResourceShelf.ShowAgrees | src/application_resources.cpp:681-707 | publishing under a new path gives up the old one, takes over the new one and keeps the agreement |
| ResourceShelf.TryConsumeSound | src/application_resources.cpp:542-710 | any unit keeps the agreement and all limits, and one that is not used changes nothing |
| ResourceShelf.NodesAlwaysThere | src/application_resources.cpp:575-591 | with a consistent catalogue an index never waits for a node, so the lookup of a node cannot fail |
| ResourceShelf.WaitsExactly | src/application_resources.cpp:542-557 | a unit waits iff its MPU is unknown, or its download matches and it is neither an index nor listed |
| ResourceRuns.ReferencesPresent | src/application_resources.cpp:375-430 | in every state that the invariant describes all nodes of all active MPUs are present |
| ResourceRuns.RunInv | src/application_resources.cpp:279-540 | over every run of tables, units, drops and resets (as far as `dangling` is not set): store, paths and published items agree, limits hold, the pending bytes are the sum of pending sizes, and each context's maps are exactly what its active tables build |
| ResourceRuns.StoreTellsTheTruth | src/application_resources.cpp:912-941 | at any time (as far as `dangling` is not set) a lookup finds a file iff the assembler has its path in use, and then the file of the item that owns the path, as last published and within the limit |
| ResourceRuns.CatalogueAtomic | src/application_resources.cpp:432-524 | a table replaces the catalogue of its context, by the one its tables build, and of no other, iff it is news, its candidate is complete and the tables are consistent; otherwise it changes nothing but its candidate |
| ResourceTables.CandidatesCollect | src/application_resources.cpp:279-313 | in every state of every run a candidate is the collection of the sections its source has sent since it was last given up |
| ResourceTables.ProposalExactly | src/application_resources.cpp:432-465 | what is proposed: each table that came in full, under the version it came with, and for one that did not the active one of the same source |
| ResourceTables.CommitsExactly | src/application_resources.cpp:432-465 | over every run a table commits iff it is news, each of the two tables has come with all its sections or is stood in for by the active one of the same source, not both stood in for, and together they are consistent |
| ResourceRuns.FilesOutliveUpdate | src/application_resources.cpp:712-737 | a unit makes a file of another item disappear only when everything its MPU now lists is published |
| ResourceEffects.FileAppears | src/application_resources.cpp:633-710 | a new listed file with good bytes is in the store afterwards, under its path and with those bytes, unless it awaits removal itself |
| ResourceEffects.FileTaken | src/application_resources.cpp:633-710 | a listed file is left aside iff it is current or its bytes are not what its record says, and is otherwise found under its path with its key, signature, type and bytes, unless it awaits removal |
| ResourceEffects.FileStoredByName | src/application_resources.cpp:559-710 | a file with a proper name in a node with a proper path is stored under that path, a slash and its name |
| ResourceEffects.UpdateEnds | src/application_resources.cpp:712-737 | once everything an MPU lists is published under the listed path and version, nothing of what it supersedes and no deferred item is left anywhere; before that nothing changes |
| ResourceEffects.CommitTakesOrphans | src/application_resources.cpp:480-511 | a commit takes away the MPUs without a replacement and nothing else, and hands each other one to its replacement |
| ResourceEffects.HeirExactly | src/application_resources.cpp:500-505 | the replacement has the least lower half of the sequence number among those with the same context, component and upper half |
| ResourceEffects.WaitingIsKept | src/application_resources.cpp:315-335 | a unit that has to wait is kept in place of an earlier one unless more units or bytes would wait than may |
| ResourceOrigins.StoredWasSent | src/application_resources.cpp:633-710 | in every state of every run each stored file was brought by a unit sent in that run for its item and its download, and is that unit's bytes or what they decompress to |
| ResourceEffects.TargetsFrom | src/application_resources.cpp:589-607 | every target comes from a record with its item, under that record's joined path |
| ResourceEffects.TargetsInto | src/application_resources.cpp:589-607 | every record whose path does not escape has its target |
| ResourceListings.IndexListsExactly | src/application_resources.cpp:559-631 | an index is refused iff files and nodes differ in number, the files are too many or two that do not escape share an item; otherwise each file that does not escape is listed as its record says, in its own node or that of the MPU, and nothing else |
| ResourceRetries.AfterIndex | src/application_resources.cpp:609-630 | what an index leaves of each item: it is listed iff it is a target and the update does not carry out a removal it awaits, and goes from the queue iff the update carries out one that it awaits or has just earned |
| ResourceHomes.FilesHaveHomes | src/application_resources.cpp:480-511 | in every state of every run each listed or published item, and each stored file, belongs to an MPU of the active catalogue or to one that is superseded |
| ResourceStranded.StrandedStays | src/application_resources.cpp:712-737 | a published item whose MPU and whose successors are all out of the catalogue stays published whatever unit comes |
| ResourceStranded.StrandingRun | src/application_resources.cpp:480-511 | two tables, two units and two more tables reach a state with such an item, whose file is still found |
| ResourceRetries.DanglesExactly | src/application_resources.cpp:526-540 | using a waiting unit erases it under the retry loop iff it is a file that is listed, awaits removal, is newly published and the last of its MPU to be published, or an index all of whose targets are published and whose own item awaits removal or is no longer listed |
| ResourceQuiet.NeverDangles | src/application_resources.cpp:279-540 | over every run it never happens while no index that is used lists itself or an item that awaits removal, and no new catalogue names a listed item or one that awaits removal as an index |
| ResourceRetries.SettlesExactly | src/application_resources.cpp:315-335 | from a state in which nothing usable waits, a unit leaves something usable waiting iff it is an index that is taken, lists a waiting item, and does not remove that item with the update it completes |
| ResourceRetries.RunSettles | src/application_resources.cpp:279-540 | so over every run in which no such index comes nothing usable is ever left waiting between operations |
| ResourceRetries.NextSettles | src/application_resources.cpp:279-540 | and no other operation, commit, drop or reset leaves anything usable waiting |
| ResourceWitness.WitnessRun | src/application_resources.cpp:279-540 | two tables and five units reach a state in which a listed file is left waiting, and then one in which the loop has lost its iterator |
| ResourceAssembly.ResourceStore.OnResource | src/application_resources.cpp:912-920 | a published file replaces what the store holds under its path |
| ResourceAssembly.ResourceStore.OnRemoved | src/application_resources.cpp:922-930 | a removal erases the normalized path |
| ResourceAssembly.ResourceStore.Find | src/application_resources.cpp:934-941 | a lookup normalizes the path first |
| ResourceAssembly.ApplicationResourceAssembler.EraseItemTarget | src/application_resources.cpp:783-803 | one item is erased from every table, with one removal event iff it owns its path |
| ResourceAssembly.ApplicationResourceAssembler.EraseMpuTargets | src/application_resources.cpp:805-835 | the three loops erase everything known of an MPU |
| ResourceAssembly.ApplicationResourceAssembler.FinishMpuUpdateIfReady | src/application_resources.cpp:712-737 | superseded MPUs and deferred items go exactly when the MPU is ready |
| ResourceAssembly.ApplicationResourceAssembler.PublishItem | src/application_resources.cpp:633-710 | a file is published, ignored or refused as specified |
| ResourceAssembly.ApplicationResourceAssembler.ConsumeIndexItem | src/application_resources.cpp:559-631 | an index relists its MPU, is refused or waits as specified |
| ResourceAssembly.ReadTargets | src/application_resources.cpp:589-607 | the loop skips paths that escape and refuses an item listed twice |
| ResourceAssembly.ApplicationResourceAssembler.Retry | src/application_resources.cpp:526-540 | the loop terminates, uses waiting units in some order, and stops only when none is usable |
| ResourceAssembly.ApplicationResourceAssembler.OnUnit | src/application_resources.cpp:315-335 | a unit is used, kept or refused as the run relation says |
| ResourceAssembly.FindReplacement | src/application_resources.cpp:500-505 | the replacement is the lowest sequence of the same component and upper half |
| ResourceAssembly.ApplicationResourceAssembler.FindRetired | src/application_resources.cpp:471-499 | of the retired MPUs only those absent from the new catalogue matter |
| ResourceAssembly.ApplicationResourceAssembler.RetireMpus | src/application_resources.cpp:480-511 | an MPU with a replacement is superseded, one without is erased |
| ResourceAssembly.ApplicationResourceAssembler.CommitCatalogue | src/application_resources.cpp:467-524 | the maps of the context are replaced, those of others kept |
| ResourceAssembly.ApplicationResourceAssembler.TryCommitCatalogue | src/application_resources.cpp:432-465 | a candidate is committed only when complete and consistent |
| ResourceAssembly.ApplicationResourceAssembler.OnDirectoryTable | src/application_resources.cpp:279-295 | a directory table refines the run relation |
| ResourceAssembly.ApplicationResourceAssembler.OnManagementTable | src/application_resources.cpp:297-313 | a management table refines the run relation |
| ResourceAssembly.ApplicationResourceAssembler.DropTransientKeepActive | src/application_resources.cpp:352-356 | candidates and pending units go, everything active stays |
| ResourceAssembly.ApplicationResourceAssembler.ResetAll | src/application_resources.cpp:337-350 | everything goes, the store included |

## Left out

- TlvFraming.ChunkInvariance: claims nothing about packets after a loss of synchronization, because the search accepts a later complete boundary while an earlier one is incomplete, so what follows depends on the chunks; `TlvFraming.RunSound` covers it.
- TlvFraming.RunSound: offsets are unbounded integers, so the 64-bit wrap of an input longer than 2^64 bytes is not modelled.
- Timing.LeapOffset: the signed 64-bit overflow after 2^31 leap seconds is not modelled.
- SeekIndex.EstimateBetween: interpolation is exact rational arithmetic cut off to a whole byte; the rounding of `long double` is not modelled.
- SeekIndex.InsertExact: after switching from one track to another and back the list may hold two points at one time and offset, so order is claimed, not distinctness.
- ResourceQuiet.NeverDangles: the condition suffices and is not necessary; `ResourceRetries.DanglesExactly` is the exact one for a single use.
- ResourceRuns.RunInv: describes the model beyond a state in which `dangling` is set, where the program is undefined.
- ResourceRuns.StoreTellsTheTruth: does not claim that every published item still owns its path; another item may have taken the path over.
- PacketStates.RunBalanced: the parsers of the contexts are values in a table, so ownership and destruction of the parser objects are not modelled.
- PacketStates.CompressedIpParser.OnPackageTable: assets arrive read or marked as bad; the parsing of their bytes and descriptors is not modelled.
- SnapshotDiff.EventsTellTheState: takes from the parsers that a snapshot lists tracks of its own context under the identifiers assigned to them.
- SnapshotDiff.ListDiffReplays: replays services and data assets as sets; an item listed twice is reported twice, and the lists of different contexts are kept apart.
- TrackModel.RunSound: covers HEVC tracks; packet offsets are taken not to fall between resets, as TLV framing delivers them; an MPT may carry the earlier offset of its first fragment.
- TrackRoundTrip.PicturesComeThrough: covers one MPU in packets that are not aggregated and without an MPT among them; the discontinuity flags of the units are not stated.
- SectionAssembly.EmitsExactly: the parsing of descriptors, streams and services is not modelled; a section arrives with its lists.
- Application states and their lifecycle, which only read the published paths.
- The switch that turns the collection of application resources off.
- Texts and counts of error reports, except in TLV framing.
- zlib; `uncompress` is an arbitrary function.
- Waiting and locking in the resource store.
- AAC and TTML tracks, which share fragments, timing and budget with HEVC tracks but assemble by simpler rules.
- Selection of tracks and of the probe's candidate tracks.
- Fragmented signalling messages and the parsing of tables and descriptors.
- Tone mapping, the C interface and callback plumbing.
