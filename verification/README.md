# TITH mailer model

A Dafny 4.11 model of the parts of the TITH store-and-forward mailer that are hardest to get
right, with proofs about every input, run or reachable state. `dafny verify dfyconfig.toml`
checks the whole project.

- **Legacy conversion** (`Calendar`, `DateTime`, `Timezone`, `Decimal`, `Address`, `Text`, `LegacyText`, `Packet`,
  `PacketLoops`, `Body`, `SeenBy`, `Footer`, `Base64`, `Convert`, `ConvertLoops`, `Controls`, `Canonical`, `Inverse`,
  `Children`, `Tracing`, `Fidelity`, `Example`):
  native Messages become FTN packets, and the inverse must give back the exact signed bytes. The main
  theorem, `Fidelity.ReconstructExactly`, says for which messages it does.
- **BSO busy lock** (`BusyLock`): processes racing over one path, as interleaved steps.
- **TTS-0006 exchange** (`ResponseTracker`, `Session`, `Receive`): receive policy, response accounting and
  the client session, alone and end to end.
- **TLV codec and tree** (`Wire`, `TlvLoops`, `TlvTree`, `TlvNodes`): shortest-form numbers, TLV sequences, and the linked
  tree whose cached lengths grow along the parent chain.
- **Publication and quarantine** (`Publish`, `Quarantine`): a directory and a durable ledger that share no
  transaction, with a crash between any two steps.
- **Key pins and poll claims** (`KeyPins`, `PollSnapshot`).
- **IPC documents, submissions and peers** (`IpcDocument`, `IpcRoundTrip`, `IpcLoops`, `Submission`, `Framing`, `PeerCycle`).

Code that the source writes as loops over buffers, lists and objects is modelled as methods and
classes proved against specification functions; the theorems are about those functions. Legacy
text and byte strings are Dafny strings whose characters are bytes; IPC text is Unicode characters.

Where the code meets a property only under conditions, the condition is stated exactly. The
model found these: an anonymous address is also read with its node spelt out (`#-1/-1`), a TZUTC
of `-0000` is read but never written, an IPC `\x20` escape can put two spaces side by side that
printing then leaves bare, a child can be hung under a data TLV unchecked and makes its length
overrun its bytes, a job with two copies for one peer loses a claim, a busy lock whose creator is
too slow admits a second holder, and an orphan whose adapter crashes between marking its notice and
retiring its record is refused on every redelivery, because planning draws a new name for the notice.

## Model

| member | source | states |
|---|---|---|
| `BusyLock.StepKeepsInv` | crates/tith-bso/src/lib.rs:206-267 | every enabled, timely step of any process (create, lock, staleness test, reclaim, identity check, removal, error, crash) or of the clock keeps the invariant that ties path, inodes, lock holders and program counters |
| `BusyLock.StepKeepsBase` | crates/tith-bso/src/lib.rs:206-317 | a step from a state where lock holders and path agree leads to a safe state exactly when it is not the create branch locking a file that has left the path |
| `BusyLock.SafeExactly` | crates/tith-bso/src/lib.rs:206-317 | over every run of any number of takers, drops, errors, crashes and clock steps, however slow: exclusion (one live lock at most, its file the one at the path, no removal of another holder's file) holds throughout exactly when no creator locks a file that is no longer at the path |
| `BusyLock.TimelyRunsAreSafe` | crates/tith-bso/src/lib.rs:206-317 | so exclusion holds over every interleaving in which a creator locks its new file before that file counts as stale |
| `BusyLock.AbandonedLockIsReclaimed` | crates/tith-bso/src/lib.rs:206-267 | the protocol is not safe by refusing everything: a lone taker gets the lock, and after a crash another process reclaims the stale file |
| `BusyLock.UntimelyRunBreaksExclusion` | crates/tith-bso/src/lib.rs:206-231 | the timing assumption is needed: the create branch has no identity recheck, and a run whose new file turns stale before it is locked ends with two live locks |
| `PeerCycle.CycleCheck.Visit` | crates/tith-config/src/lib.rs:363-387 | the depth-first visit terminates, answers true only by extending a finishing order in which every peer comes after what it refers to, and answers false only on a cycle |
| `PeerCycle.CheckPeers` | crates/tith-config/src/lib.rs:523-535 | accepted exactly when every Boss and Hub reference is defined and no chain of references returns to its start; the cycle verdict and the undefined-peer verdict are exact too |
| `PeerCycle.OrderedIsAcyclic` | crates/tith-config/src/lib.rs:363-387 | a finishing order in which references come first rules out every cycle |
| `PeerCycle.AcceptedWalksEnd` | crates/tith-config/src/lib.rs:523-535 | following references from any accepted peer ends within as many steps as there are peers |
| `ResponseTracker.Tracker.ObserveResponse` | crates/tith-exchange/src/response.rs:162-205 | one response is located, refused as unexpected or duplicate, or inserted at the position its request has; the new completed list is that of the specification and an error changes nothing |
| `ResponseTracker.Tracker.ObserveResponses` | crates/tith-exchange/src/response.rs:155-160 | a list of responses is observed in order up to the first error |
| `ResponseTracker.ObserveRefines` | crates/tith-exchange/src/response.rs:162-205 | inserting at the computed position is the same as recollecting all answers in request order |
| `ResponseTracker.RunMeaning` | crates/tith-exchange/src/response.rs:155-205 | a run of observations succeeds exactly when each response answers some request and none is answered twice, and then the completed list holds exactly the answered requests, in request order |
| `ResponseTracker.CompletedInOrder` | crates/tith-exchange/src/response.rs:162-205 | the completed list is in request order and names each request at most once |
| `ResponseTracker.OrderIrrelevant` | crates/tith-exchange/src/response.rs:155-205 | permuting the responses changes neither success nor the completed list |
| `ResponseTracker.ObserveAppend` | crates/tith-exchange/src/response.rs:129-160 | the split of the responses into payloads does not matter |
| `ResponseTracker.CompleteMeans` | crates/tith-exchange/src/response.rs:98-111 | completion holds exactly when every request is answered and no key was asked twice, so with a repeated key it is unreachable |
| `Session.ClientSession.ResponsesReceived` | crates/tith-exchange/src/session.rs:103-123 | the session object follows the specified step, tracker included |
| `Session.CompleteExactly` | crates/tith-exchange/src/session.rs:75-146 | a run ends in Complete exactly when it is: initial send, reply header with the identities swapped, responses that complete the tracker (none when nothing is outstanding), a final reply exactly when some request kind needs one, close |
| `Session.CompleteAnswersAll` | crates/tith-exchange/src/session.rs:103-146 | a completed run has observed one response for every request |
| `Session.FailedForever` | crates/tith-exchange/src/session.rs:75-146 | Failed is never left |
| `Session.NothingAfterComplete` | crates/tith-exchange/src/session.rs:75-146 | after Complete every further call fails |
| `Receive.ReceiveLoop` | crates/tith-exchange/src/receive.rs:36-140 | the loops over identifiers, data errors and items compute the specified policy |
| `Receive.UntrustedYieldsOnlyErrors` | crates/tith-exchange/src/receive.rs:60-116 | an unauthenticated or wrong-header payload that is answered at all yields no valid request and no response, and exactly one data error for each request, in order and with its identifier |
| `Receive.SidesAgree` | crates/tith-exchange/src/response.rs:75-95 | what the client waits for and what the server reads from the same payload agree position by position, whatever responses and unknown values stand between the requests |
| `Receive.ExchangeCompletes` | crates/tith-exchange/src/receive.rs:36-140 | end to end: byte-distinct payloads that open with the header hash, with or without responses beside their requests, a server that answers each request it reads once, any delivery order: the client ends complete with no Unexpected and no Duplicate error |
| `Receive.ServerAccepts` | crates/tith-exchange/src/receive.rs:36-140 | of a bundle its client could account for, the server accepts exactly the payloads with no defined value that is neither request nor response and with every response valid, so the replies above exist for exactly those |
| `KeyPins.KeyPinStore.Observe` | crates/tith-store/src/key_pin.rs:77-108 | the table changes only as the specification says and a refusal changes nothing |
| `KeyPins.KeyPinStore.AdvanceKey` | crates/tith-store/src/key_pin.rs:110-143 | likewise for an advance, which must name the effective key as its predecessor |
| `KeyPins.PinsAreChained` | crates/tith-store/src/key_pin.rs:77-159 | in every run under any changing anchors, the latest successful advances, one after another and none left out, lead from a stored pin's anchor to its current key, or from the one key ever observed when it has no anchor |
| `KeyPins.ObservationKeepsEffectiveKeys` | crates/tith-store/src/key_pin.rs:77-108 | an initial observation never changes an existing effective key |
| `KeyPins.OnlyAdvancesReplace` | crates/tith-store/src/key_pin.rs:110-159 | a pin never disappears and only an advance from its own effective key replaces it |
| `PollSnapshot.OutboundStore.ClaimPollSnapshot` | crates/tith-store/src/poll_snapshot.rs:19-99 | all or nothing: an error leaves the jobs as they were, otherwise jobs and claims are those of the specified selection, sort and write-back |
| `PollSnapshot.SnapshotMeans` | crates/tith-store/src/poll_snapshot.rs:29-99 | every claim returned is backed by the store exactly when no polled job holds two copies for this peer; and then every matching Queued or Deferred copy is stored as one of the returned claims delivers it, token and attempt included, and nothing else changes |
| `PollSnapshot.SortSorts` | crates/tith-store/src/poll_snapshot.rs:49-60 | the claims are a permutation of the selection, in order of creation, job and delivery |
| `PollSnapshot.SelectHas` | crates/tith-store/src/poll_snapshot.rs:27-45 | exactly the Queued or Deferred copies for this peer in jobs of the polled kinds are selected |
| `PollSnapshot.SelectOnce` | crates/tith-store/src/poll_snapshot.rs:27-45 | and none of them twice, so claims and moves correspond one to one |
| `PollSnapshot.LastWriterWins` | crates/tith-store/src/poll_snapshot.rs:61-99 | what the loop over pre-claim clones leaves in a job is the clone of its last claim |
| `PollSnapshot.LostUpdate` | crates/tith-store/src/poll_snapshot.rs:61-99 | with two copies for one peer in a job the second clone undoes the first, and a returned claim is not what the store holds |
| `Wire.NumberRoundTrip` | crates/tith-wire/src/integer.rs:33-79 | a number is read back from its encoding, whatever follows it |
| `Wire.NumberIsCanonical` | crates/tith-wire/src/integer.rs:53-79 | only the shortest form is read: what was read encodes to the bytes it came from |
| `Wire.SequenceRoundTrip` | crates/tith-wire/src/tlv.rs:116-153 | a TLV sequence is read back from its encoding |
| `Wire.SequenceIsCanonical` | crates/tith-wire/src/tlv.rs:134-153 | and every byte string that parses is the encoding of what was parsed |
| `TlvLoops.LengthLen` | poc/tith-common.c:651-659 | the length loop counts the bytes of the encoding |
| `TlvLoops.EncodeNumberLoop` | poc/tith-common.c:662-672 | the shift loop writes the shortest form into its buffer |
| `TlvLoops.ParseNumberLoop` | poc/tith-common.c:166-186 | the digit loop with its overflow and shortest-form checks computes the number decoder |
| `TlvLoops.ParseTlvLoop` | poc/tith-common.c:364-383 | the child loop parses exactly the TLV sequences |
| `TlvTree.GrowKeepsExact` | poc/tith-common.c:699-707 | growing the ancestors one by one restores every cached length, however many length fields grow a byte on the way |
| `TlvTree.AddBuiltExactly` | poc/tith-common.c:683-737 | an accepted add leaves every length right exactly when it does not hang a child under a data node, which nothing checks; if it does, that node is said to be longer than its bytes, so that sending it reads past them |
| `TlvTree.SomeChildOverruns` | poc/tith-common.c:683-737 | the smallest such tree: one byte of data said to be four |
| `TlvTree.RunKeepsBuilt` | poc/tith-common.c:683-770 | after any run of adds under containers every container's cached length is the encoded size of its children |
| `TlvNodes.Tree.GrowParents` | poc/tith-common.c:699-707 | the loop over linked parents is the growth in 64-bit arithmetic, wrapped or not |
| `TlvNodes.WrappedIsExact` | poc/tith-common.c:699-707 | and that is the exact growth whenever the exact lengths fit 64 bits |
| `TlvNodes.Tree.Append` | poc/tith-common.c:683-737 | linking a node and growing its ancestors on the heap is the specified add in 64-bit arithmetic, the exact one whenever that fits; a taken link is refused and nothing changes |
| `TlvTree.SendWritesTree` | poc/tith-common.c:1519-1543 | on a built tree without empty containers no length mismatch is ever found and the bytes written are the encoding of the tree |
| `TlvTree.ReceiverReadsTree` | poc/tith-common.c:364-383 | parsing a sent level, and any container's value, gives back its types and values |
| `TlvTree.SendExactly` | poc/tith-common.c:1519-1543 | a built tree is sent exactly when no container anywhere in it is empty |
| `TlvTree.SendRootExactly` | poc/tith-common.c:1545-1570 | the comparison with encodedSequenceLength at the root never finds a difference: a built tree is sent exactly when no container is empty and the whole fits 64 bits |
| `TlvTree.RunsAreSentExactly` | poc/tith-common.c:683-737 | for every accepted run of adds from a root: the tree is sent exactly when children went under containers only, no container was left empty and the whole fits 64 bits, and then the bytes are its encoding; damage once done is repaired by no later add |
| `TlvTree.SentRunIsRead` | poc/tith-common.c:364-383 | what such a run sends parses back to the types and values at the top of its tree |
| `TlvNodes.Tree.SendTlv` | poc/tith-common.c:1519-1543 | the recursive writer over linked nodes computes the specified bytes |
| `TlvNodes.Tree.EncodedSequenceLength` | poc/tith-common.c:1545-1556 | the loop over siblings computes the specified length, or refuses past 64 bits |
| `TlvNodes.Tree.SendWhole` | poc/tith-common.c:1561-1569 | sending the root and comparing lengths is the specified send |
| `Calendar.NextDayIsOneMore` | crates/tith-message-legacy/src/export.rs:95-103 | the closed formula counts days of the proleptic Gregorian calendar: the epoch is zero and the next existing day is one more |
| `Calendar.DateRoundTrip` | crates/tith-message-legacy/src/export.rs:95-122 | for every 32-bit year and month, a date comes back from its day number exactly when that day exists |
| `Calendar.DayRoundTrip` | crates/tith-message-legacy/src/export.rs:106-122 | a day number comes back from its date exactly when its year fits 32 bits |
| `DateTime.FormatAccepts` | crates/tith-message-legacy/src/export.rs:148-163 | exactly the local seconds from 0 up to but excluding 3155760000 have a DateTime |
| `DateTime.DateTimeRoundTrip` | crates/tith-message-legacy/src/export.rs:148-208 | for all texts and all instants, a text reads as an instant exactly when the instant prints as that text |
| `DateTime.ParseAcceptsExisting` | crates/tith-message-legacy/src/export.rs:166-208 | only days that exist in their month are read |
| `LegacyText.SplitControlsLoop` | crates/tith-message-legacy/src/lib.rs:114-138 | the loop over leading control paragraphs computes the specified split |
| `LegacyText.SplitExactly` | crates/tith-message-legacy/src/lib.rs:114-138 | written controls and text come back exactly when names and values match their payloads and the text starts no control |
| `Packet.HeaderBack` | crates/tith-message-legacy/src/packet.rs:219-258 | a written Type-2+ header gives its endpoints back, except that a point whose net is zero is refused |
| `Packet.RecordBack` | crates/tith-message-legacy/src/packet.rs:165-210 | a written record gives back every field, its body taken apart, and leaves the next record untouched |
| `Packet.BodyExactly` | crates/tith-message-legacy/src/packet.rs:129-141 | a written body is taken apart into the message it came from exactly when it is self-delimiting |
| `Packet.PacketRoundTrip` | crates/tith-message-legacy/src/export.rs:436-503 | for every packet the writer accepts, reading it back gives it exactly when a point's net is nonzero, control names and values are those of their payloads, no text starts with byte 1, and a text without area and controls does not start with a valid AREA line |
| `PacketLoops.ParsePacket` | crates/tith-message-legacy/src/packet.rs:266-289 | the record loop computes the specified parse |
| `PacketLoops.WriteBody` | crates/tith-message-legacy/src/export.rs:362-377 | pushing area, controls and text gives the specified body or the first error |
| `PacketLoops.WriteHeader` | crates/tith-message-legacy/src/export.rs:452-503 | the 58-byte buffer, written field by field, holds the specified header |
| `PacketLoops.EncodePacket` | crates/tith-message-legacy/src/export.rs:436-450 | header and record loop give the specified packet or the first error |
| `Body.EncodeBodyLoop` | crates/tith-message-legacy/src/export.rs:221-246 | the character loop folds every line ending to one carriage return and terminates the body |
| `Body.BodyRoundTrip` | crates/tith-message-legacy/src/export.rs:221-268 | a text survives folding and unfolding exactly when it has no carriage return and is empty or ends in a line feed |
| `Body.DecodedConforms` | crates/tith-message-legacy/src/export.rs:259-268 | every decoded body is such a text |
| `SeenBy.ListedExactly` | crates/tith-adapter/src/convert.rs:642-643 | sorting and removing neighbours lists each recipient once, in strict order, and loses none |
| `SeenBy.EntriesLoop` | crates/tith-adapter/src/convert.rs:644-653 | the trimming loop writes the net only when it changes |
| `SeenBy.PackLoop` | crates/tith-adapter/src/convert.rs:660-671 | the packing loop computes the specified lines |
| `SeenBy.SeenByRoundTrip` | crates/tith-adapter/src/convert.rs:633-672 | every SEEN-BY line is at most 80 bytes with its carriage return, and reading them with the net carried across lines gives exactly the sorted recipients |
| `Footer.RepresentableExactly` | crates/tith-adapter/src/convert.rs:633-641 | exactly the recipients of the packet's domain and zone without a point are listed |
| `Footer.WriteFooter` | crates/tith-adapter/src/convert.rs:599-673 | the footer pushed line by line is the specified one, or the first refusal |
| `Footer.SplitFooterLoop` | crates/tith-adapter/src/convert.rs:676-703 | the backward search and the byte count compute the specified split |
| `Footer.FooterRoundTrip` | crates/tith-adapter/src/convert.rs:599-703 | for every terminated text, even one ending in lines that look like a footer, the text and both values come back; an absent value reads as an empty one |
| `Address.ReadComponentsLoop` | crates/tith-wire/src/address.rs:180-209 | the component loop computes the specified reading |
| `Address.AddressRoundTrip` | crates/tith-wire/src/address.rs:145-228 | a text reads as an address exactly when it is that address printed, or an anonymous address with its node spelt out |
| `Timezone.TimezoneRoundTrip` | crates/tith-adapter/src/convert.rs:509-541 | an offset with a text is read back from it, and only a minus before zero is read without being written |
| `ConvertLoops.PushControls` | crates/tith-adapter/src/convert.rs:372-425 | pushing parsed controls one by one gives the specified block or the first error |
| `ConvertLoops.GatherLoop` | crates/tith-adapter/src/convert.rs:808-821 | collecting TITHSIGN chunks computes the specified text |
| `ConvertLoops.WriteChildren` | crates/tith-adapter/src/convert.rs:990-1006 | the child loop splices SignedOrigin in before the named child and nowhere else |
| `ConvertLoops.StripViasLoop` | crates/tith-adapter/src/convert.rs:1029-1041 | taking Via paragraphs off the end computes the specified body |
| `Base64.DecodeEncode` | crates/tith-adapter/src/convert.rs:301-309 | decoding unpadded base64 undoes encoding for every byte string |
| `Base64.EncodeLength` | crates/tith-adapter/src/convert.rs:301-309 | the length of an encoding, 86 letters for a 64-byte Signature |
| `Canonical.SigningBack` | crates/tith-message-legacy/src/export.rs:288-323 | the TITHSIGN chunks give back the encoded SignedOrigin, and the signing controls answer to no other name |
| `Canonical.ViasBack` | crates/tith-adapter/src/convert.rs:1029-1041 | Via paragraphs written after a NetMail body are all taken off again |
| `Inverse.RebuildRetells` | crates/tith-adapter/src/convert.rs:835-987 | for every message the converter accepts and in which the inverse can resolve what no field tells it, the inverse rebuilds exactly the children of that message with the values the legacy form cannot tell apart normalised |
| `Tracing.ReconstructedIsTraceable` | crates/tith-adapter/src/convert.rs:773-1001 | and it must be able to: whenever the signed bytes come back, the MessageID starts with the Origin, no kludge line passes for a MSGTO or REPLY that the message lacks, and the area tag leads back to its name |
| `Fidelity.TextExactly` | crates/tith-adapter/src/convert.rs:1014-1041 | a text comes back exactly when it conforms and, in NetMail, its body does not itself end in a Via paragraph |
| `Fidelity.ReconstructExactly` | crates/tith-adapter/src/convert.rs:773-1001 | for every message the converter accepts, the inverse gives back the signed bytes exactly when: text conforms and ends in no Via of its own, LegacyAttributes absent or nonzero inside the mask, TimestampOffset absent or nonzero, tear and origin lines both present for EchoMail and both absent for NetMail, no AreaDescription, no OriginalCharacterSet, attachments without metadata, no leading space in a reply identifier, a MessageID whose first word is the Origin, no kludge line standing in for an absent MSGTO or REPLY or spoiling a SignedOrigin, and an area tag that leads back to its name |
| `Fidelity.CanonicalExactly` | crates/tith-adapter/src/convert.rs:277-331 | a verified item converts as Canonical exactly when the legacy form preserves it, the inverse can resolve it, and its signature verifies over the region; every other item becomes compatibility output |
| `Fidelity.OnlyVerifiedIsCanonical` | crates/tith-adapter/src/convert.rs:277-331 | Canonical output means authenticated, no warning, a signature, and a reconstruction equal to the signed bytes |
| `Example.SomeLetterIsCanonical` | crates/tith-adapter/src/convert.rs:277-331 | the premises of the canonical theorems are met together by a signed NetMail, whose signed bytes come back |
| `Fidelity.ConvertedDelimits` | crates/tith-adapter/src/convert.rs:359-495 | a converted message survives its packet record exactly when its text does not start with byte 1 |
| `Fidelity.WireKeepsReconstruction` | crates/tith-adapter/src/convert.rs:773-1001 | the inverse survives the wire: run on the message parsed from the encoded packet, with the exporter's own Origin key, attachments and ReplyTo address, it still gives back the signed bytes |
| `Publish.CrashSafe` | crates/tith-adapter/src/publish.rs:46-146 | at every crash point old files keep their bytes and the new visible files are exactly a prefix of the list, each complete |
| `Publish.CompanionsFirst` | crates/tith-adapter/src/publish.rs:132-146 | a referring object is never visible without the companions listed before it |
| `Publish.HistorySafe` | crates/tith-adapter/src/publish.rs:46-166 | over any number of attempts, each cut short anywhere, a public file never changes again and every new one is some object in full |
| `Publish.Directory.Stage` | crates/tith-adapter/src/publish.rs:46-63 | staging removes a leftover of the same name, then creates and writes: machine steps and no others |
| `Publish.Directory.ClaimName` | crates/tith-adapter/src/publish.rs:91-102 | claiming by hard link is link then unlink; a taken name changes nothing |
| `Publish.Directory.PublishAll` | crates/tith-adapter/src/publish.rs:132-146 | the two loops are a complete run of the machine |
| `Quarantine.Ledger.TakeOrphan` | crates/tith-ledger/src/lib.rs:210-250 | both tables change together or not at all; an equal orphan is accepted, a different one refused |
| `Quarantine.Ledger.Mark` | crates/tith-ledger/src/lib.rs:253-269 | only the flag of an orphan with a notice is set |
| `Quarantine.Ledger.AdvanceTo` | crates/tith-ledger/src/lib.rs:272-285 | only the state of an existing record changes |
| `Quarantine.Ledger.NextIdentity` | crates/tith-ledger/src/lib.rs:393-408 | one more than the last identity, and nothing else changes |
| `Quarantine.NameTells` | crates/tith-adapter/src/inbound.rs:621-650 | two identities name a notice alike exactly when they agree in their low 32 bits |
| `Quarantine.RunKeepsInv` | crates/tith-adapter/src/inbound.rs:110-231 | every plan, commit step, crash, drawn identity and outside change keeps: a record for each orphan, Retired only once its notice is marked, and only stored notices published |
| `Quarantine.QuarantineSafe` | crates/tith-adapter/src/inbound.rs:683-756 | over every run a quarantine entry is write-once, its flag moves only from false to true, and whatever is published for an item is its one stored notice |
| `Quarantine.OnlyNoticesPublished` | crates/tith-adapter/src/inbound.rs:683-756 | no recovery object ever gets a final name |
| `Quarantine.RedeliveryResumes` | crates/tith-adapter/src/inbound.rs:199-231 | while a notice is owed, redelivery plans exactly what is stored and staging it again changes nothing |
| `Quarantine.RedeliveryCompletes` | crates/tith-adapter/src/inbound.rs:199-231 | and carried through, that redelivery retires the item exactly when the notice's name is free or holds exactly the notice |
| `Quarantine.CrashLeavesStuck` | crates/tith-adapter/src/inbound.rs:752-753 | a crash between marking and retiring is reached by a written-out run, for every item with a notice whose name is free |
| `Quarantine.StepKeepsStuck` | crates/tith-adapter/src/inbound.rs:110-231 | from there a step moves the item on exactly when it plans it afresh as stored in everything and the drawn identity agrees with the stored one in its low 32 bits |
| `Quarantine.StuckForever` | crates/tith-adapter/src/inbound.rs:683-756 | so through any deliveries, commits, crashes, draws and outside changes the item stays marked and unretired until 2^32 more identities have been drawn |
| `Quarantine.EscapesExactly` | crates/tith-ledger/src/lib.rs:210-250 | and a redelivery carried through retires it exactly when its draft recurs so |
| `Quarantine.MarkedIsNeverRetired` | crates/tith-adapter/src/inbound.rs:752-753 | in every reachable idle state, an item marked but not retired is in that position |
| `IpcLoops.ReadQuotedLoop` | crates/tith-ipc/src/lib.rs:223-286 | the index loop over a quoted value computes the specified reading |
| `IpcLoops.ReadFieldsLoop` | crates/tith-ipc/src/lib.rs:191-220 | the field loop computes the specified fields or the first error |
| `IpcRoundTrip.DocumentRoundTrip` | crates/tith-ipc/src/lib.rs:130-316 | a document is read back from its own text exactly when it has a line, no empty line, unquoted fields that are nonempty printable ASCII without space, quote or backslash, and quoted text without two adjacent spaces or U+0080 to U+009F |
| `IpcRoundTrip.EscapedSpaceIsLost` | crates/tith-ipc/src/lib.rs:246-262 | reading is not one to one: an escaped space stands for one that printing leaves bare |
| `Submission.DocumentFramer.PushLine` | crates/tith-ipc/src/lib.rs:77-116 | one pushed line updates the framer as specified |
| `IpcLoops.LineCursor.TakeEach` | crates/tith-ipc/src/submit.rs:607-668 | the cursor takes directives in order as the grammar says, or stops at the first that is missing or malformed |
| `IpcLoops.LineCursor.TakeWhole` | crates/tith-ipc/src/submit.rs:491-533 | a block is its name alone, its directives and its own End |
| `IpcLoops.FindEndLoop` | crates/tith-ipc/src/submit.rs:278-301 | the depth loop finds the specified end of a job |
| `IpcLoops.ParseJobsLoop` | crates/tith-ipc/src/submit.rs:244-265 | the job loop computes the specified jobs or the first error |
| `Framing.JobIsLevel` | crates/tith-ipc/src/submit.rs:303-377 | the lines of an accepted job leave the framer's depth as they found it, whatever its kind, blocks and attachments |
| `Framing.FramerSees` | crates/tith-ipc/src/lib.rs:92-115 | on raw lines the framer opens and closes where the parsed lines do |
| `Framing.FramerAgrees` | crates/tith-ipc/src/lib.rs:77-116 | fed the lines of an accepted submission, the framer reports completion on the last line and on no earlier one |
| `Framing.CanonicalsPartition` | crates/tith-ipc/src/submit.rs:244-377 | the jobs' canonical texts, in order, are the whole re-encoded document between its operation line and its End |

## Left out

- Cryptography: signatures, keys and hashes are parameters; signature checking is any predicate on bytes, payload hashes are injective.
- Via line tails and the SPTH address list: their formatted text is a parameter of the conversion; address errors inside them are not modelled.
- INTL, TOPT, FMPT, CHRS, ASSOC and SPTH controls: written as the source does, but the inverse does not read them, so no theorem speaks of their values.
- TITHSIG import (`retained_signing`), TIC, SRIF, attachment parsing and the stored `.msg` form: short readers with single-branch facts.
- `parse_date_time` and `tithsig` slice Rust strings at byte offsets and panic off a character boundary; the model works on code units and refuses such texts.
- Which error is reported when several apply to one message or packet: the model checks anonymous packet endpoints before the body.
- Error texts and line numbers of the IPC parsers are kept only in outline; which inputs are refused is exact.
- Submission bodies: a job keeps its accepted lines; the copying of field values into records is not modelled.
- UTF-8 decoding of IPC input: the text is taken as characters.
- The non-hard-link fallback of `claim_name` (not atomic), fsync and real directories: a step of the machine is durable when taken.
- `BusyLock::take` gives up after four rounds; the model lets a taker go round any number of times, which only adds runs.
- The key-pin byte codec and redb transactions: tables are maps and a transaction is one step.
- Job identifiers and claim tokens are numbers and parameters; job records are kept in key order.
- Poll claims: the next hop's address and key are one identity; item bytes, events and random tokens are parameters or dropped.
- TLV values kept in files (`fileName`) and sockets: every data node holds its bytes.
- `partition_point` in the response tracker is a linear scan for the same position.
- Non-orphan outcomes of `plan` (publication, file requests, distribution) and job recovery: no claim about progress after a crash.
- poc client, server and configuration, routing, nodelists and transports: input/output or tables.
- TlvNodes.Tree.Append: the `first` link, which only caches the first sibling, is not modelled, nor are the signatures that `prepareTLVTree` adds before sending.
- Fidelity.ReconstructExactly: for signed bytes no longer than a 64-bit length, and for kludge lines that gather to no TITHSIGN chunk of their own (or to a malformed one, which is refused). With such chunks equality is a matter of forgery: an OriginalCharacterSet that ends in the encoding of the other children, and chunks that decode to everything before it, reproduce the signed bytes of a message that is not preserved.
- Fidelity.CanonicalExactly: under the same two premises.
- Quarantine.StuckForever: the counter is unbounded; the source's would overflow past 2^64.
- SeenBy.SeenByRoundTrip: the reader of SEEN-BY lines is the format's own rule (the net carried from entry to entry); the repository has no such reader.
