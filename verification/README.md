# Session engine, configuration and framing: a verified model

This project models, in Dafny, the parts of the system where state is kept over
time, and proves what every step, every run or every input keeps.

* **Core network** (`srscnw`). `NasEngine` is the session engine as a state
  machine over any number of contexts, held by an RNTI and a TMSI index, with a
  log of what was handled and sent. A pointer to a deleted context is a number
  outside the set of live contexts, so use after free and double free are
  visible as faults. `Cnw` is the same engine as the original runs it: context
  objects on the heap, pointed to by the indexes and written field by field, and
  messages built and opened in byte buffers; each method is proved to take the
  `NasEngine` step. `NasPdu` says what the bytes of a received message amount to.
  `NasIndex`, `NasTmsi`, `NasCounts`, `NasPending`, `NasSession`, `NasSecurity` and
  `NasProtocol` prove what holds of all runs. `Envelope` is the security envelope over byte buffers, with the
  algorithms as parameters. `Sqn` is the sequence-number generator. `Bytes` and
  `Options` are shared.
* **INI files** (`mng/hdr/inicpp.h`). `IniLines` reads single lines, `IniSpec`
  is a reference reading by positions in the text alone, `IniManager` is the
  original's map-building `parse` and in-place `modify`, and `IniLens` proves
  that the two form a lawful lens.
* **Management daemon** (`mng/src`). `ConfigTree` is the dotted-path upsert,
  `AppTable` the process table.
* **PDSCH example** (`lib/examples/pdsch_enodeb.c`). `Handoff` is the two-thread
  handoff under every interleaving, `Reframer` the byte-stream reframer,
  `PrbMask` the allocation mask.

Where the code falls short of what one would expect, the model follows the code
and the lemmas say exactly when the expectation holds:

* Every UE is given the same TMSI, which leads to one context only
  (`ServiceReachesExactly`). A second UE that asks for service in the ordinary way
  moves the first one's context to its own RNTI (`SharedTmsi`), and a stale index
  entry is left; a run of six events then frees one context twice
  (`StrayServiceRequest`). The indexes are sound all along a run if and only if
  every Service Request it dispatches comes on the RNTI recorded by the context it
  reaches (`SoundThroughoutExactly`).
* The header of the Security Mode Command says 0 whatever count protects it, so a
  command sent at any other count is refused by algorithms that tell counts apart;
  a duplicate Authentication Response is enough (`DuplicateResponse`).
  `DeliveredExactly` states for every message of every run when a receiver gets it.
* The stored uplink count never moves, so an accepted message is accepted again
  (`ReplayAccepted`).
* A voice modification is protected under the current count and does not move it,
  so the next message uses that count again (`VoiceReusesCount`). Two messages of
  one security context share a count if and only if nothing between them moved it
  (`CountReusedExactly`).
* The session flag for voice is never cleared, so a session-1 request after a
  session-2 request is answered with session 2 (`StickyVoice`); and an identity
  other than 1 and 2 is only reported, so it shares the slot of session 1
  (`StrayIdentity`, `StrayIdentityOverwrites`). `AcceptsEchoExactly` states for
  every history when the answer is right.
* The receiver rebuilds the count from the sequence number alone, so the envelope
  round trip holds for every algorithm if and only if the count fits one byte or
  nothing depends on it (`RoundTripExactly`).
* The Deregistration Accept is packed with the short header even in a context that
  uses the long one. Its ten bytes then end where the context's sequence number
  would be: ciphering wraps the length, and the MAC overwrites everything behind
  byte six (`DeregistrationAcceptExactly`, and over runs `ReadableExactly`).
* `handle_enb_rx_pdu` has code to advance the uplink count, but the pointer it
  goes through is shadowed and stays null, so it never does; the agreement of the
  two uplink counts rests on that (`UplinkCountsAgree`). With the pointer set they
  would part at the 256th message (`IntendedCountsPart`).
* A beam whose spawn failed counts as switched on and is not retried
  (`OnWithoutProcessExactly`).
* A key that starts with `[` makes its own line a header; `TextPutGetExactly`
  states for all names when a written value is found again.

## Model

| member | source | states |
|---|---|---|
| `IniLines.AssignmentReads` | mng/hdr/inicpp.h:408-416 | a line `K=V` with a plain key reads as exactly the entry (K, V without blanks), and opens no section |
| `IniLines.HeaderReads` | mng/hdr/inicpp.h:385-406 | a line `[S]` with a plain name reads as exactly the header of S, with no entry |
| `IniLines.BlanksDoNotCount` | mng/hdr/inicpp.h:642-647 | a space or a tab anywhere in a line makes no difference to how it reads |
| `IniLines.LineKinds` | mng/hdr/inicpp.h:377-418 | by characters: a line opens a run exactly when its first character other than space and tab is `[`; it names no section exactly when it holds no `]`; comments, and lines with neither `[` in front nor `=`, read as nothing |
| `IniLines.KeyOfLine` | mng/hdr/inicpp.h:408-416 | of the text without blanks the key is what comes before the first `=`, the value all behind it, in `[` lines too |
| `IniLines.NameOfLine` | mng/hdr/inicpp.h:391-403 | the name is what lies between `[` and the first `]` |
| `IniLines.LinesOfUnlines` | mng/hdr/inicpp.h:547-550 | lines written with one line end each are read back as the same lines |
| `IniSpec.BoundLineWins` | mng/hdr/inicpp.h:357-432 | the reference line of (S, K) is the last K line of the earliest run of S that has one, a run ending at each row that opens one (the `[` lines of `LineKinds`, closed or not); there is none exactly when no line assigns it |
| `IniSpec.BracketLineFixes` | mng/hdr/inicpp.h:385-399 | on lines: after a line whose first character is `[`, closed or not, every value read so far stays what it is whatever follows; without `]` the line assigns nothing and leaves the section in force |
| `IniSpec.InertLineIrrelevant` | mng/hdr/inicpp.h:379-383 | on lines: a comment, or a line with neither `[` in front nor `=`, can be left out anywhere without changing any value |
| `IniSpec.KnownWhenBound` | mng/hdr/inicpp.h:247-256 | a section with a bound key is known, and the bound line binds its own key |
| `IniManager.InertStep` | mng/hdr/inicpp.h:379-383 | a blank or comment line keeps the loop invariant with nothing changed |
| `IniManager.KeyStep` | mng/hdr/inicpp.h:408-416 | a key line, stored over an earlier one of the same record, keeps the loop invariant |
| `IniManager.UnclosedStep` | mng/hdr/inicpp.h:385-399 | an unclosed `[` line commits the record yet goes on filling it, and the invariant still holds although the record's keys are now held twice |
| `IniManager.ClosedStep` | mng/hdr/inicpp.h:385-406 | a closed `[` line commits the record keeping first keys and starts a new one, keeping the invariant |
| `IniManager.LastCommit` | mng/hdr/inicpp.h:422-426 | what is left when the file ends is the reference reading: same sections known, same line of every key, same values |
| `IniManager.ParseLine` | mng/hdr/inicpp.h:377-418 | one pass of the loop, by its own tests on the stripped line, has the effect of the row that line is |
| `IniManager.ParsedAnswers` | mng/hdr/inicpp.h:91-98 | the value the map gives for any (S, K), or its absence, is that of the reference reading |
| `IniManager.Manager.Parse` | mng/hdr/inicpp.h:357-432 | whatever the text, the map afterwards is the reference reading: sections, values and 1-based line numbers |
| `IniManager.Manager.constructor` | mng/hdr/inicpp.h:342-345 | a new manager already holds the reference reading of its file |
| `IniManager.GetEndSection` | mng/hdr/inicpp.h:122-139 | the greatest line of the section's keys, or the header line of a section without keys |
| `IniManager.GreatestLineIsEnd` | mng/hdr/inicpp.h:122-139 | that greatest line is the last line of the text that binds a key of the section |
| `IniManager.BareSectionEnd` | mng/hdr/inicpp.h:126-129 | a known section without keys ends at the first header that names it |
| `IniManager.InsertAfter` | mng/hdr/inicpp.h:484-506 | the copying loop yields the lines with the new one right after the marked line |
| `IniManager.ReplaceLine` | mng/hdr/inicpp.h:563-584 | the copying loop yields the lines with the marked one replaced |
| `IniManager.Manager.WriteUnknown` | mng/hdr/inicpp.h:510-557 | an unknown section goes to the end under its header, an unnamed one to the head, with two blank lines only when some section is known |
| `IniManager.Manager.Modify` | mng/hdr/inicpp.h:434-604 | refused exactly for an empty key or value; otherwise the file is the edited text of the position-based specification, and the map is its reading |
| `IniManager.ModifyThenParse` | mng/hdr/inicpp.h:434-604 | in the maps before and after a modification the key has the new value without blanks and every other answer is unchanged |
| `IniLens.ModifiedReading` | mng/hdr/inicpp.h:434-604 | in each branch the reader finds the written line at its place, bound to (S, K), and reads everything else as before |
| `IniLens.WrittenText` | mng/hdr/inicpp.h:434-604 | the text written, character by character, in each branch: one line over the old one, behind the end of its section, or in front; or a header and it, after two blank lines when some section is known |
| `IniLens.PutGet` | mng/hdr/inicpp.h:434-604 | put-get with frame for every file, plain section, plain key and value |
| `IniLens.PutPut` | mng/hdr/inicpp.h:434-604 | of two writes to one key the last yields the same lines as it alone; with equal values, idempotence |
| `IniLens.GetPut` | mng/hdr/inicpp.h:434-604 | writing back the value that is read changes no binding |
| `IniLens.TextLens` | mng/hdr/inicpp.h:434-604 | the same laws on whole texts, after the line ends are made uniform |
| `IniLens.PutGetExactly` | mng/hdr/inicpp.h:512-522 | on lines: put-get holds for all files if and only if both names are plain, or the written line is itself the header of its section, as `[a]=1` is for section `a` and key `[a]` |
| `IniLens.TextPutGetExactly` | mng/hdr/inicpp.h:434-604 | on texts, for any section, any value and any key that is not empty: put-get holds for all files if and only if, besides, none of the three holds a line end |
| `IniLens.OwnHeaderGets` | mng/hdr/inicpp.h:385-416 | a line that heads its own section is found again in every branch of `modify` |
| `Sqn.NextRaises` | srscnw/src/cnw.cc:1185-1192 | outside SEQ wrap a step raises the number by exactly 33, or by 2 where IND wraps |
| `Sqn.AfterFields` | srscnw/src/cnw.cc:1185-1192 | SEQ and IND after n steps, in closed form modulo 2^43 - 1 and 31 |
| `Sqn.Coprime` | srscnw/hdr/cnw.h:51-54 | a common multiple of the two moduli is a multiple of their product |
| `Sqn.ChallengesDistinct` | srscnw/src/cnw.cc:1169-1199 | any 31 * (2^43 - 1) consecutive challenges embed pairwise distinct numbers, from any start |
| `Sqn.ChallengesRepeat` | srscnw/src/cnw.cc:1169-1199 | and then the numbers repeat, so that period is exact |
| `Sqn.WindowDistinct` | srscnw/src/cnw.cc:1169-1199 | the same for any window of challenges shorter than a period |
| `Sqn.BytesRoundTrip` | srscnw/src/cnw.cc:1194-1197 | six big-endian bytes hold a 48-bit number without loss |
| `Sqn.BigEndian` | srscnw/src/cnw.cc:1175-1183 | the number six bytes stand for, most significant byte first |
| `Sqn.IncrementSqn` | srscnw/src/cnw.cc:1169-1199 | the byte loops compute the next number, also when input and output are one array |
| `Sqn.Subscriber.Challenge` | srscnw/src/nas_mm.cc:3465-3482 | AUTN carries the current number under the anonymity key, then AMF and MAC; the stored number moves one step, and the list of numbers issued grows by the one carried |
| `Sqn.SubscriberDistinct` | srscnw/src/nas_mm.cc:3386-3482 | whatever challenges a subscriber was sent, those less than a period apart carried different numbers |
| `Envelope.CipherInPlace` | srscnw/src/nas_mm.cc:3139-3230 | in place, byte i behind the sequence number becomes itself combined with the keystream of `cipher` and `kEnc`, bearer 1, the direction of the link, at position i from there, and no other byte changes; null and unknown algorithms change none; it overruns exactly when it ciphers a message that ends before that byte |
| `Envelope.CipheredBytes` | srscnw/src/nas_mm.cc:3157-3216 | the same of the specification, byte by byte from the algorithms alone, for both header formats |
| `Envelope.KeysApart` | srscnw/src/nas_mm.cc:3106-3230 | what is ciphered does not depend on the integrity key or algorithm, nor the MAC on the ciphering key or algorithm |
| `Envelope.MacedBytes` | srscnw/src/nas_mm.cc:3106-3137 | only the four bytes before the sequence number change, to the MAC by `integ` and `kInt`, bearer 1, of the sequence number and what follows |
| `Envelope.CheckedBytes` | srscnw/src/nas_mm.cc:2168-2316 | the check by the bytes: it overruns exactly when a MAC is due and the message ends before the sequence number, and accepts exactly when the field is four zeros in the long header and then the MAC by `integ` and `kInt` under bits 8 to 23 of the stored count and the sequence number |
| `Envelope.CipherDecrypt` | srscnw/src/nas_mm.cc:3232-3322 | the same for messages of any length, with the count read from the place of the sequence number |
| `Envelope.IntegrityGenerate` | srscnw/src/nas_mm.cc:3106-3137 | in place, only the four MAC bytes change, to the MAC over sequence number and payload; it overruns exactly when it protects a message that ends before the sequence number |
| `Envelope.IntegrityCheck` | srscnw/src/nas_mm.cc:2168-2316 | for messages of any length: accepts exactly when the MAC field, four or eight bytes, is the expected one, overruns exactly when the length wraps; the copied count moves to the estimate on acceptance only |
| `Envelope.CheckedWhole` | srscnw/src/nas_mm.cc:2168-2316 | on a message with a whole header the check is the one of the round trip |
| `Envelope.Assemble` | srscnw/src/nas_mm.cc:2880-2903 | packing, encrypting and protecting in a buffer, each with a count of its own, leaves the bytes of the specification or overruns as it does |
| `Envelope.AssembledBytes` | srscnw/src/nas_mm.cc:2880-2903 | every byte of a message whose header has the format of its context: 0x7e, version and header type, zeros, the MAC, the sequence number, the body combined with the keystream, each from its own key |
| `Bytes.LengthWraps` | srscnw/src/nas_mm.cc:3166-3176 | an unsigned length wraps, to nearly 2^32, exactly when the range would start past the end |
| `Envelope.SealedShape` | srscnw/src/nas_mm.cc:3106-3230 | sealing a packed message changes the MAC bytes and the bytes after the sequence number only |
| `Envelope.EnvelopeRoundTrip` | srscnw/src/nas_mm.cc:2168-2316 | both formats, any payload, any keystream and MAC, either direction: accepted, and every byte outside the MAC field restored, for counts below 256 |
| `Envelope.RoundTripExactly` | srscnw/src/nas_mm.cc:3232-3260 | for all algorithms if and only if the count is below 256 or nothing depends on it |
| `Envelope.CountsAgree` | srscnw/src/nas_mm.cc:2176-2244 | check and decryption use one count exactly when bits 8 to 23 of the stored count are zero |
| `Envelope.PackOuterIsPacked` | lib/src/asn1/nas_5g_msg.cc:3628-3683 | the packer leaves a zero MAC field and the low count byte, as the round trip needs, and the body behind them |
| `Envelope.MatchingHeaderReadable` | lib/src/asn1/nas_5g_msg.cc:3628-3683 | with the header format of its context a message still shows the sequence number it was packed with and opens to its body, for any algorithms and counts |
| `Envelope.NarrowHeaderOverwritten` | srscnw/src/nas_mm.cc:1292-1330 | the Deregistration Accept of a long-header context that only protects: the MAC is taken over nothing and replaces sequence number and body |
| `Envelope.NarrowHeaderOverruns` | srscnw/src/nas_mm.cc:1292-1330 | in a long-header context that ciphers, the length to cipher wraps to 2^32 - 1 |
| `Envelope.DeregistrationAcceptExactly` | srscnw/src/nas_mm.cc:1292-1330 | it stays readable for all algorithms if and only if the context uses the short header or has no algorithm at all |
| `Envelope.OneCountDeliveredExactly` | srscnw/src/nas_mm.cc:2880-2903 | a message sealed under one count is found, accepted and opened by a receiver at count 0, for all algorithms, if and only if the count is below 256 or nothing depends on it |
| `Envelope.CommandDelivered` | srscnw/src/nas_mm.cc:909-995 | a message that is only protected and always says 0 is delivered when its count is 0 or it has no MAC |
| `Envelope.CommandRefused` | srscnw/src/nas_mm.cc:909-995 | at any other count some algorithms refuse it |
| `Envelope.NarrowHeaderDelivered` | srscnw/src/nas_mm.cc:1292-1330 | the Deregistration Accept of a long-header context is delivered for all algorithms if and only if the context has none |
| `NasIndex.StepSafe` | srscnw/src/cnw.cc:326-571 | every event keeps the indexes sound, provided a Service Request that is dispatched comes on the recorded RNTI |
| `NasIndex.RunSafe` | srscnw/src/cnw.cc:962-979 | on every such run and for any number of UEs: each RNTI entry names a live context with that RNTI, each TMSI entry a live context also indexed by RNTI, no context is deleted twice or used after deletion |
| `NasIndex.ServiceRequestExactly` | srscnw/src/nas_mm.cc:2351-2353 | one Service Request keeps the indexes sound if and only if it comes on the recorded RNTI |
| `NasIndex.SoundThroughoutExactly` | srscnw/src/nas_mm.cc:2327-2455 | the indexes are sound after every prefix of a run if and only if every Service Request the run dispatches comes on the recorded RNTI |
| `NasIndex.StrayServiceRequest` | srscnw/src/cnw.cc:613-627 | without the discipline a concrete run deletes one context twice |
| `NasIndex.RegisterSafe` | srscnw/src/nas_mm.cc:1725-1852 | registration, with its lost contexts, keeps the indexes sound |
| `NasIndex.DeregisterSafe` | srscnw/src/nas_mm.cc:1240-1356 | deregistration removes the context and both of its entries, keeping the indexes sound |
| `NasIndex.SendAcceptSafe` | srscnw/src/cnw.cc:643-710 | storing the one TMSI in a context keeps the indexes sound although the entry may belong to another |
| `NasIndex.ReleaseSafe` | srscnw/src/cnw.cc:613-627 | clearing both indexes and deleting one context keeps them sound |
| `NasTmsi.RunHolds` | srscnw/src/nas_mm.cc:1063-1072 | on every run the TMSI entry leads to the context that got the first Registration Accept since a context was last deleted |
| `NasTmsi.ServiceReachesExactly` | srscnw/src/nas_mm.cc:2340-2353 | on every run a Service Request, whoever sends it, is handled for a context if and only if it names the TMSI and that context is the holder |
| `NasTmsi.SharedTmsi` | srscnw/src/nas_mm.cc:1063-1072 | two UEs register and both are given the TMSI; the second asks for service on its own RNTI and the first one's context is moved there, leaving the indexes unsound |
| `NasSecurity.AnswerDecided` | srscnw/src/nas_mm.cc:360-465 | an Authentication Response of a known context is answered with one message: a protected Security Mode Command if and only if RES is the one expected, else an Authentication Reject; the two keys become those of the response, each in its own place, in the first case only, the header format in both, and nothing else changes but the counts |
| `NasSecurity.CommandsEarned` | srscnw/src/nas_mm.cc:392-446 | on every run each Security Mode Command is the one message of an Authentication Response with the RES expected, sent to the context that response came from under the keys it brought |
| `NasSecurity.RegistrationStarts` | srscnw/src/nas_mm.cc:1725-1852 | a registration by SUCI starts with both algorithms the network is configured with and zero keys, challenged and indexed exactly when the subscriber is known, the index entry only if free |
| `NasSecurity.RunSecured` | srscnw/src/nas_mm.cc:360-597 | on every run the security context of every UE is the one its history makes: the algorithms of its registration, the keys of its last right response, unless a failure wiped them since |
| `NasSecurity.SentUnderSecurity` | srscnw/src/nas_mm.cc:2818-2906 | on every run each protected message is protected under the algorithms and keys its context has by its history at that point |
| `NasProtocol.StepFollowsTable` | srscnw/src/cnw.cc:326-710 | for every event in every state, a flat table: which context starts or ends, what is sent to whom, the standing of every context and the RNTI index afterwards; the handlers with all their branches do exactly that |
| `NasProtocol.RunAsTold` | srscnw/src/cnw.cc:326-710 | over every run, what was started, ended and sent is what the lines of its events say, in order, and a context is there if and only if it was started and not ended |
| `NasProtocol.StandingExactly` | srscnw/src/nas_mm.cc:176-358 | on every run a context is registered if and only if a Registration Complete ever came from it; it owes a Registration Accept if and only if a Security Mode Complete came from it since the last one, and a Service Accept if and only if a Service Request reached it since the last one |
| `NasProtocol.BreaksExactly` | srscnw/src/nas_mm.cc:360-390 | a step follows a null pointer if and only if its message needs a context that is not found, runs over a buffer if and only if a message is too short for its header or the short-header accept meets a ciphering long-header context, and follows a dangling pointer only where an index still leads to a deleted context |
| `NasProtocol.KnownGutiDecided` | srscnw/src/nas_mm.cc:1921-2083 | both branches for a UE known by GUTI: taken over as it is in silence, or started over with its keys, cleared counts and a moved index entry, and challenged if its subscriber is known |
| `NasCounts.StepKeeps` | srscnw/src/cnw.cc:663-704 | every event keeps the stored downlink count equal to the number of moves since the security context was made, and the uplink count at 0, although the handlers hold statements that would move it |
| `NasCounts.RunKeepsCounts` | srscnw/src/nas_mm.cc:455-462 | so on every run, of any length |
| `NasCounts.CountIsMoves` | srscnw/src/nas_mm.cc:3960-3964 | each protected message has its MAC under that number modulo 2^32; a ciphered one took its cipher's count and its header's from separate reads of the same value, because the count moves after the last of them; the header of the Security Mode Command is 0 whatever the count is |
| `NasCounts.ReadableExactly` | srscnw/src/nas_mm.cc:909-995 | on every run what is sent shows the low byte of its count in the header and opens to its body, for all algorithms and bodies, if and only if it is neither the Deregistration Accept of a long-header context that has an algorithm nor a Security Mode Command whose count is not 0 in its low byte |
| `NasCounts.DeliveredExactly` | srscnw/src/nas_mm.cc:3232-3260 | on every run a receiver with the keys and a stored count of 0 finds the sequence number of a message, accepts and opens it, for all algorithms, if and only if the number of moves is below 256 for a ciphered message and 0 for a Security Mode Command, or nothing depends on it; the Deregistration Accept of a long-header context needs a context without algorithms |
| `NasCounts.DuplicateResponse` | srscnw/src/nas_mm.cc:360-465 | a duplicate Authentication Response makes a second Security Mode Command that says 0, is protected under 1, and is refused by some algorithms |
| `NasCounts.CountsIncrease` | srscnw/src/cnw.cc:663-704 | within one security context, before the count wraps, a later message uses a greater count, an equal one only after a voice modification |
| `NasCounts.CountReusedExactly` | srscnw/src/nas_mm.cc:4499-4559 | two messages less than 2^32 moves apart share a count if and only if nothing between them moved it |
| `NasCounts.VoiceReusesCount` | srscnw/src/nas_mm.cc:4499-4559 | two voice modifications in a row do share it |
| `NasCounts.UplinkCountsAgree` | srscnw/src/cnw.cc:336-371 | in every reachable state check and decryption of any uplink message use the same count: the final update goes through a pointer that stays null, the check updates a copy, and the branch for a known GUTI is never entered |
| `NasCounts.ReplayAccepted` | srscnw/src/nas_mm.cc:2168-2316 | whatever the check says of a buffer under a context it says again after any further run that leaves the security context in place |
| `NasCounts.IntendedCountsPart` | srscnw/src/cnw.cc:564-567 | with that pointer set, after n messages they agree if and only if bits 8 to 23 of n are zero, so not at the 256th |
| `NasPending.StepOwes` | srscnw/src/cnw.cc:643-710 | every event keeps the pending-accept balance of every context |
| `NasPending.RunOwes` | srscnw/src/nas_mm.cc:599-690 | on every run and for every context, Security Mode Completes cover Registration Accepts sent and pending, Service Requests the Service Accepts |
| `NasPending.TriggerSendsOne` | srscnw/src/cnw.cc:643-710 | a trigger sends one accept, to the context it names, exactly when one is pending; registration goes first; one flag is cleared |
| `NasSession.AcceptEchoes` | srscnw/src/nas_sm.cc:420-440 | the accept built from the slots names the session and its latest PTI if and only if the session is 2; or session 2 was never named, the identity is the one slot 0 shows, and no other session overwrote its PTI |
| `NasSession.HandleSessionKeeps` | srscnw/src/nas_sm.cc:55-213 | a session message keeps the slots in step with the history and its answer right behind it |
| `NasSession.RunAnswers` | srscnw/src/nas_sm.cc:80-95 | on every run and for every session identity each accept directly follows a request or authentication complete, with the right contents exactly as above; none is missing except where the engine breaks down |
| `NasSession.AcceptsEchoExactly` | srscnw/src/nas_sm.cc:140-145 | the same at any accept of any run, as an equivalence over its history |
| `NasSession.StickyVoice` | srscnw/src/nas_sm.cc:80-95 | in the other order a session-1 request is answered with session 2 |
| `NasSession.StrayIdentity` | srscnw/src/nas_sm.cc:78-95 | a request for session 3 is answered as session 0 |
| `NasSession.StrayIdentityOverwrites` | srscnw/src/nas_sm.cc:78-145 | and leaves its PTI in the accept session 1 gets after its authentication complete |
| `NasSession.RunAnswersOwn` | srscnw/src/nas_mm.cc:3945-3968 | on every run with disciplined Service Requests each request is answered, and on its own context |
| `NasPdu.ForgedDropped` | srscnw/src/cnw.cc:373-423 | a message of a known context, not initial, under the header integrity protected, ciphered, or ciphered with new context, whose MAC field is not the one expected, leaves the whole state as it is |
| `NasPdu.ProtectedDelivered` | srscnw/src/cnw.cc:377-390 | with the MAC expected, under the header that only protects, the decoding of the bytes as they are is dispatched |
| `NasPdu.CipheredDelivered` | srscnw/src/cnw.cc:391-418 | with the MAC expected, under the two headers that announce a cipher, the decoding of the deciphered bytes is dispatched: byte by byte under the ciphering key and the sequence number |
| `NasPdu.ShortOverruns` | srscnw/src/cnw.cc:377-418 | a message that ends too early for the check or the decryption makes the length wrap |
| `NasPdu.UncheckedDelivered` | srscnw/src/cnw.cc:351-423 | under the plain and under an unknown header, and in an initial message, the decoding of the bytes as they are is dispatched unchecked; integrity with new context, or an unknown RNTI, drops a message that is not initial |
| `Cnw.Engine.HandleEnbRxPdu` | srscnw/src/cnw.cc:326-571 | from the bytes of a message: checks and decrypts in place under the keys and count of the object the index points to, decodes, dispatches, and ends through the null pointer; takes the step of the event those bytes amount to (see `NasPdu`), and appends it to the history; a forged message changes neither the state nor what was sent |
| `Cnw.EngineKeeps` | srscnw/src/cnw.cc:326-710 | an engine is always at the end of the run of its history, so the counts, the pending accepts and the sessions hold of it, and the indexes when its history is disciplined; and what it sent is, in order and nothing else, the bytes of the protected messages of that run |
| `Cnw.EngineSends` | srscnw/src/nas_mm.cc:2818-2906 | whatever an engine was fed, every protected message it sent, but a Deregistration Accept of a long-header context, is byte by byte: header type 3 for the Security Mode Command and 2 for the rest, the sequence number, the MAC and the ciphered body under the keys of the context and the number of times its count has moved on |
| `Cnw.Engine.OpenEnvelope` | srscnw/src/cnw.cc:373-423 | check and decryption by the security header, refused or overrun exactly as the envelope is |
| `Cnw.Engine.PassHeader` | srscnw/src/cnw.cc:373-423 | by the name of the security header, whether a message is let through, and what is left in the buffer |
| `Cnw.Engine.DispatchMessage` | srscnw/src/cnw.cc:458-562 | the switch over message types takes the dispatch of the state machine, over objects and pointers |
| `Cnw.Engine.MoveUplinkCount` | srscnw/src/cnw.cc:499-567 | the closing statements through a pointer, null or not |
| `Cnw.Engine.HandleGutiRegistrationKnownUe` | srscnw/src/nas_mm.cc:1921-2083 | both branches for a UE found by GUTI, with the uplink count moved or cleared |
| `Cnw.Engine.HandleRegistrationRequest` | srscnw/src/nas_mm.cc:60-174 | allocates, indexes and challenges, or hands over to the branch for a known GUTI |
| `Cnw.Engine.HandleRegistrationComplete` | srscnw/src/nas_mm.cc:176-358 | marks the context registered and connected |
| `Cnw.Engine.HandleAuthenticationResponse` | srscnw/src/nas_mm.cc:360-465 | takes the step of `AnswerDecided`: Security Mode Command or Authentication Reject by the RES, and the count moved in both cases |
| `Cnw.Engine.HandleAuthenticationFailure` | srscnw/src/nas_mm.cc:467-597 | replaces the security context |
| `Cnw.Engine.HandleSecurityModeComplete` | srscnw/src/nas_mm.cc:599-690 | raises the registration flag and sends nothing |
| `Cnw.Engine.HandleServiceRequest` | srscnw/src/nas_mm.cc:2327-2455 | follows the TMSI entry, rewrites the object's RNTI, indexes it there unless taken, raises the flag, moves the count |
| `Cnw.Engine.HandleDeregistrationRequest` | srscnw/src/nas_mm.cc:1240-1356 | answers with the short header unless switched off, overrunning where that does, then deletes |
| `Cnw.Engine.SetConnectionIdle` | srscnw/src/nas_mm.cc:1427-1452 | sets the connection idle and nothing else |
| `Cnw.Engine.UserReleased` | srscnw/src/cnw.cc:601-611 | takes the step of a user release |
| `Cnw.Engine.HandlePduSession` | srscnw/src/nas_sm.cc:55-213 | marks the slot, stores the PTI and answers as `HandleSession` |
| `Cnw.Engine.SmWriteDlInfo` | srscnw/src/nas_mm.cc:3945-3968 | looks the context up again by its stored RNTI and protects under that one's count |
| `Cnw.Engine.SendProtected` | srscnw/src/nas_mm.cc:2818-2906 | packs, encrypts and protects the bytes of the message in a buffer, reading the count of the object for each, sends them, then moves the count |
| `Cnw.Engine.Protect` | srscnw/src/nas_mm.cc:2818-2906 | the bytes are those of the message the three reads make; it fails exactly where the length to cipher wraps |
| `Cnw.Engine.ProtectCommand` | srscnw/src/nas_mm.cc:839-1005 | the Security Mode Command: sequence number 0, a MAC under the count, no cipher, and the bytes of that message |
| `Cnw.Engine.SendRegOrServiceAccept` | srscnw/src/cnw.cc:643-710 | takes the trigger step and says whether it sent |
| `Cnw.Engine.SendConfigurationUpdate` | srscnw/src/nas_mm.cc:3698-3792 | takes the configuration-update step |
| `Cnw.Engine.PcsSmModification` | srscnw/src/nas_mm.cc:4499-4559 | takes the voice-modification step |
| `Cnw.Engine.ReleaseNasCtx` | srscnw/src/cnw.cc:613-627 | takes the release step, a second delete of one context being a fault |
| `Cnw.Engine.DeleteUeNasCtx` | srscnw/src/cnw.cc:962-979 | takes the object off the heap and erases its TMSI entry and the entry of the RNTI it records |
| `Cnw.Engine.AddNasCtxToRntiMap` | srscnw/src/cnw.cc:1045-1057 | points the RNTI of the object at it exactly when the RNTI has no entry |
| `Cnw.Engine.AddNasCtxToTmsiMap` | srscnw/src/cnw.cc:871-883 | points the TMSI of the object at it exactly when the TMSI has no entry |
| `Reframer.PacketBytes` | lib/examples/pdsch_enodeb.c:672-675 | the least number of bytes that holds the transport block, at least one |
| `Reframer.CutKeepsBytes` | lib/examples/pdsch_enodeb.c:679-692 | the packets cut from a buffer, each of full size, and the rest, shorter than a packet, are the buffer |
| `Reframer.EachReadCuts` | lib/examples/pdsch_enodeb.c:667-696 | each read hands over, behind what was handed over before, packets of exactly the size then current, until less than one is left |
| `Reframer.NothingLost` | lib/examples/pdsch_enodeb.c:662-704 | over any reads and changing packet sizes, packets in order and leftover are the bytes received |
| `Reframer.Stream.OnRead` | lib/examples/pdsch_enodeb.c:667-696 | the in-place buffer after a read holds exactly the leftover of that history, less than one packet for the current transport block size |
| `Reframer.Stream.CutPackets` | lib/examples/pdsch_enodeb.c:679-696 | the inner loop ends, takes the packets in order, and leaves the rest at the front |
| `Reframer.Stream.Compact` | lib/examples/pdsch_enodeb.c:693-696 | the copy moves the leftover down; it is only called on ranges that do not overlap |
| `Reframer.Stream.OnEmptyRead` | lib/examples/pdsch_enodeb.c:697-698 | an empty read drops the leftover |
| `Handoff.ActKeeps` | lib/examples/pdsch_enodeb.c:679-692 | every single step of either thread keeps the token invariant |
| `Handoff.HandoffSafe` | lib/examples/pdsch_enodeb.c:679-949 | under every interleaving: one token; packets taken once each and in order; at most one handed over and not taken; a ready slot never refilled; a waiting producer waits for the consumer |
| `Handoff.ReadyIsTaken` | lib/examples/pdsch_enodeb.c:936-949 | from every reachable state with a packet ready at most two steps of the consumer alone take it |
| `Handoff.NeverStuck` | lib/examples/pdsch_enodeb.c:679-949 | from every reachable state some steps take the next packet |
| `PrbMask.ReverseReverses` | lib/examples/pdsch_enodeb.c:461-468 | on 32-bit vectors, bit i of the result is bit 31 - i |
| `PrbMask.ReverseTwice` | lib/examples/pdsch_enodeb.c:461-468 | on 32-bit vectors, an involution |
| `PrbMask.ReverseWordAt` | lib/examples/pdsch_enodeb.c:461-468 | the five masked swaps, composed on the bits of a word, reverse them |
| `PrbMask.ReverseWordTwice` | lib/examples/pdsch_enodeb.c:461-468 | and undo themselves |
| `PrbMask.ReverseIsReverseWord` | lib/examples/pdsch_enodeb.c:461-468 | the swaps on 32-bit vectors are the swaps on their bits |
| `PrbMask.PressChanges` | lib/examples/pdsch_enodeb.c:566-582 | the change each arrow key makes, where it stops, and that opposite keys undo each other |
| `PrbMask.PressedInBand` | lib/examples/pdsch_enodeb.c:566-582 | start and length stay within the band under any sequence of arrow keys |
| `PrbMask.PrbsetToBitmask` | lib/examples/pdsch_enodeb.c:470-480 | bit nb - 1 - i is set exactly when group i is in the block; no bit at or above nb is set |
| `ConfigTree.OpenMeans` | mng/src/mng_scpiparse.cc:2043-2060 | the recursive test of a path is that every existing proper prefix is a group |
| `ConfigTree.SetLookup` | mng/src/mng_scpiparse.cc:2043-2066 | setting a path affects that path and makes its prefixes groups, and no unrelated path |
| `ConfigTree.UpsertByPath` | mng/src/mng_scpiparse.cc:2010-2070 | after a successful call the path holds the new value (see `UpsertDecides`), its prefixes are groups, every other path is as before |
| `ConfigTree.UpsertDecides` | mng/src/mng_scpiparse.cc:1982-2066 | by path: text, or a new setting declared as string, becomes the text; an integer or float, or a new setting declared so, the number the text stands for; any other setting stays; the call fails if and only if the first component is missing, something above is no group, the number does not parse, or a new setting has none of the three types |
| `ConfigTree.ParseConfigFile` | mng/src/mng_scpiparse.cc:2010-2070 | the loop, which tests and adds component by component, computes exactly the upsert, and throws exactly where it does |
| `ConfigTree.WriteLeaf` | mng/src/mng_scpiparse.cc:2064-2065 | the final conversion replaces the placeholder as if the value had been set at once |
| `AppTable.ApplyConserves` | mng/src/mng_scpiparse.cc:671-730 | every command keeps the conservation invariant, whatever the spawn answers |
| `AppTable.RunConserves` | mng/src/init.cc:198-229 | over every sequence of commands each spawn is accounted for by one running slot or one stop; status is positive exactly when pid is; a running beam is switched on |
| `AppTable.SpawnedOnce` | mng/src/init.cc:198-229 | a pid spawned once is in one slot or was stopped once, never both |
| `AppTable.OnWithoutProcessExactly` | mng/src/mng_scpiparse.cc:716-729 | after any commands a beam is switched on without a running process if and only if the command that last changed its switch was an ON whose spawn failed; a running one has the pid that spawn gave |
| `AppTable.BeamActsOnSlot` | mng/src/mng_scpiparse.cc:700-730 | a beam command acts on slot 0 or 1 for IOT 1 or 2 and slot 2 or 3 for AN 1 or 2, and on no other; the switch is on if and only if it was an ON |
| `AppTable.CoreRunsExactly` | mng/src/mng_scpiparse.cc:671-682 | after any commands slot 4 runs, with its pid, if and only if a core-network ON since the last OFF had a spawn that succeeded |
| `AppTable.FailedSpawnSticks` | mng/src/mng_scpiparse.cc:716-729 | one step of it: after a failed spawn, switching the beam on again does nothing |
| `AppTable.Daemon.StartAnApp` | mng/src/init.cc:198-214 | starts the slot in place unless it runs or the spawn fails |
| `AppTable.Daemon.StopAnApp` | mng/src/init.cc:215-229 | stops a running slot in place and frees it |
| `AppTable.Daemon.SetBeamImmediate` | mng/src/mng_scpiparse.cc:683-730 | carries a beam command out as `Apply` |
| `AppTable.Daemon.SetCoreNetwork` | mng/src/mng_scpiparse.cc:671-682 | carries a core-network command out as `Apply` |

## Left out

- Test-controller, TTCN and ATE branches, busy waits, sleeps, logging and PCAP mirroring: every flag for them is off in the model.
- ASN.1 encoding and decoding of bodies, milenage, the EEA and EIA algorithms and key derivation: they are parameters (`Crypto`, `Codec`, the keys and the result of an Authentication Response).
- The SUCI index: no handler inserts into it, and its two branches do the same.
- What the original does after it follows a null or dangling pointer or copies over the end of a buffer: the model stops there. Runs may still reach a null pointer through an initial message of an unknown UE; the index theorem rules out the dangling ones.
- The bytes of messages that are not protected, and addressing: the downlink transport stamps every message with RNTI 70, whatever RNTI it is handed.
- NasCounts.CountsIncrease: says nothing about counts after 2^32 moves in one security context, where the 32-bit count wraps; CountIsMoves covers them.
- Envelope.EnvelopeRoundTrip: the receiver is the network's own check and decryption run in the chosen direction, since the UE is not part of the repository.
- Voice modifications with a flag other than 2 and 3: they are protected and not sent.
- IMS call control, user-plane forwarding, paging and the RRC interface.
- The contents of establishment accepts beyond session identity and PTI.
- The `comment` parameter of `modify`, its overloads for other value types, and files that cannot be opened.
- Blank characters other than space and tab, and carriage returns, are ordinary characters, as in `filterData`.
- Names libconfig refuses, list and array paths, and the reading and writing of the configuration file.
- Signal handlers, `waitpid`, the start of all applications at once, and the reuse of a pid by the operating system. The older beam command, compiled only without `NEW_BEAM_IMM`, is not modelled.
- What `main` of the PDSCH example transmits after the handoff: it overwrites the packet buffers.
- PrbMask.PrbsetToBitmask: works on a word given as its 32 bits, to which ReverseIsReverseWord ties the swaps on 32-bit vectors; the number of groups is a parameter between 1 and 32.
- Sqn.IncrementSqn: adds the shifted bytes where the original combines them by OR, which agree because they do not overlap.
- Radio examples other than `pdsch_enodeb.c`, plotting, argument parsing and the SCPI command tables: input and output.
