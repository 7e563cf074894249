# Metis protocol model

A Dafny model of the parts of Metis, a TDS protocol server, where the behaviour is hardest to
see from one function: the TDS 5 token-stream parser with its recovery pass, the poll-driven
transport adapters and packet framing, the state shared by concurrent connections, the BER and
typed-value decoders, the parsers that run in a strict and a tolerant mode, the result-token
printer and the emulated session. `dafny verify dfyconfig.toml` checks everything.

## How it is organised

| files | part of the server | main results |
|---|---|---|
| `Bytes`, `Reading` | octets, integers, positions | shared by every codec |
| `Tds5Wire`, `Tds5Parser` | token stream, formats, values | the parser and its loops |
| `Tds5Meaning` | meaning of parameter sets | `ParseIsFaithful` |
| `Tds5Recovery` | resynchronisation and splicing | `TelemetryTilesInput`, `TelemetryWithinBudget`, `TelemetryIsFaithful` |
| `Tds5Challenge`, `Tds5Examples` | the server's own challenges | `NegotiationRoundTrip`, `ProprietaryRoundTrip`, `RecoveryReportsTheEarlierKey` |
| `Transport`, `TlsAdapter` | TLS inside PRELOGIN packets | `TdsTlsIo.PollRead`, `TdsTlsIo.PollWrite`, `ReportedReadsBack`, `FlushDoubles` |
| `Packet`, `PacketIo` | packet framing, replayed prefix | `MessageRoundTrip`, `PrefixedIo.ReadMessage`, `WriteMessage` |
| `PayloadStore` | content-addressed capture | `EveryRunIsSafe`, `CorruptionReported`, `CompletedRun` |
| `Admission`, `RateLimiter` | connection and request limits | `EveryRunConserves`, `ActiveWithinPermits`, `EntriesAreLive`, `PruningIsInvisible`, `MinuteBound`, `BoundIsSharp` |
| `Ber`, `BerTrees`, `DerText` | BER walk over SSPI tokens | `WalkTree`, `OidRoundTrip`, `TextFound`, `WalkGrows` |
| `TypedData`, `TypedCursor`, `TypedLaws`, `TypedRoundTrip` | TYPE_INFO and values | `EachColumnOnce`, `PlpRoundTrip`, `TableRoundTrip`, `PrefixedJson` |
| `Prelogin`, `PreloginLaws`, `PreloginRoundTrip` | PRELOGIN in both modes | `ParseInner`, `AcceptedDataIsDisjoint`, `SentRoundTrip` |
| `Login7`, `Login7Laws` | LOGIN7 in both modes | `ConservativeExtension`, `FeaturesLossless` |
| `Tokens`, `TokenClient` | result tokens and a client's reading of them | `ResponseDecodes`, `SetsEncode`, `ResponseConforms` |
| `RpcText`, `RpcLaws` | RPC rendered as text | `RpcSplits`, `LiteralRecovered`, `ArgumentRecovered` |
| `Session` | session state and change log | `RunLogged`, `FailureChangesNothing`, `LogAndStack`, `StackFollowed`, `RunAdds` |

Code that changes things step by step is a class with the same fields, or a method with the same
loop, and each is proved against a specification function. Concurrency is a step function over a
state, one step for each await point or counter update; an arbitrary action list is an arbitrary
interleaving. A transport poll may be pending, fail, or move any part of what was asked for. A
content digest is taken to be injective, so a content address is named by its payload.

## What the proofs found

Each of these is a property one would expect of the code that fails somewhere, together with exactly
when it holds.

- The symmetric key reported after recovery is the one its history defines if and only if the
  spliced parts do not hold two different keys; the prefix's key wins although the last should
  (`TelemetryIsFaithful`, with an input in `RecoveryReportsTheEarlierKey`).
- The TLS write adapter has reported exactly the bytes it emitted if and only if no flush completed
  a write in place of its caller and no caller came back with other data (`EmittedIsReported`, and
  `ReportedReadsBack` for what the peer reads). A flush that drains a pending write makes the
  caller's retry a second copy (`FlushDoubles`); a retry with other data is reported in place of
  what went out (`RetryMisreports`). A packet pending at the switch to raw mode is whole on the wire
  if and only if the raw bytes happen to begin with its stranded octets (`StrandedIsMissing`, with a
  run in `SwitchStrands`).
- A message is read back from its packets if and only if its type is not 0x53, its first packet
  is within the reader's packet limit, its payload within the message limit and it takes at most
  65 537 packets, one more than the constant in the code (`MessageRoundTrip`).
- A content address holds its payload after a capture that reports success if and only if it did not
  hold other bytes of the same size before; a capture reports corruption if and only if they were
  of another size (`CorruptionReported`, with a run in `ForgedPasses`).
- Any minute admits at most the limit if and only if the limit is at most one (`LimitKept`): it can
  admit one request less than twice the limit, and no more (`MinuteBound`, `BoundIsSharp`).
- The active-connection counter is within the held permits if and only if no more tasks have
  panicked and gone than there are idle permit holders; so it is in every run without a panic
  (`ActiveWithinPermits`). Each panic leaves it one too high for good (`PanicLeaks`), and one
  connection is enough to put it above the permits (`PanicRunLeaks`).
- No run leaves a per-address entry of zero if and only if the per-address limit is not zero or no
  connection is admitted at all (`EntriesAreLive`, with a run in `ZeroLimitLeavesEntry`).
- A PRELOGIN message written by the server is parsed back if and only if its offsets fit 16 bits
  and it does not combine a client certificate with NotSupported; clamped offsets are always
  noticed as an overlap (`SentRoundTrip`).
- A client reads an encoded response as it was meant if and only if it is an error or no result set
  has exactly 65 535 columns; that count is the marker for no metadata, and the whole response is
  lost (`ResponseDecodes`, `WideSetLost`). It also finds every cell within the maximum of 8000 bytes
  its column declares if and only if, besides, none is longer than 4000 units; longer ones are sent
  all the same (`ResponseConforms`).
- JSON behind the compatibility prefix is read back if and only if it fits the budget and a canonical
  reading of the same octets fails (`PrefixedJson`). A prefixed NULL never is: eight of its ten octets
  are taken for a NULL and two are left over (`PrefixedNullMisread`).
- A remote call becomes one statement for each executed batch if and only if every procedure name is
  passed by the scanner without a cut and closes the quotes it opens; only the last may leave them
  open, if its arguments hold no semicolon (`RpcSplits`, with inputs in `NameExamples`).
- Two statements with the same log leave the same impersonation stack if and only if neither moves
  the stack unseen where the other leaves it, nor impersonates the login the other reverts to (`LogAndStack`, with inputs in
  `OwnLoginUnseen` and `RevertOrImpersonate`). A reader of the log knows the stack throughout a run
  if and only if no statement of it does either (`StackFollowed`).
- A synthetic login, assembly or job is logged if and only if it is not called "absent", the word
  the log uses for an object that is not there (`RunAdds`).

## Model

| member | source | states |
|---|---|---|
| `Tds5Wire.ReadBlobValue` | src/tds/tds5.rs:2066-2114 | the chunk loop reads a blob as its grammar says, chunks in order up to the one whose length has its top bit set, and stops at the budget |
| `Tds5Wire.ReadValues` | src/tds/tds5.rs:1006-1030 | the value loop over a format reads what the grammar reads, charging each value to one budget |
| `Tds5Wire.SetWithinBudget` | src/tds/tds5.rs:2046-2064 | the values of a set that is read never exceed the budget it was read with |
| `Tds5Wire.ReadFields` | src/tds/tds5.rs:1477-1517 | a format that is read has exactly the stated number of fields and ends inside its body |
| `Tds5Parser.PublishedTokensAreFramed` | src/tds/tds5.rs:119-163 | a token is published exactly if some arm of the parser frames it: none falls through to the unknown arm |
| `Tds5Parser.ParseAuthentication` | src/tds/tds5.rs:627-1200 | the token loop computes the specification: formats, budget and current message type carried from token to token, unknown token and trailing bytes |
| `Tds5Meaning.GovernorIsLastAnnouncement` | src/tds/tds5.rs:787-804 | the message type that governs a set is that of the last MSG since the previous PARAMS, and none if there was none |
| `Tds5Meaning.FirstNonEmptyIsFirst` | src/tds/tds5.rs:1032-1038 | the login ciphertext is the first non-empty value in order, if there is one |
| `Tds5Meaning.RecordSetFaithful` | src/tds/tds5.rs:1002-1113 | filing one more set keeps login ciphertext, remote passwords, symmetric key and opaque security equal to what the history of governed sets defines |
| `Tds5Meaning.TokenTouches` | src/tds/tds5.rs:627-1200 | each token changes only what its meaning allows: only PARAMS touch secrets, only MSG sets the current type, only rows and PARAMS consume budget |
| `Tds5Meaning.StepKeepsMeaning` | src/tds/tds5.rs:787-1113 | one token keeps every secret faithful to the history and the current type equal to its governor |
| `Tds5Meaning.StepKeepsAccounts` | src/tds/tds5.rs:627-1200 | one token keeps the read bytes, the consumed value bytes and the token count exact |
| `Tds5Meaning.ParseIsFaithful` | src/tds/tds5.rs:627-1200 | over a whole stream message meaning never bleeds, the tokens' bytes are exactly the part read, and only an unpublished byte ends parsing early |
| `Tds5Meaning.StrictParse` | src/tds/tds5.rs:627-1200 | the same for a parse from the start |
| `Tds5Recovery.ParseForTelemetry` | src/tds/tds5.rs:1208-1325 | the resynchronisation loop computes the specification of strict, recovered or given-up result |
| `Tds5Recovery.FirstAcceptableIsLeast` | src/tds/tds5.rs:1251-1269 | recovery resumes at the least acceptable offset and gives up only if there is none |
| `Tds5Recovery.JoinedSets` | src/tds/tds5.rs:1343-1381 | a suffix that starts with its own MSG takes no meaning from what is spliced in front of it |
| `Tds5Recovery.SpliceIsFaithful` | src/tds/tds5.rs:1343-1381 | splicing keeps every secret faithful to the joined history; the symmetric key exactly if the parts do not hold different keys |
| `Tds5Recovery.SpliceAddsValues` | src/tds/tds5.rs:1343-1381 | splicing adds up the value bytes of both parts |
| `Tds5Recovery.RecoveredStartsWithMessage` | src/tds/tds5.rs:1327-1337 | what is recovered begins with the announcement it was found by |
| `Tds5Recovery.RecoveredTiles` | src/tds/tds5.rs:1270-1312 | prefix, gap, recovered span and trailing region are consecutive |
| `Tds5Recovery.TelemetryTilesInput` | src/tds/tds5.rs:1208-1325 | for every input, parsed tokens and unparsed regions partition it without gap or overlap |
| `Tds5Recovery.TelemetryWithinBudget` | src/tds/tds5.rs:1208-1381 | total value bytes stay within the maximum, spliced prefix included |
| `Tds5Recovery.TelemetryIsFaithful` | src/tds/tds5.rs:1208-1381 | every secret reported is the one the history defines, the symmetric key if and only if there is no key conflict |
| `Tds5Challenge.BuildFormat` | src/tds/tds5.rs:445-490 | the format loop writes the field descriptions in order |
| `Tds5Challenge.BuildValues` | src/tds/tds5.rs:445-490 | the value loop writes the values in order, or reports one that is too long |
| `Tds5Challenge.SecureChallenge` | src/tds/tds5.rs:445-490 | the builder writes message, format and values, with its three errors |
| `Tds5Challenge.ReadFormatOf` | src/tds/tds5.rs:1477-1517 | the parser reads the written format back field by field, or refuses more than 1024 |
| `Tds5Challenge.ReadSetAt` | src/tds/tds5.rs:2046-2134 | the parser reads the written values back in order exactly if they fit the budget |
| `Tds5Challenge.ChallengeAt` | src/tds/tds5.rs:627-1200 | from any parser state a challenge has one definite effect, or fails exactly beyond the limits |
| `Tds5Challenge.NegotiationRoundTrip` | src/tds/tokens.rs:154-160 | the server's negotiation is parsed exactly if its values are within the limits, yielding that one message type and exactly those bytes in order, no unknown token, no byte left |
| `Tds5Examples.ProprietaryRoundTrip` | src/tds/tds5.rs:406-443 | the proprietary challenge is read back with its key exactly if the key fits the budget |
| `Tds5Examples.StrictKeepsLastKey` | src/tds/tds5.rs:1002-1113 | of two key messages in one stream the second key is reported |
| `Tds5Examples.RecoveryReportsTheEarlierKey` | src/tds/tds5.rs:1343-1381 | with one stray byte between them the first is reported: the concrete failure of the key property |
| `TlsAdapter.UnwrapInvertsWrap` | src/server/tls.rs:316-486 | reading what the write side emits gives the bodies back, each once, and hands over all behind the first final flight untouched |
| `TlsAdapter.EmittedIsReported` | src/server/tls.rs:425-486 | emitted bodies equal reported bytes if and only if no flush completed a write for its caller and every report went to a caller with the same data; a flush that did makes more emitted than reported |
| `TlsAdapter.ReportedReadsBack` | src/server/tls.rs:300-486 | for any adapter that has switched with nothing stranded, the peer reads every emitted body and then the raw bytes, and this is what callers were told if and only if no write was drained or mistaken |
| `TlsAdapter.ReportedReadsBackSoFar` | src/server/tls.rs:300-486 | the same before the switch, whenever no packet is pending |
| `TlsAdapter.StrandedIsMissing` | src/server/tls.rs:338-346 | after a switch with a packet pending the wire holds the packets before it whole, its octets up to the stranded ones and then the raw bytes; all packets are whole on it if and only if the raw bytes begin with the stranded ones |
| `TlsAdapter.SwitchStrands` | src/server/tls.rs:265-293 | the run from a new adapter on: a first write pending at the switch is broken off, and the raw bytes follow the part that was sent |
| `TlsAdapter.TdsTlsIo.Drain` | src/server/tls.rs:474-486 | a flush pushes a pending packet out as far as the transport takes it, and forgets one that is out |
| `TlsAdapter.FlushDoubles` | src/server/tls.rs:425-486 | the failing run: a pending write, a flush that completes it and the retry put the data on the wire twice and report it once |
| `TlsAdapter.RetryMisreports` | src/server/tls.rs:425-472 | the other failing run: a retry with other data is told that as many of its own bytes went out |
| `TlsAdapter.TdsTlsIo.constructor` | src/server/tls.rs:265-280 | a new adapter owes its reader exactly the stream its wire carries |
| `TlsAdapter.TdsTlsIo.FillHeader` | src/server/tls.rs:352-367 | header bytes move from wire to buffer, none lost under any partial reads |
| `TlsAdapter.TdsTlsIo.FillPayload` | src/server/tls.rs:385-404 | payload bytes likewise, up to the stated length |
| `TlsAdapter.TdsTlsIo.Deliver` | src/server/tls.rs:326-351 | what is handed out continues the owed stream; the last part of a final flight makes reading raw |
| `TlsAdapter.TdsTlsIo.ReadPacket` | src/server/tls.rs:350-407 | one packet's worth of input keeps what is owed; end and malformed packets are reported only when nothing more is owed |
| `TlsAdapter.TdsTlsIo.PollRead` | src/server/tls.rs:316-409 | for every schedule the delivered bytes are a prefix of bodies up to the first final flight, then the raw rest; nothing lost, repeated or read ahead |
| `TlsAdapter.TdsTlsIo.SwitchWrites` | src/server/tls.rs:338-346 | the raw switch leaves behind exactly the unsent part of a pending packet |
| `TlsAdapter.TdsTlsIo.PollPendingWrite` | src/server/tls.rs:300-314 | a pending packet goes out in order under any partial writes |
| `TlsAdapter.TdsTlsIo.Stage` | src/server/tls.rs:447-462 | a chunk of at most 16 376 bytes is wrapped as one PRELOGIN packet |
| `TlsAdapter.TdsTlsIo.PollWrite` | src/server/tls.rs:425-472 | what is out and pending is the wrapped chunks in order; each completed write is reported once with its own length |
| `TlsAdapter.TdsTlsIo.PollFlush` | src/server/tls.rs:474-486 | a flush may complete a pending packet, and then reports it to nobody |
| `TlsAdapter.TdsTlsIo.EnableRawMode` | src/server/tls.rs:282-293 | buffered bytes are dropped; after a final flight nothing is buffered and the owed stream is unchanged |
| `Packet.HeaderRoundTrip` | src/tds/packet.rs:20-62 | decoding inverts encoding exactly within the length bounds, and encoding inverts every decoding |
| `Packet.PartsTile` | src/tds/packet.rs:235-272 | packets tile the payload, only the last ends the message, no id is zero |
| `Packet.PartReads` | src/tds/packet.rs:126-232 | one written packet met by the reader, with the check that decides at each limit |
| `Packet.SplitReads` | src/tds/packet.rs:126-272 | from any point of a message the rest is read back exactly within the limits |
| `Packet.MessageRoundTrip` | src/tds/packet.rs:126-272 | a written message followed by any bytes is read back whole and leaves those bytes, if and only if the limits admit it |
| `PacketIo.PrefixedIo.PollRead` | src/server/tls.rs:213-229 | the prefix, then the transport, as one stream under any schedule |
| `PacketIo.PrefixedIo.ReadExact` | src/tds/packet.rs:138-138 | exactly the bytes asked for, however polls deal them out, or the end of a shorter stream |
| `PacketIo.PrefixedIo.ReadSmpPrelude` | src/tds/packet.rs:139-182 | frames of an unnegotiated multiplexed session always end in an error, the first one met |
| `PacketIo.PrefixedIo.ReadMessage` | src/tds/packet.rs:126-232 | the message and what is left depend only on the stream's contents, not on the split between prefix and transport |
| `PacketIo.FinishLoginOnly` | src/server/tls.rs:168-193 | exactly the first packet is taken from the decrypted stream and put in front of the plaintext; it fails only if no authentication packet is there |
| `PacketIo.WriteMessage` | src/tds/packet.rs:235-272 | the loop writes the split message and reports its size, or refuses the packet size |
| `PayloadStore.CheckKeeps` | src/payload/mod.rs:52-59 | the first look keeps the invariant whatever it finds |
| `PayloadStore.CreateKeeps` | src/payload/mod.rs:64-72 | exclusive creation gives a capture a staging file of its own |
| `PayloadStore.WriteKeeps` | src/payload/mod.rs:73-84 | partial writes reach no other file, and a completed one holds the payload |
| `PayloadStore.LinkKeeps` | src/payload/mod.rs:86-97 | the link publishes a complete payload or replaces nothing |
| `PayloadStore.RecheckKeeps` | src/payload/mod.rs:88-95 | the loser of a race finds the winner's file, or reports it gone or corrupt |
| `PayloadStore.RemoveKeeps` | src/payload/mod.rs:98-108 | cleanup removes the capture's own staging file only |
| `PayloadStore.StepKeeps` | src/payload/mod.rs:37-122 | every step of every capture, every fault and every deletion keeps the invariant |
| `PayloadStore.RunKeeps` | src/payload/mod.rs:37-122 | so does every interleaving |
| `PayloadStore.EveryRunIsSafe` | src/payload/mod.rs:37-122 | from any directory, a visible content address holds the complete payload or what it held before, and is found corrupt only if that was of another size; without deletions it is never found gone and at most one capture reports it new |
| `PayloadStore.CorruptionReported` | src/payload/mod.rs:37-122 | without faults and deletions a capture reports corruption if and only if its address held a file of another size; any other reports success, truly if and only if the address did not hold other bytes of the same size |
| `PayloadStore.ForgedPasses` | src/payload/mod.rs:52-59 | other bytes of the right size pass for a duplicate, and stay |
| `PayloadStore.CompletedRun` | src/payload/mod.rs:37-122 | fault-free completion leaves no staging file, one file per payload, and exactly one report of new for each payload first published; damaged addresses are reported corrupt |
| `PayloadStore.DeletionIsNoticed` | src/payload/mod.rs:90-95 | a deletion before the loser looks makes it report the payload gone: that branch needs a deletion |
| `RateLimiter.Limiter.AllowRequest` | src/server/mod.rs:466-491 | one call prunes, opens or renews the window and counts, as the step function says |
| `RateLimiter.PruningIsInvisible` | src/server/mod.rs:472-472 | with monotone time the pruned map decides as a never-pruned one |
| `RateLimiter.MinuteBound` | src/server/mod.rs:466-491 | any half-open minute admits less than twice the limit for one address, nothing if the limit is zero |
| `RateLimiter.BoundIsSharp` | src/server/mod.rs:466-491 | for every limit some calls reach one less than twice the limit |
| `RateLimiter.LimitKept` | src/server/mod.rs:466-491 | every minute of every run admits at most the limit if and only if the limit is at most one |
| `Admission.GuardKeeps` | src/server/mod.rs:508-524 | taking a guard counts it, within the limit |
| `Admission.DropGuardKeeps` | src/server/mod.rs:526-539 | dropping one uncounts it and forgets the address at zero |
| `Admission.StepKeeps` | src/server/mod.rs:115-206 | every step of the accept loop and of every task keeps counters, permits and guards exact |
| `Admission.EveryRunConserves` | src/server/mod.rs:115-206 | in every interleaving total = rejected + active + completed + between; entries equal live guards within the limit; permits within the limit; active exceeds active tasks' permits by exactly the panicked ones |
| `Admission.ActiveWithinPermits` | src/server/mod.rs:146-206 | in every run active connections are within held permits if and only if leaked tasks do not outnumber idle holders; always without a panic; at rest the counter is the number leaked |
| `Admission.PanicLeaks` | src/server/mod.rs:184-206 | a panicking task returns guard and permit but stays counted active, which puts the counter above the permits exactly if too few idle holders make up for it |
| `Admission.PanicRunLeaks` | src/server/mod.rs:115-206 | one connection that panics leaves one active and no permit held, under any limits that admit it |
| `Admission.RunStaysCalm` | src/server/mod.rs:184-206 | a run without a panic has no panicked task |
| `Admission.ZeroLimitLeavesEntry` | src/server/mod.rs:514-519 | under a per-address limit of zero a refused address keeps an entry of zero |
| `Admission.EntriesAreLive` | src/server/mod.rs:508-539 | no run leaves an entry of zero if and only if the per-address limit is not zero or nobody is admitted |
| `Ber.DecodeOidBytes` | src/tds/sspi.rs:251-281 | the byte loop decodes base-128 numbers, with its overflow and truncation errors |
| `Ber.Walk` | src/tds/sspi.rs:147-249 | on any input the walk ends, moves at least two bytes and never past the limit it was given |
| `Ber.DerInventory.WalkDer` | src/tds/sspi.rs:147-249 | the recursive walk with its shared inventory of identifiers, texts and counts computes the specification |
| `Ber.DerInventory.WalkUntilMarker` | src/tds/sspi.rs:182-198 | the loop over an indefinite element's children stops at end-of-contents octets |
| `Ber.DerInventory.WalkValue` | src/tds/sspi.rs:214-249 | the value of a definite element is noted as identifier or text, then its children fill it exactly |
| `Ber.RecoverDerInventory` | src/tds/sspi.rs:126-145 | a token is complete exactly if one element fills it; the inventory is kept either way, with the warning that applies |
| `Ber.DecodeDerOidTlv` | src/tds/sspi.rs:283-296 | succeeds exactly on one complete identifier element and returns it |
| `BerTrees.OidRoundTrip` | src/tds/sspi.rs:251-281 | every identifier within 64-bit arcs is recovered arc for arc |
| `BerTrees.WalkTree` | src/tds/sspi.rs:147-249 | for every tree of definite and indefinite elements the walk consumes exactly its encoding and collects distinct identifiers and distinct texts in preorder, if and only if the depth and node limits hold |
| `BerTrees.TokenRoundTrip` | src/tds/sspi.rs:126-249 | the same for a whole token |
| `BerTrees.DistinctMembers` | src/tds/sspi.rs:222-226 | what is collected is without repetition and exactly what is present |
| `BerTrees.WalkGrows` | src/tds/sspi.rs:147-249 | any walk, failed or not, only adds identifiers and texts, never repeats one, and counts at most one node past the limit |
| `DerText.Utf8Reads` | src/tds/sspi.rs:227-228 | lossy UTF-8 decoding gives back every text that was encoded |
| `DerText.Utf16Reads` | src/tds/sspi.rs:229-237 | so does UTF-16, surrogate pairs included |
| `DerText.TextFound` | src/tds/sspi.rs:227-238 | a text of either kind is found again if and only if it is worth keeping: not empty, at most 1024 octets, no control characters but white space |
| `TypedData.ReadTypeInfo` | src/tds/data.rs:258-428 | a type that is read moves forward and is well-formed |
| `TypedData.ReadTable` | src/tds/data.rs:430-532 | a table type has at most 1024 columns of allowed types and a row order that is a permutation |
| `TypedData.ReadOrdering` | src/tds/data.rs:492-517 | a stated column ordering is a permutation of the columns |
| `TypedData.ReadScalar` | src/tds/data.rs:534-586 | a value read moves forward in bounds and is charged exactly the bytes kept, within the budget |
| `TypedData.ReadRows` | src/tds/data.rs:617-656 | so are all rows of a table |
| `TypedData.ReadValue` | src/tds/data.rs:534-656 | so is any value |
| `TypedCursor.Cursor.ReadType` | src/tds/data.rs:258-428 | the recursive descent follows the grammar, ending by remaining bytes |
| `TypedCursor.Cursor.ReadColumnList` | src/tds/data.rs:435-458 | the column loop reads the stated number of columns in order |
| `TypedCursor.Cursor.ReadTokenList` | src/tds/data.rs:461-524 | the metadata token loop, with its duplicate and unknown-token errors |
| `TypedCursor.Cursor.ReadOrderUniqueEntries` | src/tds/data.rs:467-491 | the uniqueness entries are checked one by one |
| `TypedCursor.Cursor.ReadOrderingEntries` | src/tds/data.rs:492-517 | the ordering loop with its table of seen columns accepts exactly permutations |
| `TypedCursor.Cursor.ReadPlpBytes` | src/tds/data.rs:670-691 | the chunk loop accumulates until an empty chunk and checks a stated total |
| `TypedCursor.Cursor.ReadJson` | src/tds/data.rs:588-615 | a failed canonical attempt costs nothing before the prefixed form is tried |
| `TypedCursor.Cursor.ReadTableRow` | src/tds/data.rs:629-643 | the cells of a row in row order, default columns skipped |
| `TypedCursor.Cursor.ReadTableRows` | src/tds/data.rs:617-656 | the row loop, with its token and count errors |
| `TypedCursor.Cursor.ReadAnyValue` | src/tds/data.rs:534-656 | a successful read raises the consumed count by exactly the bytes kept, never past the maximum |
| `TypedLaws.PermutationCovers` | src/tds/data.rs:459-517 | a row order names every column |
| `TypedLaws.EachColumnOnce` | src/tds/data.rs:629-643 | each column has exactly one place in a row, and is read exactly if it is no default column |
| `TypedLaws.PlpRoundTrip` | src/tds/data.rs:670-691 | a PLP value is read back whole, whatever its chunks, exactly if it fits the budget left |
| `TypedLaws.ChunkingIsInvisible` | src/tds/data.rs:670-691 | two divisions of the same bytes give the same value, charge and error |
| `TypedRoundTrip.ScalarRoundTrip` | src/tds/data.rs:534-615 | a value of any kind is read back as sent and charged for its bytes alone, if and only if it fits the budget left; otherwise it is refused, but for JSON |
| `TypedRoundTrip.TableRoundTrip` | src/tds/data.rs:617-656 | a table is read back row for row, cell for cell, if and only if it is within the row limit and the budget left |
| `TypedRoundTrip.PrefixedJson` | src/tds/data.rs:588-615 | prefixed JSON is read back if and only if it fits the budget and the canonical attempt fails, which it does if the total it takes the prefix for is beyond the maximum or the input |
| `TypedRoundTrip.PrefixedNullMisread` | src/tds/data.rs:588-615 | a prefixed NULL is read as a NULL of eight octets, two being left over |
| `Prelogin.ReadTable` | src/tds/prelogin.rs:69-125 | the descriptor loop in both modes: tolerant keeps all faults, strict stops at the first |
| `Prelogin.CheckOverlaps` | src/tds/prelogin.rs:140-153 | the overlap pass in both modes |
| `Prelogin.CollectOptions` | src/tds/prelogin.rs:154-259 | the option pass in token order in both modes |
| `Prelogin.ParseInner` | src/tds/prelogin.rs:69-261 | tolerant never fails; strict agrees with it exactly if it has no warning, and otherwise fails with its first |
| `PreloginLaws.NoOverlapFault` | src/tds/prelogin.rs:142-153 | without an overlap fault intervals follow one another, in whatever order ties were put |
| `PreloginLaws.AcceptedDataIsDisjoint` | src/tds/prelogin.rs:69-153 | in an accepted message any two options' data are disjoint, past the table and inside the message |
| `PreloginRoundTrip.Encode` | src/tds/prelogin.rs:311-337 | the two loops with a running offset write the table and the data |
| `PreloginRoundTrip.TableReads` | src/tds/prelogin.rs:69-125 | unless the table has a fault, each option is entered where its descriptor says |
| `PreloginRoundTrip.EntriesRoundTrip` | src/tds/prelogin.rs:69-337 | any option list that fits 16-bit fields is read back with its order, options and only its own faults |
| `PreloginRoundTrip.SentRoundTrip` | src/tds/prelogin.rs:263-337 | every request or response written is parsed back field by field, if and only if its offsets fit and it does not combine a certificate with NotSupported |
| `PreloginRoundTrip.TooLongIsNoticed` | src/tds/prelogin.rs:326-330 | offsets that do not fit always cause a fault |
| `Login7.HeaderIsSane` | src/tds/login7.rs:184-244 | the header's checks leave bounds that every field read respects |
| `Login7.WalkFeatures` | src/tds/login7.rs:606-720 | the feature loop in both modes, with its break-offs and the count limit that is an error in both |
| `Login7Laws.CountsAgree` | src/tds/login7.rs:230-244 | the length checks: strict stops at the first warning of tolerant |
| `Login7Laws.WalkAgrees` | src/tds/login7.rs:567-720 | the feature walk likewise |
| `Login7Laws.TextsAgree` | src/tds/login7.rs:184-425 | the text fields likewise, in their order |
| `Login7Laws.ConservativeExtension` | src/tds/login7.rs:184-425 | strict parsing is tolerant parsing if that has no warning and fails with its first warning otherwise; tolerant parsing fails only on a truncated header or too many features, and then both do |
| `Login7Laws.WalkLossless` | src/tds/login7.rs:606-720 | from any point the features walked and what is left reproduce the bytes |
| `Login7Laws.FeaturesLossless` | src/tds/login7.rs:534-720 | re-encoding the features, followed by the terminator or the kept remainder, reproduces the walked bytes; a remainder reaches the message's end |
| `Tokens.AppendColumns` | src/tds/tokens.rs:311-331 | the column loop appends the metadata token or reports too many columns |
| `Tokens.AppendRow` | src/tds/tokens.rs:349-368 | the cell loop appends a row, or reports a width mismatch or a cell that is too long |
| `Tokens.AppendSet` | src/tds/tokens.rs:272-297 | metadata, rows and a DONE with the row count, MORE unless last |
| `Tokens.AppendMessages` | src/tds/tokens.rs:259-261 | one INFO token for each message |
| `Tokens.EncodeResponse` | src/tds/tokens.rs:250-309 | the loops together append the specified response, error or not |
| `TokenClient.CellAt` | src/tds/tokens.rs:354-365 | NULL and text are told apart: the marker is odd, a text's byte length even |
| `TokenClient.DoneAt` | src/tds/tokens.rs:497-506 | a DONE is read with its status and count, narrow counts saturated |
| `TokenClient.NoticeAt` | src/tds/tokens.rs:443-495 | a message token is read back with its whole text |
| `TokenClient.SetAt` | src/tds/tokens.rs:272-297 | a result set is read back with names, rows, count and MORE flag |
| `TokenClient.ResponseDecodes` | src/tds/tokens.rs:250-309 | a client recovers every encoded response, names up to 255 units, rows, counts, MORE on all but the last, if and only if it is an error or no set has 65535 columns; otherwise it recovers nothing |
| `TokenClient.WideSetLost` | src/tds/tokens.rs:311-317 | a set of 65535 columns is taken for one without metadata, and the client is lost at its first column |
| `TokenClient.ResponseConforms` | src/tds/tokens.rs:250-368 | of every encoded response: the client reads it and finds each cell within its column's declared maximum if and only if it is an error or each set has fewer than 65535 columns and no cell longer than 4000 units |
| `TokenClient.SetsEncode` | src/tds/tokens.rs:272-297 | result sets are encoded exactly if rectangular with column counts and cells that fit 16 bits |
| `RpcText.SplitStatements` | src/semantic/mod.rs:682-705 | the index loop splits at semicolons outside quotes, doubled quotes inside |
| `RpcText.ReadQuoted` | src/semantic/mod.rs:724-745 | the text of the first literal behind the first occurrence of a marker, or nothing |
| `RpcText.ReadLiteral` | src/semantic/mod.rs:729-744 | the index loop returns the literal's text, doubled quotes halved, or nothing if it does not end |
| `RpcLaws.LiteralBalanced` | src/tds/data.rs:83-153 | no literal, whatever its text, changes the quoting or cuts a statement |
| `RpcLaws.StatementScans` | src/semantic/mod.rs:123-134 | a statement leaves the quoting as its name does, and is cut only in its name or, if that leaves quotes open, at a semicolon of its arguments |
| `RpcLaws.RpcSplits` | src/semantic/mod.rs:101-138 | for every list of calls, splitting the joined text gives exactly one statement per executed batch, in order, if and only if every name is whole |
| `RpcLaws.UnquotedNamesSplit` | src/semantic/mod.rs:101-138 | for names without quotes: if and only if none has a semicolon |
| `RpcLaws.NameExamples` | src/semantic/mod.rs:129-136 | a name that is a semicolon breaks a request, one with a quoted semicolon does not, and a stray quote breaks all but the last call |
| `RpcLaws.UnquoteExact` | src/semantic/mod.rs:729-744 | a literal is read as a text if and only if that text stands there escaped and closed |
| `RpcLaws.LiteralRecovered` | src/semantic/mod.rs:724-745 | what is read behind a marker is the text of the literal that stands there, and nothing else |
| `RpcLaws.FindIsFirst` | src/semantic/mod.rs:725-726 | the marker is found at its first occurrence, in letters of either case |
| `RpcLaws.ArgumentRecovered` | src/semantic/mod.rs:123-134 | from call to handler: any argument that is a text is read behind a marker in front of it, whatever it contains, if no quote stands between the two |
| `RpcLaws.EarlierUnquoted` | src/semantic/mod.rs:123-134 | no quote stands in front of an argument if the name and the arguments before it hold none |
| `Session.ApplyLogged` | src/semantic/mod.rs:281-440 | one statement's log replays to the new state, each entry starting from the value in force; a failing statement changes nothing |
| `Session.ApplyKeepsOriginal` | src/semantic/mod.rs:329-356 | the original login stays at the bottom of the impersonation stack |
| `Session.RunLogged` | src/semantic/mod.rs:140-160 | over every run replaying the log gives the new database, login, depth and flags, and the original login stays |
| `Session.FailureChangesNothing` | src/semantic/mod.rs:153-158 | a failing request has done exactly what the statements before the failing one did |
| `Session.LogAndStack` | src/semantic/mod.rs:329-356 | two statements with the same log leave the same stack if and only if neither can be mistaken for the other: own-login impersonation, REVERT to an equal login, impersonating the login on top |
| `Session.OwnLoginUnseen` | src/semantic/mod.rs:329-344 | in every state impersonating the login in force logs what doing nothing logs, and leaves another stack |
| `Session.RevertOrImpersonate` | src/semantic/mod.rs:329-356 | going back and impersonating the login gone back to write the same entry and leave different stacks |
| `Session.StepLegible` | src/semantic/mod.rs:329-356 | reading a return to the login on top as a REVERT gives the stack after one statement if and only if the statement is legible |
| `Session.StackFollowed` | src/semantic/mod.rs:140-160 | it does so throughout a run if and only if every statement of the run is |
| `Session.RunAdds` | src/semantic/mod.rs:383-411 | over every run synthetic objects are only added, the log names them in order but for any called "absent", and it names them all if and only if none is |
| `Session.Outcome.Record` | src/semantic/mod.rs:773-781 | a change is logged exactly if the value changes |
| `Session.SessionState.constructor` | src/session.rs:30-67 | a new session's original login is the one it was opened with |
| `Session.SessionState.SetFlag` | src/semantic/mod.rs:562-604 | sp_configure sets and logs the named flag only if a value is given |
| `Session.SessionState.ApplyStatement` | src/semantic/mod.rs:281-440 | the branches in order update the fields and the outcome as specified |
| `Session.SessionState.HandleSql` | src/semantic/mod.rs:140-160 | the statement loop stops at the first failure; its log replays |

## Left out

- TDS 5 command fields beyond names and text, message and token labels, value summaries and the decoding of opaque security fields: they only add easy members; parameter values are kept as raw bytes.
- The reading of lossy UTF-8 and UTF-16 text, except in SSPI tokens: elsewhere text is bytes or 16-bit units, and names are compared as such.
- 32-bit targets: `usize` is taken to be at least 64 bits wide, so the overflow checks on offsets never trigger.
- RSA, OAEP, SHA-256, random numbers and the TLS handshake itself: foreign libraries.
- Tds5Parser.ParseAuthentication: the result carries one field the program does not have, the history of tokens read, which the theorems are about; `unparsed` and `warnings` hold codes instead of texts.
- Tds5Challenge.SecureChallenge: the nonce-bearing and the plain RSA challenge differ only in the values handed to it.
- TypedCursor.Cursor.ReadAnyValue: yields raw bytes and all table rows; the rendering of values, the inner type of sql_variant and the ten-row sample are not modelled, nor is the TDS 4.2 TYPE_INFO subset.
- Ber.DerInventory.WalkDer: an identifier is its list of arcs instead of dotted text.
- Prelogin.ParseInner: the program's sort does not fix the order of options with equal offsets, so whether an empty option at another's offset counts as an overlap is open there; the model's sort is stable, and `NoOverlapFault` holds for any order.
- Login7.WalkFeatures: what a feature's payload must look like is an arbitrary predicate, so the results hold for the program's own checks, which are not spelled out; fixed-offset numbers of the header are plain reads and omitted.
- PayloadStore.EveryRunIsSafe: the rejection of generated names by the path check cannot happen and is omitted; directory entries other than regular files are not modelled.
- Tokens.EncodeResponse: the TDS 4.2, 4.6 and 5.0 layouts, the login and feature acknowledgements and SSPI and FEDAUTHINFO tokens are not modelled.
- RpcText.ReadQuoted: upper-casing is that of ASCII, so text whose upper case has another length, where the program's offset would shift, is not modelled; a byte outside ASCII would come back as one character, which the byte model does not show.
- RpcLaws.RpcSplits: batches of `sp_executesql`, whose text is the client's own, are not covered.
- Session.SessionState.ApplyStatement: how statements are recognised, canned results, messages and payload candidates are left out; a statement is the list of the recognisers' answers.
- Admission.EveryRunConserves: sockets, telemetry events and the shutdown signal are left out.
- The NTLM parser, bulk load, batches, transactions, enclave and federated-authentication messages: length-prefixed readers whose properties repeat those proved here.
