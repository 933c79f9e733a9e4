# ProofGate: a verified model

ProofGate lets someone act on the strength of a private token balance without showing the account. A zero-knowledge
circuit proves that some hidden account, committed under a public Merkle root, holds at least a threshold of a token.
A verifier, a token-gated vote, a chat group or an on-chain gate then accepts a presentation of that proof. This project
models the trusted logic around the proof system and proves what it is for.

| module | models |
|---|---|
| `Bytes`, `Encoding`, `Types`, `Hex`, `Base64` | machine integers, canonical encodings with a left-inverse parser, the hashed structures, text forms |
| `Merkle`, `Circuit` | account commitments, Merkle membership, the proved statement |
| `Verifier` | challenges, presentations, the acceptance test, the replay set |
| `LockedFile`, `ReplayFile`, `GovernanceFile` | processes that share one file under a lock: the generic protocol, the replay cache, the voting state |
| `Governance`, `GovernanceRuns` | the voting state machine and what every run of it keeps |
| `OnChainGate` | the gate program: claims, nonce and counter, the validity window, initialization |
| `Wire`, `Transfers`, `Pending`, `Delivery`, `Receiving` | chunked transfer over chat: packing, unpacking, the bounded collection, delivery, the receiving loop |
| `Admission` | challenges bound to one chat group and member |
| `Purposes` | what all hashed and signed byte strings have in common: one tag, one purpose |

## How to read it

Foreign code enters as parameters. SHA-256 is any function from byte strings to 32 bytes; it is never assumed injective.
A theorem that needs collision resistance returns the two different inputs with one hash instead (`Collides`), because a
colliding pair always exists and only a named pair says something. Ed25519, receipt checking and the configuration rules
are fields of `Verifier.Platform`; JSON text is part of `Wire.Net`. Their laws are hypotheses written out where they are
used: signing then verifying works (`SignaturesWork`), a receipt checks only for a journal the circuit can return
(`ReceiptsSound`), printed JSON is read back (`JsonWorks`). Clock readings, nonces and transfer ids are inputs, so every
theorem holds for all of them. A Rust string is its UTF-8 bytes.

Code that updates state is a class or a method with loops; each is proved equal to a function of the old state, and the
theorems about runs, interleavings and histories are lemmas about those functions. A function that is easy to read and
only computes (such as `Verifier.Verify` or `OnChainGate.ValidityWindow`) has no contract of its own; the lemmas in the
table say what it means.

Processes that share a file are modelled event by event: take the lock, load, compute, create the temporary file, finish
it, rename, report, release, and stop at any point. A stopped process loses its lock and may leave a torn temporary file.

## Findings

- `digest_from_hex` slices its text every two bytes and panics where a slice ends inside a multi-byte character. It does so
  exactly when, after an optional 0x, the text has 64 bytes and its first pair that is not hexadecimal ends inside a
  character (`DigestFromHexExact`; `PanicTextPanics` is such a text). A manifest from a chat peer reaches it before any
  other use, so one such manifest ends the receiver (`ManifestPanicsExactly`, `PanicStopsReceiver`); `ScanPanicsExactly`,
  `ObservePanicsExactly`, `UnpackPanicsExactly` and `PollPanicsExactly` say exactly when a receiver panics.
- Issued = pending + consumed fails when a challenge is issued whose digest is still pending, since the new entry replaces
  the old one (`IssuedTwice`). It holds exactly when no issue of the run does that (`ConservedExactly`), and for every run
  the difference is the number of such issues (`ExactCount`). Issuing a challenge again after its use is no exception.
- The third proof-age test of the off-chain verifier adds to the second exactly when the clock is behind the challenge's
  issue time and that time is past the largest proof age (`LastAgeTestExact`); `ChallengeAgeTestNeeded` is such a request.
- Initialization does not carry the counter, and carries a missing expiry as zero. For a valid state the round trip
  holds exactly when the counter is 0 and the expiry is not `Some(0)`; `InitializationRoundTrip` is an equivalence.
- After an accepted claim a further one is possible exactly when the nonce did not rotate to all zeros and the counter is
  not at its largest (`GateEndsExactly`). Both ends are reached: `ZeroNonceHappens` leaves an invalid state under a hash
  that is constantly zero, `FullCounterHappens` a valid state whose counter cannot grow.
- The decoded-chunk size test in `assemble` can never fire, since the encoded length was tested before.

## Model

| member | source | states |
|---|---|---|
| Encoding.ParseRoundTrip | crates/attestation-types/src/lib.rs:229-234 | for every list of fixed, length-prefixed and optional-time fields, a parser that knows only the field kinds reads back the fields and stops exactly at the end, whatever follows |
| Encoding.ParseExact | crates/attestation-types/src/lib.rs:229-234 | whatever the parser reads is what the encoder would have written, so it accepts encodings only |
| Bytes.LittleEndianAt | crates/attestation-types/src/lib.rs:104-125 | byte i of a number counts its multiples of 256 to the power i |
| Encoding.PrefixFree | crates/attestation-types/src/lib.rs:57-76 | encodings of one shape are injective and none is a proper prefix of another, so concatenations split in one way only |
| Encoding.DomainSeparation | crates/attestation-types/src/challenge.rs:6 | byte strings that begin with the tags of two different purposes (eight of them across the crates) never coincide |
| Purposes.PreimagePurpose | crates/balance-gate-core/src/lib.rs:188-200 | each of the eight kinds of hashed or signed byte string begins with the tag of its own purpose |
| Purposes.PurposesSeparate | crates/attestation-types/src/lib.rs:13-15 | byte strings made for two purposes differ, and if their hashes agree they are a collision |
| Purposes.SignaturesDoNotCross | crates/balance-gate-core/src/lib.rs:369-381 | a message signed off chain for a presentation is no message of an on-chain claim, or the two preimages collide |
| Purposes.BytesDetermineContent | crates/attestation-verifier/src/lib.rs:305-311 | across all eight kinds, one byte string has one purpose and one content: every field it covers, receipts up to a named collision |
| Encoding.AppendWords | crates/attestation-types/src/lib.rs:63-65 | the loop over the eight owner words appends their little-endian bytes in order |
| Encoding.Buffer.WriteString | crates/attestation-types/src/lib.rs:229-234 | appends exactly one length-prefixed field to what the parser will read back |
| Encoding.Buffer.WriteMoment | crates/attestation-types/src/lib.rs:68-74 | appends exactly one optional-time field, a marker byte and the time if there is one |
| Types.WriteContext | crates/attestation-types/src/lib.rs:57-76 | the appending encoder produces the encoding of the context's field list, tag first |
| Types.WriteJournal | crates/attestation-types/src/lib.rs:104-125 | the appending encoder produces the encoding of the journal's field list, tag first |
| Types.WriteChallenge | crates/attestation-types/src/challenge.rs:44-55 | the appending encoder produces the encoding of the challenge's field list, tag first |
| Types.ContextPrefixFree | crates/attestation-types/src/lib.rs:57-76 | equal bytes, whatever follows each, come from one context and one continuation |
| Types.JournalPrefixFree | crates/attestation-types/src/lib.rs:104-125 | equal bytes, whatever follows each, come from one journal and one continuation |
| Types.ChallengePrefixFree | crates/attestation-types/src/challenge.rs:44-55 | equal bytes, whatever follows each, come from one challenge and one continuation |
| Types.ContextHashBinds | crates/attestation-types/src/lib.rs:79-81 | one context hash stands for one context, or the two contexts' encodings are a collision |
| Types.ChallengeDigestBinds | crates/attestation-types/src/challenge.rs:58-60 | one digest stands for one challenge, or the two challenges' encodings are a collision |
| Hex.DigestToHex | crates/attestation-types/src/lib.rs:185-192 | the printing loop yields two lower-case digits a byte, high nibble first |
| Hex.ReadDigestFromHex | crates/attestation-types/src/lib.rs:194-208 | the reading loop reads, refuses or panics as the first pair that is not a hexadecimal byte decides (a plus sign before a digit counts as one), after an optional 0x |
| Hex.DigestFromHexExact | crates/attestation-types/src/lib.rs:194-208 | for text whose characters are whole: read if and only if there are 64 bytes of hexadecimal pairs; panics if and only if there are 64 bytes and the first pair that is not hexadecimal ends inside a character |
| Hex.DigestValueExact | crates/attestation-types/src/lib.rs:194-208 | the value read: for text whose characters are whole, the digest whose printed text it is, up to upper case, an optional 0x and plus signs for zeros that open a pair |
| Hex.ParseDigestExact | crates/proofgate-governance/src/lib.rs:216-221 | the strict reader accepts exactly the printed digests, in either case, and reads what was printed |
| Hex.PanicTextPanics | crates/attestation-types/src/lib.rs:204 | a 64-byte text, an a, an accented e and 61 more letters, on which the reader panics |
| Hex.HexRoundTrip | crates/attestation-types/src/lib.rs:185-208 | every printed digest is read back by the strict and by the lenient reader |
| Hex.OwnerHexRoundTrip | crates/attestation-types/src/lib.rs:211-227 | every printed program owner is read back |
| Hex.SortedUnique | crates/attestation-cli/src/workflow.rs:854-862 | a set of texts has one strictly sorted listing, so the saved file is determined by the set |
| Hex.LessExact | crates/attestation-cli/src/workflow.rs:855-856 | the order of the saved list is byte order: the first difference decides, and a proper prefix comes first |
| Hex.ReadAllExact | crates/attestation-cli/src/workflow.rs:846-851 | a list of texts is read if and only if each of them is, and then to the set of their digests |
| Hex.ReadListing | crates/attestation-cli/src/workflow.rs:846-851 | reading a sorted listing of printed digests gives back exactly the set of digests |
| Base64.RoundTrip | crates/proofgate-messaging/src/lib.rs:356 | decoding undoes encoding for every byte string (RFC 4648, section 4) |
| Base64.Decode | crates/proofgate-messaging/src/lib.rs:645 | text that decodes has four symbols for every started group of three bytes, so its length bounds the bytes |
| Base64.DecodeExact | crates/proofgate-messaging/src/lib.rs:645 | text decodes to bytes if and only if it is their encoding: no other padding and no spare bits set |
| Merkle.FillPreimage | crates/lez-compat/src/lib.rs:34-48 | filling the 160-byte array in place leaves the prefix, id, owner words, balance, nonce and data hash one after another |
| Merkle.CommitmentBinds | crates/lez-compat/src/lib.rs:34-58 | one commitment stands for one account, data included, or one of two named pairs collides |
| Merkle.HoldingRoundTrip | crates/lez-compat/src/lib.rs:121-148 | bytes decode to a holding exactly when they are its encoding |
| Merkle.ComputeRoot | crates/lez-compat/src/lib.rs:79-97 | the loop over siblings computes the fold that takes the left or right side by successive index bits |
| Merkle.OnlyLowIndexBitsMatter | crates/lez-compat/src/lib.rs:79-97 | the root depends on the index only modulo 2 to the number of siblings |
| Merkle.PathVerifies | crates/lez-compat/src/lib.rs:100-102 | in a tree of any shape, the siblings read beside the path to a leaf verify against the tree's root |
| Merkle.LeafHasIndex | crates/lez-compat/src/lib.rs:79-102 | every leaf of every tree is reached by some index and depth, so by PathVerifies it has a proof |
| Merkle.DescendReachesLeaves | crates/lez-compat/src/lib.rs:79-102 | following index bits down to a leaf reaches one of the tree's leaves |
| Merkle.MembershipSound | crates/lez-compat/src/lib.rs:66-102 | a verifying proof of any length leads by its index bits to a leaf with that commitment, or the clash computed on the way down is a collision |
| Circuit.EvaluateExact | crates/attestation-circuit/src/lib.rs:37-78 | evaluation returns a journal exactly for a well-timed witness whose account data encodes a holding of the context's token, at least the positive threshold, committed under the root; the journal repeats the context's policy |
| Circuit.JournalOf | crates/attestation-types/src/lib.rs:128-146 | a returned journal repeats the context's hash, token, threshold and expiry and the witness's root, presenter and time |
| Circuit.WitnessExplained | crates/attestation-circuit/src/lib.rs:37-78 | every error names a condition that the witness fails, stated on the encoded holding |
| Verifier.WritePresentationMessage | crates/attestation-verifier/src/lib.rs:305-311 | the appended buffer is the presentation preimage for which PresentationBinds holds |
| Verifier.ReplayCache.Consume | crates/attestation-verifier/src/lib.rs:134-136 | reports whether the digest was new and leaves the old set plus the digest |
| Verifier.ReplayCache.VerifyAndConsume | crates/attestation-verifier/src/lib.rs:197-222 | the verdict is that of the acceptance test on the old set (whose value AcceptedValue pins); the set grows by the challenge digest on acceptance and by nothing on refusal |
| Verifier.CreateChallengeExact | crates/attestation-verifier/src/lib.rs:139-168 | a challenge is created if and only if the gate is valid, the verifier is the gate's, the root is not zero and the window is positive, at most five minutes and within u64; it then carries exactly the gate's context hash, the root, verifier and nonce given |
| Verifier.AcceptanceExact | crates/attestation-verifier/src/lib.rs:197-302 | acceptance is equivalent to an unordered conjunction in plain integers, for all u64 times: retained challenge, well-formed window, gate claims, freshness, signature, receipt for this journal, unused digest |
| Verifier.AcceptedValue | crates/attestation-verifier/src/lib.rs:216-221 | an accepted request reports the gate's context hash, the retained root, and the presenter and issue time of the presented journal |
| Verifier.RefusalExplained | crates/attestation-verifier/src/lib.rs:224-302 | every refusal names a check that the request fails, for each of the fourteen errors, in plain integers |
| Verifier.ReplayExactly | crates/attestation-verifier/src/lib.rs:212-214 | a replay is reported if and only if the request is right in everything else and its digest was used |
| Verifier.PresentExact | crates/attestation-verifier/src/lib.rs:170-195 | presenting succeeds if and only if key, root and context are the journal's, and gives exactly that journal, receipt, challenge and transport under the key's signature |
| Verifier.AcceptanceInterval | crates/attestation-verifier/src/lib.rs:239-250 | two acceptances of one challenge, whatever the envelopes and sets, are at most 330 seconds apart, inside an interval fixed at issue |
| Verifier.ChallengeAgeTestImplied | crates/attestation-verifier/src/lib.rs:278-290 | given the second age test, the third refuses only when the clock is before the challenge's issue time |
| Verifier.LastAgeTestExact | crates/attestation-verifier/src/lib.rs:278-290 | for all u64 clock and challenge times, some proof time passes the other two tests and fails the third if and only if the clock is before the challenge's issue time and that time is past the largest proof age |
| Verifier.ChallengeAgeTestNeeded | crates/attestation-verifier/src/lib.rs:278-290 | for every valid gate without expiry, a request on which `verify` returns InvalidProofTime because of the third test alone; a proof one millisecond younger passes all three |
| Verifier.PresentationBinds | crates/attestation-verifier/src/lib.rs:305-311 | one signed message stands for one challenge and one receipt, or one of two named pairs collides |
| Verifier.AcceptanceSound | crates/attestation-verifier/src/lib.rs:197-302 | every verdict reports the gate's context, the retained root, and presenter and time of the hidden account's proof; that account has the gate's token, at least the gate's threshold, and is committed under the retained root; its context is the gate's or a collision is named; in every tree with that root it is the leaf its index names or a collision is named |
| Verifier.HonestPresentationAccepted | crates/attestation-verifier/src/lib.rs:139-302 | an honest challenge, proof and presentation is accepted exactly while the clock is in the integer windows and the digest unused; the same request is then a replay |
| LockedFile.RenameKeepsInv | crates/attestation-cli/src/workflow.rs:943-954 | an atomic rename appends exactly one operation to the sequential run, on the file content it was computed from |
| LockedFile.RunKeepsInv | crates/attestation-cli/src/workflow.rs:682-730 | every event of every process keeps: the file is the sequential result of the saved operations, whoever holds the lock loaded the current file, and every save is reported at most once |
| LockedFile.Serializable | crates/proofgate-governance/src/main.rs:103-156 | for all interleavings and stops, the file is what the saved operations give one after another in save order, each started operation saved at most once, each report the output of its own place in that sequence |
| LockedFile.AloneDoesItsWork | crates/attestation-cli/src/workflow.rs:682-711 | a process that finds the lock free and is not interrupted replaces the file by its result, is saved and reported once and frees the lock; if it is refused, file and history stay and the lock is free |
| LockedFile.StopReleases | crates/attestation-cli/src/workflow.rs:713-730 | a process that stops anywhere is gone with its lock and leaves file, temporary files and history |
| LockedFile.RefusingFileStays | crates/attestation-cli/src/workflow.rs:835-851 | on a file that refuses every operation, no run saves or reports anything, and the file stays |
| LockedFile.RunExtends | crates/proofgate-governance/src/main.rs:103-156 | starts, saves and reports of a run only ever extend those of its prefixes |
| LockedFile.ReportsUseTokens | crates/attestation-cli/src/workflow.rs:682-730 | if each success adds one new token to the file, no two reports across all processes carry one token, and every reported token is on file |
| LockedFile.TokensGrow | crates/attestation-cli/src/workflow.rs:854-862 | tokens on file are never lost along a run |
| LockedFile.ReportsAreOutputs | crates/attestation-cli/src/workflow.rs:682-711 | what holds of every success holds of every report and the started operation it answers |
| ReplayFile.SaveThenLoad | crates/attestation-cli/src/workflow.rs:835-862 | loading a saved cache gives back the same set of digests, for every set |
| ReplayFile.LoadExact | crates/attestation-cli/src/workflow.rs:835-851 | a file loads if and only if it is missing or has version 1 and only readable entries, and then to the digests it lists |
| ReplayFile.AllowsExactly | crates/attestation-cli/src/workflow.rs:682-711 | one verification succeeds if and only if the file loads, the request passes every check and the file does not list its digest |
| ReplayFile.ApplyVerifyAdds | crates/attestation-cli/src/workflow.rs:682-711 | a successful verification adds exactly its challenge's digest, not listed before, leaves a file that loads, and reports the verdict and the number listed |
| ReplayFile.UnloadableFileStays | crates/attestation-cli/src/workflow.rs:840-851 | a file of another version or with an unreadable entry yields no ALLOW in any run and stays as it was |
| ReplayFile.AllowedAtMostOnce | crates/attestation-cli/src/workflow.rs:682-730 | over any number of processes, interleavings and stops no digest is allowed twice; every allowed digest is listed in the file and was not listed in the starting file; every ALLOW passed every check and carries its request's digest and verdict |
| ReplayFile.AllowedMeansHeld | crates/attestation-cli/src/workflow.rs:682-711 | behind each ALLOW of each run is a request some process started and a hidden account that meets that request's gate under its retained root |
| ReplayFile.PersistedOnlyGrows | crates/attestation-cli/src/workflow.rs:854-862 | the digests a file lists at any moment of a run are still listed at its end |
| Governance.ParseEach | crates/proofgate-governance/src/lib.rs:100-111 | the loop succeeds with all digests in order exactly when every text parses |
| Governance.CheckPending | crates/proofgate-governance/src/lib.rs:103-107 | the loop in key order returns the error of the first entry whose key is not its challenge's digest, or none |
| Governance.BindingExact | crates/proofgate-governance/src/lib.rs:194-213 | a gate carries a proposal if and only if it is valid, the id has 1 to 128 visible characters, and its application, gate and verifier identifiers are the proposal's; each refusal has its exact condition |
| Governance.NewStateExact | crates/proofgate-governance/src/lib.rs:75-85 | a state is created if and only if the gate carries the proposal, and begins empty under that proposal and context |
| Governance.GateFoundsOne | crates/proofgate-governance/src/lib.rs:194-213 | a gate that founds two proposals founds one |
| Governance.EntryErrorExact | crates/proofgate-governance/src/lib.rs:103-107 | a pending entry is refused if and only if its key is not the text of its challenge's digest |
| Governance.ValidateExact | crates/proofgate-governance/src/lib.rs:87-112 | a state is valid if and only if version, gate, proposal and context hash are right, used and voter texts are digests, and every pending key is its challenge's digest |
| Governance.ValidateExplained | crates/proofgate-governance/src/lib.rs:87-112 | every refusal names a part of the state, gate or proposal that is wrong |
| Governance.CastExplained | crates/proofgate-governance/src/lib.rs:138-191 | every refused vote names the check it fails, down to the verifier's reason over the digests on record |
| Governance.GovernanceState.Validate | crates/proofgate-governance/src/lib.rs:87-112 | the loops give the verdict that ValidateExact and ValidateExplained characterise, without changing the state |
| Governance.GovernanceState.IssueChallenge | crates/proofgate-governance/src/lib.rs:114-136 | success adds one pending challenge under its digest and changes nothing else; every failure leaves the whole state as it was |
| Governance.GovernanceState.CastVote | crates/proofgate-governance/src/lib.rs:138-191 | success moves one digest from pending to the sorted consumed list and records one vote; every failure leaves the whole state as it was |
| GovernanceRuns.CastEffect | crates/proofgate-governance/src/lib.rs:138-191 | an accepted vote uses a pending challenge equal to the presented one, live on the clock and unused, by a presenter who has not voted, and reports that presenter, the choice and one vote more |
| GovernanceRuns.VoteBacked | crates/proofgate-governance/src/lib.rs:138-191 | an accepted vote, whatever gate the call was given, is backed by a hidden account under the root its challenge was issued for; its context is the one the proposal was created for, or the two contexts' bytes collide |
| GovernanceRuns.EveryVoteBacked | crates/proofgate-governance/src/lib.rs:75-191 | so is every vote of every run, against the gate given when the state was created |
| GovernanceRuns.EveryCallWithinProposal | crates/proofgate-governance/src/lib.rs:75-191 | in every run, a call that succeeds was given a valid gate whose identifiers and context hash are the founding proposal's |
| GovernanceRuns.VoteCountsExactly | crates/proofgate-governance/src/lib.rs:138-191 | in every reached state a vote is accepted if and only if its challenge is pending, its presenter has not voted, its digest was not used and its presentation verifies against the retained challenge |
| GovernanceRuns.IssueSucceedsExactly | crates/proofgate-governance/src/lib.rs:114-136 | in every reached state issuing succeeds if and only if fewer than 4096 are pending, the root is not zero and the window is allowed and fits u64 |
| GovernanceRuns.CallStaysBalanced | crates/proofgate-governance/src/lib.rs:114-191 | every call, successful or not, keeps the invariant between state and history |
| GovernanceRuns.RunStaysBalanced | crates/proofgate-governance/src/lib.rs:75-191 | the invariant holds after every sequence of calls from a new state |
| GovernanceRuns.StillValid | crates/proofgate-governance/src/lib.rs:87-112 | a state with the invariant passes validation against its gate and proposal |
| GovernanceRuns.NamesSplit | crates/proofgate-governance/src/lib.rs:114-191 | the digests ever issued are exactly those pending and those used |
| GovernanceRuns.ExactCount | crates/proofgate-governance/src/lib.rs:75-191 | for every run, issued challenges are as many as those pending, those voted with and those overwritten together |
| GovernanceRuns.ConservedExactly | crates/proofgate-governance/src/lib.rs:114-136 | issued equals pending plus consumed if and only if no issue of the run found its own digest already pending |
| GovernanceRuns.IssuedTwice | crates/proofgate-governance/src/lib.rs:114-136 | a run on which conservation fails: one issue call made twice leaves two issued, one pending, none consumed |
| GovernanceRuns.Conservation | crates/proofgate-governance/src/lib.rs:114-191 | a corollary: with distinct issued digests, issued challenges are as many as pending and consumed ones together |
| GovernanceRuns.RunSafety | crates/proofgate-governance/src/lib.rs:75-191 | after every run: validation succeeds, at most 4096 pending, consumed strictly sorted and exactly the digests voted with, as many votes as consumed challenges, one issued and live challenge per vote, no presenter and no digest twice, no challenge lost, and issued = pending + consumed + overwritten |
| GovernanceFile.ApplyIsAdvance | crates/proofgate-governance/src/main.rs:103-156 | one saved process is one successful call of the state machine on the state it opened |
| GovernanceFile.CastJobSucceedsExactly | crates/proofgate-governance/src/main.rs:131-156 | on a reached state file a cast process saves if and only if its vote counts |
| GovernanceFile.ChallengeJobSucceedsExactly | crates/proofgate-governance/src/main.rs:103-129 | and a challenge process if and only if the cap, root and window allow it |
| GovernanceFile.FirstJobSucceedsExactly | crates/proofgate-governance/src/main.rs:103-156 | a missing file is opened by challenge processes only, if and only if their gate founds their proposal and root and window are allowed |
| GovernanceFile.ForeignJobRefused | crates/proofgate-governance/src/main.rs:103-156 | a process for another proposal, or with a gate that does not carry its proposal, is refused on every file |
| GovernanceFile.SequentialIsRun | crates/proofgate-governance/src/main.rs:103-156 | saved processes in sequence are a run from a new state, with one ballot for each cast and one issue for each challenge process |
| GovernanceFile.NoLostUpdates | crates/proofgate-governance/src/main.rs:103-267 | on any state file, missing or not, for all interleavings and stops: the file is the sequential result in save order and holds exactly one vote more for each saved cast |
| GovernanceFile.SharedStateStaysValid | crates/proofgate-governance/src/main.rs:103-267 | if the file started missing it also validates for its proposal, with as many consumed challenges as votes as saved casts, and at most 4096 pending |
| OnChainGate.WriteOnChainChallenge | crates/balance-gate-core/src/lib.rs:188-200 | the appending encoder produces the encoding of the challenge's field list, tag first |
| OnChainGate.WriteClaimMessage | crates/balance-gate-core/src/lib.rs:369-381 | the appended buffer is the claim preimage for which ClaimPreimageInjective holds |
| OnChainGate.OnChainPrefixFree | crates/balance-gate-core/src/lib.rs:188-200 | equal bytes, whatever follows each, come from one challenge and one continuation |
| OnChainGate.ClaimPreimageInjective | crates/balance-gate-core/src/lib.rs:369-381 | equal preimages come from one challenge and one journal |
| OnChainGate.ChallengeFields | crates/balance-gate-core/src/lib.rs:164-173 | a gate's challenge consists of the program, the badge account, and the state's context hash, nonce and counter |
| OnChainGate.ClaimMessageBinds | crates/balance-gate-core/src/lib.rs:369-381 | one signed message is for one program, badge account, context, nonce, counter and journal, or the two named preimages collide |
| OnChainGate.ClaimForOneAccount | crates/balance-gate-core/src/lib.rs:330-341 | where a signature verifies for one message only, its claim is accepted for one badge account, at one program, nonce and counter, or the two named preimages collide |
| OnChainGate.WindowExact | programs/balance-gate/guest/src/bin/balance_gate.rs:90-107 | for all u64 values a time is in the emitted window exactly when the proof is issued at most 30 s after it, not older than allowed and not expired; the window is refused as empty only when no time qualifies, and as overflowing exactly when issue time plus age reaches the largest u64 |
| OnChainGate.WindowContainsIssueTime | programs/balance-gate/guest/src/bin/balance_gate.rs:90-107 | for a proof issued no later than its expiry, the window is refused exactly on overflow and otherwise contains the issue time |
| OnChainGate.ProvedClaimFailsOnlyByOverflow | programs/balance-gate/guest/src/bin/balance_gate.rs:59-117 | an accepted claim over a journal the circuit can return is refused afterwards exactly when its time sum overflows |
| OnChainGate.StateRoundTrip | crates/balance-gate-core/src/lib.rs:383-389 | stored state is read back, for every state |
| OnChainGate.DecodeStateExact | crates/balance-gate-core/src/lib.rs:383-389 | account data decodes to a state if and only if it is its encoding: nothing missing, nothing left over |
| OnChainGate.DecodeBadgeExact | crates/balance-gate-core/src/lib.rs:391-397 | the same for badges |
| OnChainGate.BadgeRoundTrip | crates/balance-gate-core/src/lib.rs:391-397 | a stored badge is read back, for every badge |
| OnChainGate.InitializesExactly | crates/balance-gate-core/src/lib.rs:150-162 | an instruction initializes if and only if its threshold, root and nonce are not zero and its proof age is from one minute to one day |
| OnChainGate.InitializedStateRepeats | programs/balance-gate/guest/src/bin/balance_gate.rs:34-43 | the stored state repeats the instruction in every field, at counter 0, and a missing expiry is the zero of the instruction |
| OnChainGate.GateAccount.InitializeGate | programs/balance-gate/guest/src/bin/balance_gate.rs:22-56 | within those limits account data afterwards decodes to the initial state, otherwise the instruction is refused and the data unchanged |
| OnChainGate.GateAccount.ClaimAccess | programs/balance-gate/guest/src/bin/balance_gate.rs:59-117 | gate data afterwards decodes to the successor state and badge data to the badge that is output, or both are unchanged under the specific refusal |
| OnChainGate.InitializationRoundTrip | crates/lez-gate-sdk/src/lib.rs:128-142 | for a valid state, the client's instruction reproduces it exactly when the counter is 0 and the expiry is not Some(0); what it produces is valid in any case |
| OnChainGate.ClaimStepExact | programs/balance-gate/guest/src/bin/balance_gate.rs:59-117 | a claim is accepted if and only if the state is valid and its counter can grow, the proof is checked, the journal repeats the policy, its presenter signed the current challenge, the time sum fits and some time is usable |
| OnChainGate.ClaimExplained | crates/balance-gate-core/src/lib.rs:302-366 | every refused claim names a check it fails, from the state's limits to the window |
| OnChainGate.ClaimStepEffect | crates/balance-gate-core/src/lib.rs:302-366 | an accepted claim keeps the policy, adds one to the counter, numbers the badge with it, rotates the nonce by the claim's signature, matches the journal to the state in every policy field, and leaves a valid state exactly when the nonce is not all zeros |
| OnChainGate.ClaimRunSafety | crates/balance-gate-core/src/lib.rs:302-381 | over every run of accepted claims the policy is constant, badge numbers are consecutive and end at the counter, the counter never wraps, each claim answered its own counter, every state before the last is valid and the last one exactly when its nonce is not all zeros |
| OnChainGate.GoesOnExactly | crates/balance-gate-core/src/lib.rs:302-366 | from a state some claim is accepted, with suitable keys, signatures and proofs, if and only if the state is valid and its counter can grow |
| OnChainGate.GateEndsExactly | crates/balance-gate-core/src/lib.rs:302-366 | after an accepted claim another is possible if and only if the nonce did not rotate to zeros and the new counter is below the largest u64 |
| OnChainGate.ZeroNonceEndsGate | crates/balance-gate-core/src/lib.rs:150-162 | an accepted claim rotates the nonce to zero if and only if every later claim is refused with InvalidGateState |
| OnChainGate.ZeroNonceHappens | crates/balance-gate-core/src/lib.rs:302-366 | under a hash that is constantly zero, an accepted claim on a valid state that leaves an invalid one |
| OnChainGate.FullCounterHappens | crates/balance-gate-core/src/lib.rs:342-345 | under a constant hash that is not zero, an accepted claim that leaves a valid state from which no claim is accepted |
| OnChainGate.ClaimMessagesDiffer | crates/balance-gate-core/src/lib.rs:302-381 | any two accepted claims of a run signed different messages, or their preimages are a collision, even if nonces repeat |
| OnChainGate.RunRotates | crates/balance-gate-core/src/lib.rs:302-366 | the nonce after a run is the hash chain of the run's signatures from the first nonce |
| OnChainGate.ChainBinds | crates/balance-gate-core/src/lib.rs:302-366 | two chains of one length that end alike are over the same signatures, or the fork found from the end is a collision |
| OnChainGate.NonceFixesHistory | crates/balance-gate-core/src/lib.rs:302-366 | two accepted runs of one length from one state that reach one nonce used the same signatures in the same order, or the fork is a collision |
| OnChainGate.ClaimSound | programs/balance-gate/guest/src/bin/balance_gate.rs:59-117 | an accepted claim is backed by a hidden account that meets the gate's token, threshold and root, and its window is exactly the usable times around the proof's issue |
| Wire.ManifestPanicsExactly | crates/proofgate-messaging/src/lib.rs:378-403 | checking a manifest panics if and only if its numbers are within bounds and, of its three digest texts, the first that is not read makes the reader panic |
| Wire.PanickingManifest | crates/proofgate-messaging/src/lib.rs:396 | a manifest on which it does |
| Wire.BodyErrorExact | crates/proofgate-messaging/src/lib.rs:378-425 | a message body is accepted if and only if counts and lengths are within the literal bounds, the index is below the count and the digest texts are readable |
| Wire.TransferIdsArePrinted | crates/proofgate-messaging/src/lib.rs:713-722 | a transfer id is valid if and only if it is the printed text of sixteen bytes |
| Wire.ReadExact | crates/proofgate-messaging/src/lib.rs:440-453 | a text is skipped if and only if it is no message, or one of another protocol, version or transfer; otherwise its body decides |
| Wire.ChunkCount | crates/proofgate-messaging/src/lib.rs:339-345 | the bytes are cut into their length divided by the chunk size, rounded up, pieces, all full but the last |
| Wire.PackExact | crates/proofgate-messaging/src/lib.rs:319-376 | packing succeeds if and only if transport, chunk size, id, length and rounded-up chunk count are within bounds, and makes one message for each chunk and one more |
| Wire.PackExplained | crates/proofgate-messaging/src/lib.rs:319-346 | every refusal to pack names what is wrong, with the actual length or count |
| Wire.OpenBytesExact | crates/proofgate-messaging/src/lib.rs:655-675 | joined bytes open to an envelope if and only if they have the manifest's length and hash and spell it, for chat, with the manifest's context hash and challenge digest |
| Wire.OpenBytesRefused | crates/proofgate-messaging/src/lib.rs:655-675 | and otherwise the integrity, parse, transport or panic outcome, each under its condition |
| Wire.ManifestBinds | crates/proofgate-messaging/src/lib.rs:655-675 | two openings under one manifest give one envelope from one byte string, or the two byte strings collide |
| Wire.PackEnvelope | crates/proofgate-messaging/src/lib.rs:319-376 | the appending loop returns the refusal of the first failing check, or all chunk messages in order and the manifest last |
| Wire.JoinChunks | crates/proofgate-messaging/src/lib.rs:339-363 | the pieces cut from the bytes join to the bytes, for every positive size |
| Wire.ScanTexts | crates/proofgate-messaging/src/lib.rs:427-512 | the loop over texts keeps the map and manifest order of the sequential scan, and stops at its first error |
| Wire.AssembleTransfer | crates/proofgate-messaging/src/lib.rs:605-676 | the joining loop gives the envelope or the error of the first failing check in index order |
| Wire.UnpackEnvelope | crates/proofgate-messaging/src/lib.rs:427-512 | scanning, choosing the transfer and assembling it give the specified value or error |
| Transfers.ScanExact | crates/proofgate-messaging/src/lib.rs:427-512 | a scan succeeds exactly when no text is a malformed message and no two items conflict; its book then holds exactly the items received |
| Transfers.OrderIrrelevant | crates/proofgate-messaging/src/lib.rs:427-512 | for a requested id two histories with the same set of texts unpack to the same value or error, or both fail while being scanned |
| Transfers.OrderLists | crates/proofgate-messaging/src/lib.rs:438-476 | the manifest order holds exactly the ids some manifest was seen for, each once |
| Transfers.OrderByFirstManifest | crates/proofgate-messaging/src/lib.rs:438-476 | and lists them by first manifest: every manifest of a later id comes after some manifest of an earlier one |
| Transfers.UnrequestedIsLast | crates/proofgate-messaging/src/lib.rs:427-512 | without a requested id the result, value or error, is that of requesting the id whose first manifest came last, or no transfer if there is none |
| Transfers.PanicStopsReceiver | crates/proofgate-messaging/src/lib.rs:427-450 | one manifest on which the check panics, after any history that scans, stops every receiver that does not filter its transfer out, whatever follows |
| Transfers.ScanPanicsExactly | crates/proofgate-messaging/src/lib.rs:427-490 | a scan panics if and only if it reaches, without an earlier error, a text on which the check panics |
| Transfers.UnpackPanicsExactly | crates/proofgate-messaging/src/lib.rs:427-512 | unpacking a requested transfer panics if and only if its scan does, or its transfer is complete with the manifest's length and hash and the envelope parser panics on the joined bytes |
| Transfers.DecodedSizeBounded | crates/proofgate-messaging/src/lib.rs:22-27 | data within the encoded limit never decodes beyond the chunk limit, so the later test cannot fire |
| Transfers.AssembleSound | crates/proofgate-messaging/src/lib.rs:605-676 | success implies chunk keys exactly below the count, all counts equal to the manifest's, and joined bytes of the manifest's length and hash that spell the envelope |
| Transfers.AssembleComplete | crates/proofgate-messaging/src/lib.rs:605-676 | every complete transfer whose bytes open is assembled to its envelope |
| Transfers.UnpackExact | crates/proofgate-messaging/src/lib.rs:378-512 | for a requested id, unpacking yields an envelope if and only if the messages are well-formed, free of conflicts and complete, and their joined bytes have the manifest's length and hash and spell the envelope the manifest names |
| Transfers.CompleteUnpacks | crates/proofgate-messaging/src/lib.rs:605-676 | unpacking a complete transfer is opening its joined bytes |
| Transfers.AlteredTransferRefused | crates/proofgate-messaging/src/lib.rs:655-658 | a complete transfer whose joined length or hash differs from the manifest's is refused as an integrity failure |
| Transfers.InvalidIdExactly | crates/proofgate-messaging/src/lib.rs:435-437 | the requested id is refused if and only if it is not valid |
| Transfers.ScanExplained | crates/proofgate-messaging/src/lib.rs:427-490 | every failed scan names a bad text, or two items of that transfer with different manifests or different data for one chunk |
| Transfers.AssembleExplained | crates/proofgate-messaging/src/lib.rs:605-676 | every transfer that is not assembled has the fault that is named, or its joined bytes do not open |
| Pending.PendingWireMessages.Observe | crates/proofgate-messaging/src/lib.rs:521-555 | contents become what observing old contents and window gives, or stop before the offending text with its error; they stay duplicate-free and at most 516 |
| Pending.PendingWireMessages.UnpackPending | crates/proofgate-messaging/src/lib.rs:557-562 | the same value or error as unpacking everything ever observed |
| Pending.ObservePanicsExactly | crates/proofgate-messaging/src/lib.rs:521-555 | observing panics if and only if it reaches, without an earlier error, a text on which the check panics |
| Pending.KeptInvariant | crates/proofgate-messaging/src/lib.rs:514-555 | what is kept is duplicate-free, within the cap, and exactly the well-formed protocol texts observed |
| Pending.ObserveSucceedsExactly | crates/proofgate-messaging/src/lib.rs:521-555 | observing meets no error if and only if no text is malformed and at most 516 different texts are messages of transfers |
| Pending.KeptScansAlike | crates/proofgate-messaging/src/lib.rs:438-512 | scanning what is kept equals scanning the whole history, book or error |
| Pending.PendingRefinesHistory | crates/proofgate-messaging/src/lib.rs:514-563 | after any windows observed without error, the bounded collection unpacks exactly like their concatenation |
| Delivery.TransferDelivers | crates/proofgate-messaging/src/lib.rs:319-512 | a pack's messages in any order and number, among noise, unpack to no transfer, to an exact count of what is missing, or, once all are there, to the original envelope |
| Delivery.DeliveryThroughWindows | crates/proofgate-messaging/src/lib.rs:319-563 | through any sequence of windows observing never fails, and the bounded collection yields the original envelope exactly when every message has been seen |
| Receiving.ReceiveEnvelope | crates/proofgate-messaging/src/lib.rs:565-603 | the polling loop over the bounded collection returns what observing and unpacking everything polled so far gives, at the first poll that is neither no transfer nor an incomplete one |
| Receiving.WaitingExplained | crates/proofgate-messaging/src/lib.rs:589-593 | while the receiver waits, everything polled was observed without error and is no transfer or an incomplete one |
| Receiving.EndExplained | crates/proofgate-messaging/src/lib.rs:565-603 | what ends it, at the first poll after which it does not wait, is the error of observing or the result of unpacking everything polled |
| Receiving.ReceiveDelivers | crates/proofgate-messaging/src/lib.rs:319-603 | the receiver of a packed envelope waits through any polls, order, repetition and noise until every message was polled, and then returns the original envelope |
| Receiving.PollPanicsExactly | crates/proofgate-messaging/src/lib.rs:565-603 | one more poll makes a waiting receiver panic if and only if observing it reaches a text on which the check panics, or everything polled is a complete transfer on whose envelope the parser panics |
| Admission.WriteAdmissionPreimage | crates/proofgate-messaging/src/lib.rs:734-758 | the appending encoder produces the encoding of the binding's field list, tag first |
| Admission.BoundChallengeMatches | crates/proofgate-messaging/src/lib.rs:282-308 | a bound challenge matches its group and member, binding is idempotent and changes only the last 16 nonce bytes, and matching is being a fixed point of binding |
| Admission.AdmissionPreimageInjective | crates/proofgate-messaging/src/lib.rs:741-758 | equal preimages agree on group, member, nonce prefix, version, context, verifier and times |
| Admission.OneMembership | crates/proofgate-messaging/src/lib.rs:298-308 | a challenge that matches two memberships exhibits two different preimages whose hashes agree on 16 bytes |

## Left out

- Risc0 proving and receipt internals, private-transaction composition, sequencer RPC: foreign code. A receipt is the hypothesis `ReceiptsSound`, and the journal-equality check is kept.
- SHA-256, Ed25519 and serde internals: parameters with stated laws. Base64, hexadecimal text and the Borsh layout of the gate state are written out.
- Token and gate configuration rules: one predicate, `gateValid`; a gate file is its context and uninterpreted remaining bytes.
- Timeouts, sleeping, the sender filter and the chat client process (a run of the receiving loop is its sequence of polls), and the separate challenge message kind (`encode_challenge`, `latest_challenge`).
- Command lines, key files, file permissions, the desktop application and scripts. The challenge file written after the state is saved and the status command do not touch the shared state.
- Randomness: nonces and transfer ids are arbitrary inputs, and nothing is claimed about their being fresh.
- Error texts: errors are modelled by kind, so two base64 errors with different messages are one.
- Hex.ReadDigestFromHex: that accepted text equals printed text is not claimed, and is false (a plus sign, upper case and a 0x prefix are accepted).
- The JSON readers of other digests (challenges, state files) go through the same text reader and may panic too. For envelopes the parser parameter has that outcome; for the rest the JSON reading itself is not part of this model.
- OnChainGate.GateAccount.InitializeGate: the account constraints `init` and `signer` (balance_gate.rs:25) are enforced by the program framework before the instruction body runs, and the framework is not part of this model; run on an initialized account the body alone would reset nonce and counter.
- OnChainGate.GateAccount.ClaimAccess: likewise the constraints on the gate account's owner and on the new badge account and its signer (balance_gate.rs:62-63).
- Encoding.Buffer.WriteString: strings of 2^32 bytes or more, on which the original panics, are excluded by the type `Text`.
- Merkle.ComputeRoot: the leaf index is an unbounded natural number rather than a machine word; only its low bits matter by OnlyLowIndexBitsMatter.
- LockedFile.Serializable: a stop is a process stop. Loss of power is not modelled; the replay cache is renamed without a file sync.
- Transfers.OrderIrrelevant: stated for a requested id; without one the choice depends on order by design, as UnrequestedIsLast says. When both scans fail, which error comes first may depend on order.
- GovernanceRuns.Conservation: one direction only, as a corollary; ConservedExactly has the exact condition.
- The digest of the answered challenge in the claim result: computed from values the model has, and read by nothing else here.
- Admission bindings do not cover the expected commitment root, as in the original code.
