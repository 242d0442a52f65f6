# A verified model of FROST signing for Mina

This project models four connected parts of a repository that produces threshold
signatures for Mina transactions, and proves what those parts are relied on for.
`dafny verify dfyconfig.toml` checks everything.

1. **Key generation and signing sessions** (`DkgSession`, `EchoCount`, `DkgNetwork`,
   `DkgCompletion`, `DkgOutcome`, `DkgComms`, `DkgPolling`, `DkgLoops`, `DkgOverrun`,
   `DkgStall`, `DkgMessages`; `CoordinatorSession`, `FirstHeard`, `CoordinatorComms`; `Participants`,
   `Batches`). The two session state machines are classes with the source's
   handlers. The network of a key generation is a transition system: honest nodes follow
   the client's send-and-poll loops, all other participants send anything at any time,
   and channels are authenticated. The main results hold in every run: any two honest
   clients that return from Round 1 hold one view of all packages. Which honest runs
   complete, and when each polling loop is left, is stated by exact conditions.
2. **Even-y FROST** (`Modular`, `Folds`, `Shamir`, `PrimeGroup`, `EvenY`, `Signing`,
   `HonestSigning`, `SigningUtilities`, `MinaSigning`). Scalars are integers modulo a
   prime, with inverses and Lagrange interpolation proved from scratch; the curve is any
   group of prime order with an x and a parity of y (`PrimeGroup.LawsCanBeMet` gives a
   group of order five that meets the laws). The main result: every threshold of signers,
   after the hooks, produces z and R with z * G = R + c * PK and R of even y, which a Mina
   verifier that sees only x accepts exactly if R is not the identity. R and all shares are
   stated over the package before the hooks, with the suite's binding factors and one sign.
3. **zkApp commitments** (`ZkappTx`, `BitPacking`, `Hashing`, `PackedInputs`, `Packing`,
   `PackedBody`, `PackingInjective`, `UriPacking`, `CallForest`, `Networks`, `Commit`,
   `CommitBinding`, `CommitmentHashes`, `SignatureInjection`, `ZkappSigning`). What is
   packed of an update is a table of rows, and what is hashed is stated down to the sponge. Call depths are never packed; equal commitments
   of depth-valid commands nevertheless have equal call depths. Injected signatures
   change neither the commitments nor the refusals.
4. **Unambiguous encodings** (`Bytes`, `Segments`, `PallasMessage`).

## Assumptions

- frost-core is not part of this model; share computation, binding factors, group
  commitment, interpolation, aggregation and verifiable secret sharing follow sections
  4.1, 4.2, 4.4, 4.5, 5.1, 5.2, 5.3 and appendix C.2 of RFC 9591. Its order of checks is
  assumed to be: number of commitments, own commitment, binding factors, hook, group
  commitment, challenge. Aggregation returns a signature only if it verifies.
- Hash functions are parameters (binding factors, challenge, nonces) or an ideal hash:
  values of the sponge equal nothing but themselves, and its inputs are told apart only
  up to one zero that makes their number even, since two elements are absorbed at a time.
- mina-hasher's random-oracle input is a parameter with a canonical byte codec; its legacy
  bit packing takes 254 bits to a field, least significant first. ark-ff reads 32 bytes as
  a field element without the top bit and refuses a number that is not a residue.
- The identity has affine y zero, and mina-signer's empty compressed key is x = 0 with even y.
- Decryption keeps the sender and the content, and no message carries its receiver's own
  public key. Identifiers of different keys are different.

## Where the code and its descriptions differ

- The echoes of a client are guarded by a test that they are not already complete. If the
  echoes of both others arrive in the same batch as their Round 1 packages, the test is
  already false and the client sends none (`DkgOverrun.EarlyEchoesSkipOwn`), which stops all
  other clients for ever. Three honest participants can reach that
  (`DkgStall.HonestRunCanStall`). Key generation by honest participants is completed by
  exactly those runs in which no session gets ahead of its client in such a way
  (`DkgOutcome.CompletesExactly`, `DkgOutcome.CompletesStepwise`), and a run that is still
  in time can always be completed (`DkgOutcome.CanCompleteExactly`).
- The polling loops ask for one state of the session and not for that state or a later
  one. A batch that takes the session on to its last state leaves the first two loops
  polling for ever, and makes every later message an error (`DkgPolling.OverrunNeverReturns`).
  With two participants both messages of the other one are enough
  (`DkgOverrun.TwoPartyOverrun`); with three, the echoes and Round 2 packages of the others
  when the client waits for echoes (`DkgOverrun.EchoLoopOverrun`). When exactly the loops
  are left well: `DkgPolling.TwoPartyLoopExactly`, `DkgLoops.FirstLoopExactly`,
  `DkgLoops.EchoLoopExactly`, `DkgLoops.Round2LoopExactly`.
- A duplicate echo is stored before it is refused. That changes nothing exactly if the
  stored echo was the same, which every session that started empty guarantees.
- `sign_from_packages` signs with at most three participants whatever the threshold is
  (`SigningUtilities.TooFewSigners`).
- Reading a `PallasMessage` that ends right after a custom network name panics
  (`PallasMessage.PanicsExactly`).
- The hash of a zkApp URI does not determine the URI (`UriPacking.EmptyAndZeroCollide`);
  `UriPacking.UrisCollideExactly` says when two hash alike.
- A missing expiry of a fee payer signs like the last slot (`CommitBinding.SameFeePayer`).

## Model

| member | source | states |
|---|---|---|
| DkgSession.Session.Receive | mina-frost-client/src/session.rs:317-340 | one received message moves the session as the specification says, and a refusal leaves it as it was if its stored echoes repeat the originals |
| DkgSession.Session.HandleRound1Package | mina-frost-client/src/session.rs:343-383 | a Round 1 package is stored under its sender; the session advances at n-1 packages, skipping the echo phase for n = 2 |
| DkgSession.Session.HandleRound1PackageBroadcast | mina-frost-client/src/session.rs:407-499 | an echo is refused for an unknown, own, redundant, missing or different package, stored otherwise, and completes the phase when all are in |
| DkgSession.Session.HandleRound2Package | mina-frost-client/src/session.rs:545-578 | a Round 2 package of a Round 1 sender is stored; the session is ready once all Round 1 senders are in |
| DkgSession.RejectedMeansUnchanged | mina-frost-client/src/session.rs:317-340 | every refused message leaves the state as it was, in every state whose echoes repeat the originals |
| DkgSession.RejectedUnchangedExactly | mina-frost-client/src/session.rs:435-452 | in any state at all, a refusal changes nothing if and only if it is no duplicate echo or the displaced echo was the same |
| DkgSession.RecvKeepsValid | mina-frost-client/src/session.rs:310-595 | every message from somebody else keeps the invariant that ties maps, phase and completeness together |
| DkgMessages.EchoTakenExactly | mina-frost-client/src/session.rs:407-499 | an echo is accepted exactly if a known sender repeats the held package of a third participant for the first time, and is then stored |
| DkgMessages.WhyEchoRefused | mina-frost-client/src/session.rs:407-499 | the exact reason for which each echo is refused; a missing package never is one in a valid state |
| DkgMessages.WhyPackageRefused | mina-frost-client/src/session.rs:317-383 | messages of another kind are parse errors; a Round 1 package is refused exactly from an unknown sender, a Round 2 package also from oneself |
| DkgMessages.LastRound1Counts | mina-frost-client/src/session.rs:343-383 | until everybody has been heard, what is held of each sender is its last Round 1 package, and nothing else |
| DkgMessages.LastRound2Counts | mina-frost-client/src/session.rs:545-578 | the same for Round 2 packages, up to the message that makes the session ready |
| DkgMessages.EchoesAreLast | mina-frost-client/src/dkg/comms/http.rs:268-292 | what a client echoes to another participant is the last package of every third one |
| EchoCount.AcceptedEchoAddsOnePair | mina-frost-client/src/session.rs:401-404 | an accepted echo adds exactly one (original, echoer) pair, and the session advances exactly on the last of the (n-1)(n-2) pairs |
| EchoCount.ExactEchoCount | mina-frost-client/src/session.rs:436-494 | over any messages, a session is still in the echo phase if and only if it has accepted fewer than (n-1)(n-2) echoes, and it never accepts more |
| DkgNetwork.RunKeepsNetOk | mina-frost-client/src/dkg/comms/http.rs:204-319 | every reachable network meets the invariant: authentic entries, echoes of frozen maps only, complete echoes past the phase |
| DkgNetwork.Agreement | mina-frost-client/src/session.rs:385-499 | in every run with n >= 3 and arbitrary senders, if honest i left the echo phase, every honest j has finished Round 1 and holds the same package as i for every third participant |
| DkgNetwork.Integrity | mina-frost-client/src/session.rs:343-358 | what an honest node holds under an honest name is the package that participant made |
| DkgNetwork.ReturnedViewsAgree | mina-frost-client/src/dkg/comms/http.rs:204-319 | any two honest clients that return from Round 1 return the same view of all n packages, for every n >= 2 |
| DkgNetwork.EchoesRepeatFrozenMap | mina-frost-client/src/dkg/comms/http.rs:268-291 | a node's map is frozen when it finishes Round 1, and every echo it ever sends repeats that map |
| DkgNetwork.LeavingNeedsEveryEcho | mina-frost-client/src/session.rs:457-494 | nobody leaves the echo phase before every other honest participant has echoed to it |
| DkgCompletion.TimelyRunKeepsOk | mina-frost-client/src/dkg/comms/http.rs:204-371 | in every timely run of honest nodes each session holds exactly what was delivered to it, and what was sent is exactly what each client's progress calls for |
| DkgCompletion.TimelyRunsEndWell | mina-frost-client/src/dkg/comms/http.rs:228-371 | a timely run of honest nodes with no phase-ordered step left has every node ready with exactly the other n-1 packages of each round |
| DkgCompletion.TimelyRunsAreBounded | mina-frost-client/src/dkg/comms/http.rs:228-371 | such runs have at most as many steps as there are messages and milestones |
| DkgCompletion.TimelyRunsComplete | mina-frost-client/src/dkg/comms/http.rs:228-371 | every timely run can be carried on until all nodes are done, whatever was delivered first |
| DkgOutcome.CompletesExactly | mina-frost-client/src/dkg/comms/http.rs:204-371 | a run of honest nodes in which every sent message is delivered at most once and no step is left has completed the key generation if and only if every delivery was timely |
| DkgOutcome.CompletesStepwise | mina-frost-client/src/dkg/comms/http.rs:204-371 | the same, step by step: each delivery finds a session that reads its kind and makes none ready whose client is not in the last loop, and with n > 2 each client leaving its first loop finds its session waiting for echoes |
| DkgOutcome.CanCompleteExactly | mina-frost-client/src/dkg/comms/http.rs:204-371 | at any moment of such a run, it can still be completed if and only if it has been timely so far |
| DkgOutcome.SilentStallsAll | mina-frost-client/src/dkg/comms/http.rs:266-292 | once an honest client has gone on without its echoes, no other honest node ever leaves the echo phase, whatever anybody sends |
| DkgOutcome.OrderedRunsComplete | mina-frost-client/src/dkg/comms/http.rs:228-371 | delivery no earlier than the receiver polls for that phase is enough to complete |
| DkgStall.HonestRunCanStall | mina-frost-client/src/dkg/comms/http.rs:245-268 | three honest participants, every message delivered at most once: a run after which one has skipped its echoes and the others stay in the echo phase in every continuation |
| DkgComms.HttpComms.SendEchoes | mina-frost-client/src/dkg/comms/http.rs:268-292 | each held package goes to everybody but oneself and its original sender, once, and nothing else is sent |
| DkgComms.HttpComms.Poll | mina-frost-client/src/dkg/comms/http.rs:253-257 | a batch is fed to the session in order, up to the first refusal |
| DkgComms.HttpComms.PollUntil | mina-frost-client/src/dkg/comms/http.rs:245-263 | a polling loop ends well if and only if at some batch boundary the session has what it waits for and nothing was refused before, and it ends at the first such boundary |
| DkgComms.HttpComms.SendRound1 | mina-frost-client/src/dkg/comms/http.rs:228-241 | one's own package goes to everybody else, once |
| DkgComms.HttpComms.GetRound1Packages | mina-frost-client/src/dkg/comms/http.rs:204-319 | a map is returned exactly if the loops are left well, and has passed the echo phase; whatever the outcome, one's own echoes, each once, are sent exactly if the first loop was left and that phase was not over then |
| DkgComms.HttpComms.SendRound2 | mina-frost-client/src/dkg/comms/http.rs:328-349 | everybody else gets its own Round 2 package, once; the request fails exactly if one is missing |
| DkgComms.HttpComms.GetRound2Packages | mina-frost-client/src/dkg/comms/http.rs:322-371 | the ready session's map is returned exactly if every package could be sent and the loop is left well; nothing is received if one could not be sent |
| DkgPolling.OverrunNeverReturns | mina-frost-client/src/dkg/comms/http.rs:245-313 | a session that is ready when one of the first two loops looks never lets that loop end, and any later message is an error |
| DkgPolling.TwoPartyLoopExactly | mina-frost-client/src/dkg/comms/http.rs:245-263 | two participants: the first loop is left well if and only if the first batch that is not empty is the other's Round 1 package alone |
| DkgLoops.EchoPhaseFlat | mina-frost-client/src/session.rs:407-595 | of accepted messages, the first ones, as many as echoes are outstanding, are echoes, and the rest are Round 2 packages kept under their senders |
| DkgLoops.EchoLoopExactly | mina-frost-client/src/dkg/comms/http.rs:296-313 | from any session in the echo phase, n >= 3: the loop is left well if and only if nothing is refused up to the first batch boundary past the phase and not everybody's Round 2 package is in by then |
| DkgLoops.FirstLoopExactly | mina-frost-client/src/dkg/comms/http.rs:245-263 | n >= 3: the first loop is left well if and only if nothing is refused up to the first batch boundary at which everybody has been heard, and some echo or some Round 2 package is missing then |
| DkgLoops.InTimeLeavesRound1 | mina-frost-client/src/dkg/comms/http.rs:258-268 | the first loop ends at that boundary, and the client's own echoes are skipped exactly if all (n-1)(n-2) echoes are in by then |
| DkgLoops.Round2LoopExactly | mina-frost-client/src/dkg/comms/http.rs:353-370 | the last loop is left well if and only if at some boundary everybody's Round 2 package is in and nothing was refused |
| DkgOverrun.EarlyEchoesSkipOwn | mina-frost-client/src/dkg/comms/http.rs:266-268 | three participants: echoes that share a batch with the Round 1 packages make the client's own echoes look unnecessary |
| DkgOverrun.TwoPartyOverrun | mina-frost-client/src/session.rs:368-376 | two participants: one batch with both messages of the other leads past the state the first loop waits for |
| DkgOverrun.TwoPartyNeverLeaves | mina-frost-client/src/dkg/comms/http.rs:245-263 | a first loop that starts with that batch is never left, whatever follows |
| DkgOverrun.EchoLoopOverrun | mina-frost-client/src/dkg/comms/http.rs:296-313 | three participants: one batch with the echoes and Round 2 packages of both others leads past the state the second loop waits for, and that loop is never left, whatever follows |
| CoordinatorSession.Session.Receive | mina-frost-client/src/session.rs:85-100 | in the first phase a message is accepted exactly if it parses, has an entry for every message to be signed and a known sender, and its list then replaces the sender's; in the second phase likewise for senders with commitments; a refusal changes nothing |
| CoordinatorSession.Session.HandleCommitments | mina-frost-client/src/session.rs:103-138 | commitments of the right number from a known signer are stored as they are, overwriting; the phase ends at the number of signers |
| CoordinatorSession.Session.HandleSignatureShare | mina-frost-client/src/session.rs:190-227 | shares of the right number from a signer with commitments are stored as they are; ready exactly when share keys equal commitment keys |
| CoordinatorSession.WhyRefused | mina-frost-client/src/session.rs:85-227 | the exact reason for which each message is refused, in every state |
| CoordinatorSession.RecvKeepsValid | mina-frost-client/src/session.rs:85-227 | stored vectors keep the length of the message list and share keys stay a proper subset of commitment keys until they are equal, exactly when shares are ready |
| CoordinatorSession.EveryRunIsValid | mina-frost-client/src/session.rs:61-227 | a new session meets that invariant after every list of messages, and keeps its arguments and public keys |
| CoordinatorSession.CommitmentsAreFrozen | mina-frost-client/src/session.rs:85-227 | from the second phase on no messages change the commitments, and the shares at the end are those of exactly the signers that committed |
| CoordinatorSession.SecondMessageOverwrites | mina-frost-client/src/session.rs:119-123 | the state machine alone keeps a signer's last commitments, not the first |
| CoordinatorSession.TransposeRoundTrip | mina-frost-client/src/session.rs:170-176 | one map per message loses and mixes nothing: it transposes back to what is stored |
| CoordinatorSession.CommitmentsByMessage | mina-frost-client/src/session.rs:154-181 | in a valid session no index is out of range, and entry id of message i is the i-th commitment of id |
| CoordinatorSession.SharesByMessage | mina-frost-client/src/session.rs:232-250 | likewise for shares |
| FirstHeard.HeardIsFirst | mina-frost-client/src/coordinator/comms/http.rs:129-160 | a sender is heard if and only if some message of it is acceptable, with the first such one |
| CoordinatorComms.HttpComms.GetSigningCommitments | mina-frost-client/src/coordinator/comms/http.rs:120-176 | the first loop stops at the first batch boundary with all commitments in; the answer has as many entries as there are signers, each the head of the list in the first acceptable message of its signer, and a read out of range exactly if there are no messages to sign |
| CoordinatorComms.HttpComms.GetSignatureShares | mina-frost-client/src/coordinator/comms/http.rs:216-279 | the second loop likewise; each committed signer's entry is the head of the list in its first acceptable share message |
| CoordinatorComms.FirstCommitmentsWin | mina-frost-client/src/coordinator/comms/http.rs:129-161 | over any stream with retries, garbage and undecryptable messages, what is held of a signer is the list in its first acceptable message before all were in, and only such signers are held |
| CoordinatorComms.FirstSharesWin | mina-frost-client/src/coordinator/comms/http.rs:225-257 | the same in the second phase, with the lists of shares |
| CoordinatorComms.TransitionWhenAllHeard | mina-frost-client/src/session.rs:125-133 | with one slot per public key, the phase ends exactly when every public key has sent something acceptable |
| CoordinatorComms.OrderDoesNotMatter | mina-frost-client/src/coordinator/comms/http.rs:120-168 | with one acceptable message per signer, any order of the same messages gives the same session |
| CoordinatorComms.ShareOrderDoesNotMatter | mina-frost-client/src/coordinator/comms/http.rs:216-263 | the same in the second phase |
| Modular.InvertCorrect | frost-bluepallas/src/lib.rs:65-67 | every non-zero residue modulo a prime has the computed inverse |
| Shamir.LambdasSumToOne | frost-bluepallas/src/signing_utilities.rs:94-96 | the Lagrange weights of any distinct identifiers add up to one |
| Shamir.Interpolation | frost-bluepallas/src/signing_utilities.rs:94-96 | any participants at least as many as the coefficients recover the polynomial's value at zero |
| PrimeGroup.GeneratorIsFree | frost-bluepallas/src/lib.rs:98-111 | multiples of the generator are equal if and only if the scalars are congruent |
| PrimeGroup.LawsCanBeMet | frost-bluepallas/src/lib.rs:98-111 | the laws assumed of the group, x and parity hold of a concrete group, whose order of five is above the three that signing needs |
| EvenY.NegatePackageTwice | frost-bluepallas/src/negate.rs:52-64 | negating a signing package twice gives it back |
| EvenY.NegateNoncesTwice | frost-bluepallas/src/negate.rs:17-29 | negating nonces twice gives them back |
| EvenY.NegatedNoncesOpen | frost-bluepallas/src/negate.rs:17-47 | negated nonces open exactly the negations of the commitments the nonces open |
| EvenY.NegatedGroupCommitment | frost-bluepallas/src/negate.rs:50-64 | negating the package negates the group commitment under unchanged binding factors, errors included |
| EvenY.HooksAgree | frost-bluepallas/src/lib.rs:202-257 | signers and coordinator fail alike or end with the same package, whose group commitment has even y and the old x; nonces open commitments after the hook exactly if they did before |
| EvenY.HookTwice | frost-bluepallas/src/lib.rs:205-222 | the hook leaves its own result alone |
| Signing.PreparedIsEven | frost-bluepallas/src/lib.rs:334-343 | whatever the coordinator prepares has a group commitment of even y and the challenge of its x |
| Signing.PreparedIsSigned | frost-bluepallas/src/lib.rs:170-222 | over the package before the hook and with the suite's binding factors: R is the signed sum of D_j + rho_j * E_j, and the hook gives every term the same sign |
| Signing.WhatSignersRefuse | frost-bluepallas/src/lib.rs:322-331 | a package that is too small, lacks the signer's commitment, or has one that the nonces do not open is refused with its own error |
| Signing.SignerFollowsTranscript | frost-bluepallas/src/lib.rs:228-257 | a signer computes its share from the coordinator's transcript with opening nonces, or fails with the coordinator's error |
| Signing.OnlyTheShareVerifies | frost-bluepallas/src/lib.rs:322-331 | a scalar satisfies z_i * G = e * (D_i + rho_i * E_i) + lambda_i * c * Y_i, with the suite's rho_i for the package before the hook and the common sign e, if and only if it is the share the signer returns |
| Signing.VerifiedSharesAddUp | frost-bluepallas/src/lib.rs:334-343 | if every share verifies, the sum satisfies z * G = R + c * PK |
| Signing.AggregateVerifiedShares | frost-bluepallas/src/lib.rs:334-343 | aggregation returns that signature, so when it fails some share does not verify |
| Signing.WhenAggregated | frost-bluepallas/src/lib.rs:334-343 | a signature is returned exactly if there is one share per commitment, the coordinator can prepare, and the sum z of the shares has z * G = R + c * PK; otherwise the error says which failed |
| Signing.AggregateIsEven | frost-bluepallas/src/lib.rs:202-222 | any signature that aggregation returns has even y and verifies, and the x-only Mina verifier accepts it if and only if R is not the identity |
| Signing.AcceptsExactly | mina-tx/src/pallas_message.rs:201-210 | the x-only verifier accepts exactly if some finite point with that x and even y completes the signature |
| HonestSigning.SharesInterpolate | frost-bluepallas/src/keys.rs:57-68 | dealt verifying shares interpolate in the exponent to the verifying key |
| HonestSigning.WhenPrepared | frost-bluepallas/src/lib.rs:205-222 | the coordinator succeeds exactly if neither key nor commitments are the identity and the message can be hashed with the x of the bound commitments' sum; otherwise it reports which |
| HonestSigning.WhenHonestRunsWork | frost-bluepallas/src/lib.rs:112-117 | the identity, which cannot be serialized, is met exactly if the secret or some nonce is zero |
| HonestSigning.EvenYCorrect | frost-bluepallas/src/lib.rs:202-257 | for every polynomial, every set of at least as many signers as coefficients, all nonces and messages: all fail with the coordinator's error, or all sign, R is the signed sum of D_j + rho_j * E_j with the suite's binding factors, each share meets its equation with that sign, and the aggregate is accepted as above |
| SigningUtilities.LoadKeyPackages | frost-bluepallas/src/signing_utilities.rs:34-39 | shares are checked in identifier order; the first bad one ends the run |
| SigningUtilities.DrawNonces | frost-bluepallas/src/signing_utilities.rs:29-63 | exactly the participants with identifiers 1 to 3 that are at most n draw, from their own shares, and commit with their nonces; a missing one panics |
| SigningUtilities.SignEach | frost-bluepallas/src/signing_utilities.rs:76-87 | each participant signs in identifier order; the first refusal ends the run |
| SigningUtilities.SignFromPackages | frost-bluepallas/src/signing_utilities.rs:17-100 | the loops refine one expression over maps, results, errors and panics alike, which the next rows describe |
| SigningUtilities.VssEvaluates | frost-bluepallas/src/signing_utilities.rs:36-39 | the share check evaluates the committed polynomial in the exponent |
| SigningUtilities.LoadsExactly | frost-bluepallas/src/signing_utilities.rs:34-39 | a share of a committed polynomial loads exactly if it is the polynomial's value at its identifier |
| SigningUtilities.WhenRunsEndEarly | frost-bluepallas/src/signing_utilities.rs:34-63 | the bad share of the lowest identifier ends a run, and with good shares a missing participant among the first three panics, exactly then |
| SigningUtilities.TooFewSigners | frost-bluepallas/src/signing_utilities.rs:29 | over dealt shares with more coefficients than shares, or with more than three, every run ends in the first signer's refusal |
| SigningUtilities.DealtRunSigns | frost-bluepallas/src/signing_utilities.rs:17-100 | with at most three coefficients, and no more than shares, a run over dealt shares ends in the coordinator's error, or in a signature of even y that verifies and whose R is the signed sum of the signers' bound commitments |
| MinaSigning.VerifiersAgree | mina-tx/src/pallas_message.rs:279-299 | on serialized messages, checking bytes and checking the message itself are the same |
| MinaSigning.SignedMessageVerifies | mina-tx/src/pallas_message.rs:279-299 | end to end: threshold signatures over the serialization of a message are accepted for the message by the x-only verifier, unless R is the identity |
| Segments.ToRoinput | frost-bluepallas/src/hasher.rs:23-34 | the loop writes the count, then each segment after its length |
| Segments.ReadsBack | frost-bluepallas/src/hasher.rs:23-34 | the segments are read back from their encoding whatever follows it |
| Segments.SelfDelimiting | frost-bluepallas/src/hasher.rs:23-34 | two encodings with anything appended are equal only for equal lists and equal appendices |
| Segments.PaddingIsHarmless | frost-bluepallas/src/hasher.rs:87-97 | with zeros appended, encodings are equal if and only if lists and numbers of zeros are |
| Segments.HashInputBytes | frost-bluepallas/src/lib.rs:170-192 | the bytes hashed by H1, H3, H4, H5, HDKG and HID: three segments, each after its length, of which the first is the suite's name and the second the function's tag |
| Segments.HashInputsNeverCoincide | frost-bluepallas/src/lib.rs:170-192 | inputs of H1, H3, H4, H5, HDKG and HID never coincide under different tags, nor for different messages of one |
| PallasMessage.Serialize | mina-tx/src/pallas_message.rs:57-84 | the buffer holds version, network, flag, 32-bit length and body; a long custom name is refused |
| PallasMessage.SerializedBytes | mina-tx/src/pallas_message.rs:57-84 | every byte of a serialized message: version 1, kind of network, name after its length, flag, length of the body lowest byte first, body |
| PallasMessage.PanicsExactly | mina-tx/src/pallas_message.rs:103-131 | reading panics if and only if the input ends right after a well-formed custom name |
| PallasMessage.SerializedReadsBack | mina-tx/src/pallas_message.rs:57-170 | serialization succeeds exactly for short names, and the result reads back to the message if and only if the body is below 2^32 bytes |
| PallasMessage.AcceptedReserializes | mina-tx/src/pallas_message.rs:87-170 | every accepted byte string is the serialization of the message read from it |
| PallasMessage.RefusedIsRaw | mina-tx/src/pallas_message.rs:48-54 | refused bytes are challenged as raw bytes, for the testnet and in the legacy mode |
| PallasMessage.SameChallengeExactly | mina-tx/src/pallas_message.rs:290-294 | two byte strings are challenged as one message if and only if they are equal or one is the explicit encoding of the other, unreadable one as raw bytes |
| PallasMessage.SerializedChallengesDiffer | mina-tx/src/pallas_message.rs:279-299 | serialized messages are challenged as themselves, and have equal bytes only if they are equal |
| Networks.MainnetPrefix | mina-tx/src/transactions/zkapp_tx/constants.rs:79-89 | mainnet bodies are hashed under the network's name, ZkappBody and four stars |
| Networks.TestnetPrefix | mina-tx/src/transactions/zkapp_tx/constants.rs:79-89 | testnet bodies likewise |
| Networks.ShortCustomPrefix | mina-tx/src/transactions/network_id.rs:59-69 | a custom name of up to 11 bytes, then ZkappBody, then stars up to 20 |
| Networks.LongPrefix | mina-tx/src/transactions/network_id.rs:59-69 | of a longer one the first 20 characters, never a part of one |
| Networks.AsciiPrefix | mina-tx/src/transactions/zkapp_tx/constants.rs:79-89 | ASCII network names give body prefixes of exactly 20 bytes, which hold the whole name up to 11 bytes |
| ZkappTx.EncodeInjective | mina-tx/src/transactions/zkapp_tx.rs:453-470 | the three bits determine the permission |
| ZkappTx.EncodeMeans | mina-tx/src/transactions/zkapp_tx.rs:453-470 | which permissions are constant, need a signature, and are met by one |
| ZkappTx.ToBytes | mina-tx/src/transactions/zkapp_tx.rs:499-506 | the symbol overwrites the front of the buffer and leaves the rest |
| ZkappTx.PaddedExactly | mina-tx/src/transactions/zkapp_tx.rs:498-507 | symbols have the same six bytes if and only if they differ only in zeros at the end |
| ZkappTx.FromFeePayer | mina-tx/src/transactions/zkapp_tx.rs:137-187 | field by field: key, fee with sign -1, nonce raised and required, slots up to the expiry or the last, full commitment, creation fee, signed and not proved with the dummy hash, depth 0, and nothing else set |
| ZkappTx.ChargesFeeExactly | mina-tx/src/transactions/zkapp_tx.rs:137-187 | there is exactly one update with these fields |
| BitPacking.ModulusBound | mina-tx/src/transactions/zkapp_tx/packing.rs:116-118 | the modulus is 2^254 + 45560315531419706090280762371685220353, so 254 bits fit below it and 255 do not |
| BitPacking.ItemDigitsAre | mina-tx/src/transactions/zkapp_tx/packing.rs:147-175 | an item's value has the digits of its data: of a word digit k is word / 2^(size-1-k) % 2, of bytes the last byte comes first |
| BitPacking.SingleItems | mina-tx/src/transactions/zkapp_tx/packing.rs:97-175 | a single word, flag or byte string packs to the number it writes |
| BitPacking.PackToFields | mina-tx/src/transactions/zkapp_tx/packing.rs:97-130 | the loop over modular arithmetic computes the plain values of a greedy cut; it fails exactly if an item is no residue, never for items below 255 bits |
| BitPacking.JoinedDigits | mina-tx/src/transactions/zkapp_tx/packing.rs:115-118 | shifting and adding writes the items' own binary digits one after the other, the first item in the highest places |
| BitPacking.PackedIsConcatenation | mina-tx/src/transactions/zkapp_tx/packing.rs:97-130 | with items below 255 bits each field, in binary, is the digits of a consecutive piece of the input, as long as 254 bits allow, and stays below 2^254 and the modulus |
| BitPacking.PackedInjective | mina-tx/src/transactions/zkapp_tx/packing.rs:97-130 | inputs of the same kinds and sizes give as many fields, and equal ones if and only if they are equal |
| Hashing.ParamToField | mina-tx/src/transactions/zkapp_tx/commit.rs:257-276 | the prefix over 20 stars and 12 zeros, read lowest byte first without the top bit; refused exactly if longer than 32 bytes or no residue |
| Hashing.ConstantPrefix | mina-tx/src/transactions/zkapp_tx/constants.rs:38-54 | none of the protocol's own prefixes is refused |
| Hashing.FullPrefixesDiffer | mina-tx/src/transactions/zkapp_tx/commit.rs:257-276 | different prefixes of 20 bytes stay different |
| PackedInputs.PackAll | mina-tx/src/transactions/zkapp_tx/packing.rs:280-298 | the loop over a vector or array concatenates what its items give |
| PackedInputs.ConcatInjective | mina-tx/src/transactions/zkapp_tx/packing.rs:38-42 | appended parts of the same layouts are equal if and only if each part is |
| PackedInputs.OptionLayout | mina-tx/src/transactions/zkapp_tx/packing.rs:245-259 | an optional value has the same layout present or missing |
| PackedInputs.OptionInjective | mina-tx/src/transactions/zkapp_tx/packing.rs:245-259 | the presence bit and the value are determined, even if the value looks like the placeholder |
| PackedInputs.FieldsInjective | mina-tx/src/transactions/zkapp_tx/packing.rs:97-130 | inputs of one layout become as many fields, equal ones if and only if they are equal |
| Packing.UriInput | mina-tx/src/transactions/zkapp_tx/packing.rs:529-542 | bit 8i + j is bit j of byte i, counted from the lowest, and a final one follows |
| Packing.EventsHashBinds | mina-tx/src/transactions/zkapp_tx/packing.rs:365-395 | events hash alike if and only if they are as many and each is the same up to a zero that makes its length even |
| PackedBody.PermissionsPacked | mina-tx/src/transactions/zkapp_tx/packing.rs:346-363 | permissions pack to the rows of their table, in order |
| PackedBody.UpdatePacked | mina-tx/src/transactions/zkapp_tx/packing.rs:331-344 | updates likewise, with what stands for missing values, for both builds |
| PackedBody.PreconditionsPacked | mina-tx/src/transactions/zkapp_tx/packing.rs:457-517 | preconditions likewise |
| PackedBody.BodyPacked | mina-tx/src/transactions/zkapp_tx/packing.rs:311-329 | the field elements and bits of a packed body are those of its table, row by row |
| PackingInjective.PermissionsLayout | mina-tx/src/transactions/zkapp_tx/packing.rs:346-363 | permissions have one layout and are determined |
| PackingInjective.UpdateLayout | mina-tx/src/transactions/zkapp_tx/packing.rs:331-344 | updates have one layout whatever is set, and agree exactly as stated, for both builds |
| PackingInjective.PreconditionsLayout | mina-tx/src/transactions/zkapp_tx/packing.rs:460-517 | preconditions have one layout and are determined |
| PackingInjective.BodyInjective | mina-tx/src/transactions/zkapp_tx/packing.rs:311-329 | every body has the same layout, and two give the same input if and only if they agree in everything but call depth, key data, and what is hashed, padded or reduced to a sign |
| PackingInjective.BodyFieldsInjective | mina-tx/src/transactions/zkapp_tx/commit.rs:155-162 | the same for the field elements that are hashed |
| UriPacking.UrisCollideExactly | mina-tx/src/transactions/zkapp_tx/packing.rs:529-542 | two URIs hash alike if and only if their bits fall into as many chunks and differ by zeros right before the last chunk |
| UriPacking.SameLengthUris | mina-tx/src/transactions/zkapp_tx/packing.rs:529-542 | URIs of one length hash alike only if they are equal |
| UriPacking.EmptyAndZeroCollide | mina-tx/src/transactions/zkapp_tx/packing.rs:529-542 | the empty URI and a single zero byte hash alike |
| CallForest.CallForestStep | mina-tx/src/transactions/zkapp_tx/commit.rs:69-92 | the loop and its recursion build the specified trees from the front of the deque and leave the specified rest; the depth never overflows 32 bits |
| CallForest.FromUpdates | mina-tx/src/transactions/zkapp_tx/commit.rs:95-99 | below 2^32 updates the forest is built without overflow |
| CallForest.BuildIsExact | mina-tx/src/transactions/zkapp_tx/commit.rs:68-105 | for every list, valid or not, the forest in preorder is the list and nothing is left over |
| CallForest.IsCallDepthValid | mina-tx/src/transactions/zkapp_tx/commit.rs:225-255 | true exactly for lists that start at depth 0 and go down one level at a time, without overflow |
| CallForest.ValidExactly | mina-tx/src/transactions/zkapp_tx/commit.rs:222-255 | call depths are valid if and only if each is the nesting level of its update in the forest |
| Commit.CallForestHash | mina-tx/src/transactions/zkapp_tx/commit.rs:117-133 | the reverse loop computes the recursive stack hash, with the error that comes first in that order |
| Commit.ComputeZkCommit | mina-tx/src/transactions/zkapp_tx/commit.rs:30-51 | the calls in sequence compute the two commitments or the first error; the full one absorbs memo, the hash of an update that charges the fee as above, the account updates, and a zero |
| CommitmentHashes.PrefixIs | mina-tx/src/transactions/zkapp_tx/constants.rs:38-54 | the residue of each of the protocol's prefixes is the number that its characters write, with the stars |
| CommitmentHashes.NodePrefixNumber | mina-tx/src/transactions/zkapp_tx/commit.rs:435-442 | the node prefix is 240723076190006710499563866323038773312427551053 |
| CommitmentHashes.PrefixesDiffer | mina-tx/src/transactions/zkapp_tx/constants.rs:38-54 | no two purposes share a prefix |
| CommitmentHashes.ForestAbsorbs | mina-tx/src/transactions/zkapp_tx/commit.rs:117-133 | the first tree's update and children under the node prefix, and that with the later trees under the other; no trees are zero |
| CommitmentHashes.UpdateAbsorbs | mina-tx/src/transactions/zkapp_tx/commit.rs:155-162 | an update is hashed under its network's prefix: the field elements of its table, then its packed bits |
| CommitmentHashes.CommandAbsorbs | mina-tx/src/transactions/zkapp_tx/commit.rs:30-51 | the full commitment of a command down to the hash of the memo's two numbers and of the update that charges the fee |
| CommitmentHashes.EventsAbsorb | mina-tx/src/transactions/zkapp_tx/packing.rs:365-395 | later events are hashed first, and together with each event's own hash; none at all have the prefix of the empty list |
| CommitmentHashes.MemoAbsorbs | mina-tx/src/transactions/zkapp_tx/commit.rs:135-148 | the memo is hashed as the number its bytes write, lowest first, cut after 254 bits |
| CommitmentHashes.UriAbsorbs | mina-tx/src/transactions/zkapp_tx/packing.rs:529-542 | a URI is hashed as the pieces of its bits, cut after every 254 |
| CommitmentHashes.PieceIsNumber | mina-tx/src/transactions/zkapp_tx/packing.rs:529-542 | a piece of at most 254 bits is the number with these binary digits, the first highest |
| CommitBinding.UpdateHashBinds | mina-tx/src/transactions/zkapp_tx/commit.rs:155-162 | hashes of two updates are equal if and only if their bodies agree in what is hashed and the network prefixes are the same |
| CommitBinding.ForestHashBinds | mina-tx/src/transactions/zkapp_tx/commit.rs:111-133 | forests hash alike if and only if they have one shape and agree node by node |
| CommitBinding.UpdatesCommitmentBinds | mina-tx/src/transactions/zkapp_tx/commit.rs:30-133 | depth-valid lists have equal commitments if and only if they agree update by update in what is hashed and in call depth |
| CommitBinding.MemoHashBinds | mina-tx/src/transactions/zkapp_tx/commit.rs:135-148 | memos hash alike only if they are equal |
| CommitBinding.FeePayerBodies | mina-tx/src/transactions/zkapp_tx.rs:137-187 | of two fee payers, the updates that charge them agree exactly if key, fee, nonce and expiry agree, a missing expiry being the last slot; the update is never refused |
| CommitBinding.FullCommitmentBinds | mina-tx/src/transactions/zkapp_tx/commit.rs:30-51 | full commitments are equal if and only if network prefix, memo, fee payer, and updates with call depths agree |
| CommitBinding.CommitsExactly | mina-tx/src/transactions/zkapp_tx/commit.rs:196-220 | there is a commitment if and only if depths are valid, no update is both proved and signed, every update without a proof has the dummy hash, and the network's prefix is in order |
| CommitBinding.WhyNotCommitted | mina-tx/src/transactions/zkapp_tx/commit.rs:30-51 | invalid depths are reported exactly when there are any; otherwise the kind or the prefix if that alone is wrong |
| CommitBinding.AsciiNetworksCommit | mina-tx/src/transactions/zkapp_tx/commit.rs:155-162 | with an ASCII network name there is a commitment exactly if call depths and authorization kinds are valid, and hashed prefixes are the same only if they are the same bytes |
| CommitBinding.CommitReadsBodies | mina-tx/src/transactions/zkapp_tx/commit.rs:30-51 | commitments and errors depend on bodies only, never on authorizations |
| SignatureInjection.ZkAppCommand.InjectSignature | mina-tx/src/transactions/zkapp_tx/signature_injection.rs:95-116 | the command, the fee-payer flag and the warnings after an injection, and the count as the number of signed full-commitment updates with the key |
| SignatureInjection.ZkAppCommand.InjectFeePayerSignature | mina-tx/src/transactions/zkapp_tx/signature_injection.rs:119-144 | the fee payer's authorization is replaced exactly if its key matches |
| SignatureInjection.ZkAppCommand.InjectAccountUpdateSignatures | mina-tx/src/transactions/zkapp_tx/signature_injection.rs:147-183 | exactly the signed, full-commitment updates with the key receive the signature; the count is their number |
| SignatureInjection.InjectionIsExact | mina-tx/src/transactions/zkapp_tx/signature_injection.rs:95-198 | the signature changes on precisely the updates that are signed, have the key and use the full commitment, and nothing else changes but the fee payer's authorization under that key |
| SignatureInjection.WarnedExactly | mina-tx/src/transactions/zkapp_tx/signature_injection.rs:156-180 | there is a warning for exactly the updates that are skipped for a partial commitment or whose non-empty signature is replaced |
| SignatureInjection.FeePayerWarned | mina-tx/src/transactions/zkapp_tx/signature_injection.rs:119-144 | the fee payer's warnings: another key, or a non-empty authorization that is replaced |
| SignatureInjection.WarningsAreExact | mina-tx/src/transactions/zkapp_tx/signature_injection.rs:156-180 | warnings about updates name their update and come in strict index order |
| SignatureInjection.LastSignatureStays | mina-tx/src/transactions/zkapp_tx/signature_injection.rs:95-183 | a second injection for a key leaves only its signature; repeating one changes nothing |
| SignatureInjection.DistinctKeysCommute | mina-tx/src/transactions/zkapp_tx/signature_injection.rs:95-198 | injections for different keys commute |
| SignatureInjection.InjectionsKeepCommitment | mina-tx/src/transactions/zkapp_tx/signature_injection.rs:95-198 | after any injections with any keys and signatures the commitments, or the error, are those of the original command |
| ZkappSigning.SignedMessage | mina-tx/src/transactions.rs:46-51 | what is signed is the full commitment alone, for the network asked for and not in the legacy mode; there is no message exactly if there is no commitment |
| ZkappSigning.SignedBytesBind | mina-tx/src/bluepallas_compat.rs:51-55 | two commands have the same signed bytes if and only if they are for one network and agree in memo, fee payer, and updates with call depths |
| ZkappSigning.InjectedCommandSignsTheSame | mina-tx/src/transactions/zkapp_tx.rs:63-68 | a command with injected signatures is signed as the same message |

## Left out

- HTTP requests, login, polling delays, session identifiers, terminal prompts and configuration files: input and output; batches of messages are parameters.
- Encryption with Noise: replaced by authenticated delivery.
- Curve arithmetic, Poseidon and ark-serialize: replaced by an abstract group and hashes that are parameters or ideal.
- Distributed key generation's polynomials inside frost-core: the Round 2 packages a participant computes are a parameter of the network.
- JSON and GraphQL forms, base58check, display of errors and the Python mapper: library-driven conversions.
- Legacy payments and delegations: only their legacy flag reaches the message format.
- Randomness of nonces, unforgeability and secrecy: probabilistic.
- CoordinatorComms.HttpComms.GetSigningCommitments: batches come as one list, so a loop that would poll for ever returns when they run out, because the model has no clock.
- DkgComms.HttpComms.PollUntil: likewise; the three polling loops differ only in the query they test, which is a parameter.
- DkgOutcome.CompletesExactly: runs in which everybody is honest; what dishonest participants can stop is not characterised, because silence of one is enough.
- SigningUtilities.SignFromPackages: the order of the group is assumed to exceed three, because Pallas has one of 255 bits; identifiers 1 to 3 are then scalars.
- Signing.AggregateVerifiedShares: which share is to blame is not computed, because that happens inside frost-core.
- CallForest.FromUpdates: lists of 2^32 and more updates are excluded, because the depth counters have 32 bits; the same bound holds of CallForest.IsCallDepthValid and Commit.ComputeZkCommit.
- Segments.SelfDelimiting: lists and segments of 2^64 and more entries are excluded, because lengths are machine words.
- CommitBinding.FullCommitmentBinds: of a custom network only the 20-character prefix is bound, because the code cuts longer names.
- SignatureInjection.ZkAppCommand.InjectSignature: warnings carry public keys where the source prints their addresses, because base58check is left out.
- ZkappTx.ToBytes: symbols of more than six bytes are excluded by their type, because the parser refuses them and the slice would panic.
- PallasMessage.SerializedReadsBack: UTF-8 validity and the codec of random-oracle inputs are parameters, because the libraries are not part of this model.
