# SatUSD verification

A Dafny model of the core of SatUSD, a Bitcoin-backed stable asset, with proofs of what its
parts promise.  Three groups of modules build on each other.

**Threshold oracle and DLC algebra** (`Modular`, `Bytes`, `Secp`, `Schnorr`, `ScalarBytes`,
`Extraction`, `Event`, `Lagrange`, `Frost*`, `Oracle*`, `Cet`, `Adaptor`, `Equivocation`).
Prices are attested digit by digit with BIP-340 signatures under predetermined nonces, by one
oracle or by a FROST quorum; contracts compute points from the announcement and secrets from
the attestation.  `OracleWire` and `OracleMessages` carry the contract to the bytes that consumers
parse.  Points are multiples of a generator in a group of prime order, which side of
a point has odd Y and every hash are left to an environment, and every operation keeps the
failures that the curve library reports.

**Accounting state node** (`Smt`, `SparseTree`, `StateTypes`, `Aggregate`, `Transitions`,
`Claim*`, `Reserve`, `Dispute`, `Node*`, `Ledger*`).  Seven sparse Merkle trees, three maps and
a custody backend are kept in step with one state root, through mints, locks, refunds, batched
claims, payments and reclaims.  `Node` has the node as a class whose methods update its fields
in the source's order; `NodeModel` has the same steps as functions, and the invariants and the
statements about whole runs are about those: what every call keeps (`NodeInvariant`, `NodeRuns`,
`NodeCustody`), exactly when a call is accepted (`NodeAccepts`, `NodeSubmits`, and `ClaimVerdict` for any
witness of a claim), what it writes (`NodeEffects`, `NodeStates`), accounts over whole
runs (`Ledger`, `LedgerRuns`), and concrete runs from genesis (`NodeWitness`).  Poseidon is never assumed to be collision-free:
where a statement rests on it, the statement holds or the trees themselves exhibit the colliding
pair.

**Wire formats and loops** (`Codec`, `Tlv`, `Announcements`, `WireForms`, `LiveDa`, `ProofFile`,
`TaProof`, `MerkleBranch`, `Median`, `Sorting`, `Totals`).  Strict codecs with both directions, surgery on
proof files and the strict reader of what it prints, Merkle branches, and the stake-weighted
median.

## Conventions

Loops and state changes of the source are methods and classes here, proved equal to a
specification function; the properties are lemmas about that function.  Where the source panics
the model returns `Panicked` or `None`; unchecked machine arithmetic wraps, as in a release
build.  The group order `N` is any number with the three arithmetic facts the code relies on
(the order of secp256k1 is the witness); statements that need it to be prime say so.

## Where the code and its documentation differ

- `extract_secret` is documented to return an even-Y normalized key; on signatures that were not
  verified it can return the odd-Y one (`Extraction.UnverifiedMayYieldOddKey`).
- The signing threshold is only as good as the dealers' commitments: round 1 does not check how
  many coefficients a dealer committed to.  Whatever their number, a quorum signs exactly when the
  divided difference of the group polynomial over zero and the members is zero
  (`FrostSigning.ThresholdIsSharp`): always with enough members, and with one too few when the top
  coefficient is zero (`Lagrange.DividedOverNodes`).
- An honest dealer's share can be refused: sending it fails on vanishing tails of the coefficients,
  checking it on vanishing prefixes (`FrostKeygen.HonestDealerAccepted`, `FrostKeygen.PrefixButNoTail`).
- A cohort's announcement carries the bytes of the event alone, which `parse_announcement` refuses
  (`OracleMessages.CohortEventRefused`).
- A quorum of one passes the quorum check when the threshold is one, and is then refused by the
  Lagrange coefficient (`FrostCohort.LoneSignerRefused`).
- `use_multisig_reserve` asks in a comment to be called before any pending claims; nothing checks
  it, and otherwise the "should never happen" error becomes reachable (`NodeRuns.SwapKeepsIff`,
  `NodeRuns.SwapBreaksReclaim`), on a run from genesis (`NodeWitness.SwapWitness`).
- A comment says that a refused payment leaves the state untouched.  It does exactly when the custody
  ignores every approval handed over (`NodeInvariant.RefusalKeepsIff`); otherwise the new approvals
  stay, and nothing else changes (`NodeInvariant.FinalizeKeeps`, `NodeWitness.ApprovalWitness`).
- The payout check subtracts the floored fee from the gross amount unchecked.  The subtraction wraps,
  so that no payout is enough, exactly when gross times rate is at least 10000 times (gross + 1)
  (`Claim.FeeWrapsIff`); a rate above 10000 basis points is necessary for it and not sufficient
  (`Claim.FeeAboveTheWhole`).  The model returns `PayoutTooLow` there (`Claim.PayoutIff`).
- The challenge window of the optimistic reserve is added in 32 bits (`Dispute.WindowHonouredIff`)
  and does not bind the inherited `finalize_claim` (`Dispute.FinalizeIgnoresWindow`).
- `LiveDABundle` documents sections in ascending order with distinct ids; `decode` accepts any
  order and repeats, and a body of 4 GiB or more encodes to bytes that `decode` refuses
  (`LiveDa.DecodeOfEncode`).
- `reencodeProof` is documented to reproduce the original bytes; it does so exactly when every
  record type survives the conversion to a floating-point number (`TaProof.ReencodeIff`),
  and 2^53 + 1 does not (`TaProof.ReencodeLoses`).
- The writers cast the digit count to sixteen bits (`Tlv.AttestationRoundTrip`,
  `Announcements.AnnouncementRoundTrip`).
- A mint is tested for its ratio and then again for a healthy tier; the second test never decides
  (`NodeAccepts.MintFinalizeIff`).
- The node's overview speaks of six sparse Merkle trees; there are seven.

## Model

| member | source | states |
|---|---|---|
| Secp.SameX | crates/satusd-oracle/src/frost.rs:18-25 | points share an X coordinate exactly when they are equal or opposite, which is what lets an X-only nonce and key be checked up to sign |
| Secp.VerifiesIff | crates/satusd-oracle/src/schnorr.rs:44-50 | BIP-340 verification is one equation in the exponent over the even-Y points, in both directions, with the challenge hash of nonce point, key and message in this order |
| Schnorr.SignedVerifies | crates/satusd-oracle/src/schnorr.rs:55-82 | every signature that signing with a predetermined nonce returns verifies under BIP-340 and carries the announced nonce point |
| Schnorr.SignFails | crates/satusd-oracle/src/schnorr.rs:55-82 | signing fails exactly on an invalid key or nonce, a zero challenge or a zero final scalar |
| Schnorr.AnticipationIffVerify | crates/satusd-oracle/src/schnorr.rs:91-105 | a scalar has the anticipated point exactly when it completes a valid signature with a nonzero challenge |
| ScalarBytes.ScalarModN | crates/satusd-oracle/src/schnorr.rs:23-41 | the byte-borrow loop turns every 32-byte string into its value modulo the group order |
| ScalarBytes.InvertModN | crates/satusd-oracle/src/schnorr.rs:107-132 | square-and-multiply by n-2 returns the inverse of every nonzero scalar (through Fermat, proved in module Modular) |
| Modular.Fermat | crates/satusd-oracle/src/schnorr.rs:107-109 | a to the power p-1 is 1 modulo a prime for every unit: why the exponent n-2 inverts |
| Modular.NoZeroDivisors | crates/satusd-oracle/src/schnorr.rs:110-132 | a product is zero modulo a prime only if a factor is: when products of scalars cannot fail |
| Extraction.ExtractSecret | crates/satusd-oracle/src/schnorr.rs:139-175 | the method computes the specified extraction on any two signatures and messages |
| Extraction.ExtractExact | crates/satusd-oracle/src/schnorr.rs:145-175 | extraction finds the even-Y (or odd-Y) discrete logarithm exactly when the difference of scalars is that multiple of the difference of challenges, and nothing on unusable input |
| Extraction.EquivocationReveals | crates/satusd-oracle/src/schnorr.rs:139-175 | two valid signatures with one nonce on two messages reveal the even-Y secret key exactly when scalars and challenges are nonzero and the challenges differ |
| Extraction.NonceReuseReveals | crates/satusd-oracle/src/schnorr.rs:55-175 | from signing to extraction: two messages signed with one nonce give the even-Y key exactly when their challenges differ |
| Extraction.UnverifiedMayYieldOddKey | crates/satusd-oracle/src/schnorr.rs:139-144 | on unverified signatures the odd-Y key can come back, unlike the comment that calls the result even-Y normalized |
| Event.FillDigits | crates/satusd-oracle/src/event.rs:21-28 | the in-place loop fills the binary digits of the clamped price, most significant first |
| Event.PriceRoundTrip | crates/satusd-oracle/src/event.rs:19-35 | recomposing the digits gives the price, clamped at the largest outcome |
| Oracle.Announce | crates/satusd-oracle/src/oracle.rs:52-70 | the loop pushes one nonce point per digit and signs the announcement, or fails with the step that fails |
| Oracle.Attest | crates/satusd-oracle/src/oracle.rs:79-86 | the loop signs every digit of the price with the nonce of that digit |
| Oracle.OracleAnswers | crates/satusd-oracle/src/oracle.rs:46-95 | the announcement is signed by the oracle, and every signature of an attestation is valid on its digit and uses the nonce point announced for it |
| Oracle.FromSeedIff | crates/satusd-oracle/src/oracle.rs:38-48 | an oracle is made exactly when its seed hashes to a valid key, and keeps that key, the seed and the key's X coordinate |
| Oracle.AnnouncementNonces | crates/satusd-oracle/src/oracle.rs:51-70 | which nonces are announced: digit i with the point of the nonce derived for digit i, the announcement signed with a nonce of its own, whose point is a digit's only when the two hashes give one nonce up to sign |
| Oracle.OracleIff | crates/satusd-oracle/src/oracle.rs:51-86 | an announcement is made exactly when every digit's nonce and its own are valid and it can be signed, an attestation exactly when every digit can be signed |
| Oracle.CohortAnswers | crates/satusd-oracle/src/frost.rs:615-636 | a quorum of a keyed cohort meets the same contract towards its own announcement as a single oracle |
| OracleMessages.AnnounceOnWire | crates/satusd-oracle/src/oracle.rs:51-76 | the announcement together with its bytes: descriptor, event and signed announcement, one inside the other |
| OracleMessages.AttestOnWire | crates/satusd-oracle/src/oracle.rs:78-95 | the attestation together with its bytes: raw signatures and outcome characters, in digit order |
| OracleMessages.PublishedAnswers | crates/satusd-oracle/src/oracle.rs:46-95 | end to end over bytes: the two messages of one event parse, agree on key and event, the announcement is signed, and every signature read is valid on the digit read beside it and begins with the nonce point read from the announcement |
| OracleMessages.AggregateEventOnWire | crates/satusd-oracle/src/frost.rs:520-539 | the quorum's announcement together with its bytes, which are the event alone |
| OracleMessages.AggregateOnWire | crates/satusd-oracle/src/frost.rs:541-578 | the quorum's attestation together with its bytes |
| OracleMessages.CohortPublishes | crates/satusd-oracle/src/frost.rs:612-636 | end to end over bytes for a keyed quorum: the attestation parses, and every signature read is valid under the group key on the digit read beside it and begins with the announced aggregate nonce |
| OracleMessages.CohortEventRefused | crates/satusd-oracle/src/frost.rs:536-538 | the bytes of a cohort's announcement are refused by the announcement parser, with the event's type |
| OracleWire.SerializeAttestation | crates/satusd-oracle/src/oracle.rs:87-88 | the loops over signatures and digits and the encoder write the specified message |
| OracleWire.AttestationReads | crates/satusd-oracle/src/tlv.rs:99-215 | a consumer reads from the bytes the event, the key, every signature and every digit that were attested |
| OracleWire.OracleEquivocates | crates/satusd-oracle/src/equivocation.rs:46-98 | an oracle that attests two prices for one event: nothing can be proved when the digits agree; otherwise the verdict over the two byte strings names the first digit that differs and holds the oracle's secret key, unless the two challenges of that digit are equal |
| Cet.BucketsPartition | crates/satusd-rail1/src/cet.rs:31-46 | the buckets tile [0, 2^20) in index order, the one that holds a clamped price is the one that `bucket_of` names, and each is paid at the middle of its range |
| Cet.BucketAdaptorPoint | crates/satusd-rail1/src/cet.rs:51-75 | the accumulator loop computes the sum of the anticipation points of the bucket prefix, and fails exactly where a step fails |
| Cet.BucketSecret | crates/satusd-rail1/src/cet.rs:84-110 | the accumulator loop returns the sum of the revealed scalars, and refuses a bucket whose digits the attestation does not have |
| Cet.BucketContract | crates/satusd-rail1/src/cet.rs:48-119 | for every price and width: the secret of the price bucket is the discrete logarithm of the point computed from the announcement, the point exists exactly when the secret does and no challenge is zero, and every other bucket is refused |
| Cet.OracleContract | crates/satusd-rail1/src/cet.rs:48-119 | the same from the oracle's seed, for every announcement and attestation that it manages to make |
| Cet.CohortContract | crates/satusd-rail1/src/cet.rs:48-119 | the same from a cohort's key generation, for every quorum that manages to attest |
| Adaptor.Presign | crates/satusd-rail1/src/adaptor.rs:52-90 | the nonce search loop returns the first usable candidate, or fails with the first candidate that fails for good |
| Adaptor.AcceptedDecrypts | crates/satusd-rail1/src/adaptor.rs:92-133 | a scalar completes an accepted pre-signature, honest or not, to a valid BIP-340 signature exactly when it is the discrete logarithm of T; decryption fails only on a zero sum |
| Adaptor.SignatureRevealsSecret | crates/satusd-rail1/src/adaptor.rs:135-143 | any valid signature with the nonce of an accepted pre-signature gives T's secret away |
| Adaptor.DecryptThenRecover | crates/satusd-rail1/src/adaptor.rs:122-143 | decrypting with the right secret gives a valid signature, and recovery from it gives the secret back |
| Adaptor.PresignAccepted | crates/satusd-rail1/src/adaptor.rs:49-90 | every pre-signature that signing returns is accepted under the signer's key and used the first usable nonce candidate |
| Adaptor.PresignNonce | crates/satusd-rail1/src/adaptor.rs:41-90 | the search tries the 256 hashes of the context in order: a pre-signature carries the first usable one, its counter and its combined point, and there is none when all 256 are passed over |
| Equivocation.VerifyEquivocation | crates/satusd-oracle/src/equivocation.rs:51-98 | the scan with its early returns computes the specified verdict on any two byte strings |
| Equivocation.ScanFinds | crates/satusd-oracle/src/equivocation.rs:69-98 | the verdict is decided by the first digit on which the two attestations do not agree |
| Equivocation.ProofIff | crates/satusd-oracle/src/equivocation.rs:46-98 | a proof is issued exactly for two parsed attestations of one event and key whose first conflict is validly signed both ways with one nonce and can be divided; it names that digit and holds the key's secret |
| Codec.Encoder.PutBigSize | crates/satusd-rail/src/encode.rs:61-77 | appends the shortest BigSize of the value and changes nothing else |
| Codec.Decoder.BigSize | crates/satusd-rail/src/encode.rs:150-168 | reads a BigSize and refuses one that is not the shortest; says what is left of the input also on failure |
| Codec.Decoder.VarBytes | crates/satusd-rail/src/encode.rs:170-174 | reads a length and that many bytes, or says why not |
| Codec.BigSizeRoundTrip | crates/satusd-rail/src/encode.rs:60-77 | reading a written BigSize gives the value back and leaves what follows |
| Codec.BigSizeCanonical | crates/satusd-rail/src/encode.rs:150-168 | every accepted BigSize is the one encoding of its value |
| Codec.VarBytesRoundTrip | crates/satusd-rail/src/encode.rs:85-88 | reading written length-prefixed bytes gives them back and leaves what follows |
| Codec.VarBytesCanonical | crates/satusd-rail/src/encode.rs:170-174 | accepted length-prefixed bytes are the one encoding of their content |
| Tlv.WriteAttestation | crates/satusd-oracle/src/tlv.rs:196-215 | the encoder calls write the specified attestation message |
| Tlv.Parse | crates/satusd-oracle/src/tlv.rs:99-134 | the cursor loops compute the specified parse, with its errors in the same order |
| Tlv.AttestationRoundTrip | crates/satusd-oracle/src/tlv.rs:99-215 | parsing undoes writing exactly when the digit count fits its sixteen-bit field |
| Tlv.AttestationCanonical | crates/satusd-oracle/src/tlv.rs:99-134 | every accepted byte string is the encoding of what was parsed from it |
| Announcements.WriteDescriptor | crates/satusd-oracle/src/tlv.rs:26-40 | the encoder calls write the content of the specified digit descriptor |
| Announcements.WriteEvent | crates/satusd-oracle/src/tlv.rs:43-58 | the loop over the nonce points and the encoder calls write the content of the specified event |
| Announcements.WriteAnnouncement | crates/satusd-oracle/src/tlv.rs:61-71 | signature, key and event message inside the announcement |
| Announcements.ReadAnnouncement | crates/satusd-oracle/src/tlv.rs:150-194 | the three nested cursors compute the specified parse, with its errors in the same order |
| Announcements.AnnouncementRoundTrip | crates/satusd-oracle/src/tlv.rs:25-194 | parsing undoes publishing exactly when the count of nonce points fits its sixteen-bit field |
| Announcements.AnnouncementCanonical | crates/satusd-oracle/src/tlv.rs:147-194 | every accepted byte string is the announcement that was parsed from it, with some descriptor |
| WireForms.BigSizeBoundaries | crates/satusd-rail/src/encode.rs:60-77 | the first and last numbers of the one-, three-, five- and nine-byte forms, byte by byte |
| WireForms.AttestationLayout | crates/satusd-oracle/src/tlv.rs:196-215 | which bytes of an attestation are what: type fd d868, length, name, key, count, and every signature at its offset |
| WireForms.EventLayout | crates/satusd-oracle/src/tlv.rs:43-58 | which bytes of an event are what: count, every nonce point at its offset, maturity, descriptor under type fd d80a, name |
| WireForms.AnnouncementLayout | crates/satusd-oracle/src/tlv.rs:61-71 | type fd d824, length, signature, key, and the event under type fd d822 |
| WireForms.DescriptorLayout | crates/satusd-oracle/src/oracle.rs:58 | the seventeen bytes of the descriptor in every announcement: base 2, unsigned, USD/BTC, precision 0, twenty digits |
| WireForms.AnnouncedForm | crates/satusd-oracle/src/oracle.rs:51-76 | what an oracle's announcement says: key, event name, the time in 32 bits as maturity, and for every digit the point of the nonce derived for it |
| WireForms.AttestedForm | crates/satusd-oracle/src/oracle.rs:78-95 | what an attestation says: key, event name, and the digits of the price as the characters 0 and 1 |
| Frost.PolyEval | crates/satusd-oracle/src/frost.rs:87-94 | the Horner loop is the specified evaluation, with failures where a tail vanishes |
| Frost.EvalCommitment | crates/satusd-oracle/src/frost.rs:96-117 | the running-power loop is the specified evaluation in the exponent |
| Frost.LagrangeAtZero | crates/satusd-oracle/src/frost.rs:119-143 | the loop over the quorum is the specified coefficient, with its refusal |
| Frost.ComputeNonceSession | crates/satusd-oracle/src/frost.rs:190-214 | the loop computes the binding factors and the sum of D + rho*E |
| Frost.ComputeFinalKey | crates/satusd-oracle/src/frost.rs:370-419 | the two loops over participants are the specified finalization, with the same errors |
| Frost.ComputeSigShare | crates/satusd-oracle/src/frost.rs:461-499 | the loop over digits is the specified partial signature |
| Frost.ComputeAnnouncement | crates/satusd-oracle/src/frost.rs:528-535 | the loop over digits is the specified announcement |
| Frost.ComputeAttestation | crates/satusd-oracle/src/frost.rs:552-574 | the nested loops over digits and quorum are the specified aggregation, with the same errors |
| FrostKeygen.HornerFailsIff | crates/satusd-oracle/src/frost.rs:87-94 | Horner evaluation over nonzero coefficients fails exactly when a partial value is zero |
| FrostKeygen.HornerIsPoly | crates/satusd-oracle/src/frost.rs:87-94 | when it goes through, Horner evaluation is the value of the polynomial |
| FrostKeygen.CommitmentIsPoly | crates/satusd-oracle/src/frost.rs:96-117 | the evaluation of the commitments is the polynomial of the committed coefficients, in the exponent |
| FrostKeygen.CommitmentFailsIff | crates/satusd-oracle/src/frost.rs:96-117 | the public evaluation fails exactly when nothing is committed or a prefix of the committed coefficients vanishes at the recipient |
| FrostKeygen.ShareAcceptedExactly | crates/satusd-oracle/src/frost.rs:349-365 | a round-2 share is accepted exactly when it is the committed polynomial at the recipient and no prefix of the committed coefficients vanishes there |
| FrostKeygen.PrefixButNoTail | crates/satusd-oracle/src/frost.rs:87-117 | coefficients with a vanishing prefix and no vanishing tail: the share is formed and its commitment cannot be evaluated |
| FrostKeygen.FinalizedKey | crates/satusd-oracle/src/frost.rs:367-419 | a participant that finalizes holds its own point of the summed polynomial and the group key of the polynomial's constant term |
| FrostKeygen.SameGroupKey | crates/satusd-oracle/src/frost.rs:367-419 | all participants that finalize from the same broadcasts hold one group key with one parity |
| FrostKeygen.HonestDealerAccepted | crates/satusd-oracle/src/frost.rs:281-365 | a dealer's own broadcast passes; its share is formed exactly when no tail of its coefficients vanishes at the recipient, and is then accepted exactly when no prefix does |
| FrostDealers.DealerDraws | crates/satusd-oracle/src/frost.rs:281-308 | what an accepted dealer draws: coefficient k from its own seed and k, each commitment the point of its coefficient, and a proof of knowledge under the constant term with its own nonce and index |
| FrostDealers.DealerIff | crates/satusd-oracle/src/frost.rs:281-308 | a dealer is refused exactly for sizes or an index out of range or a proof that cannot be signed |
| FrostDealers.KeygenDraws | crates/satusd-oracle/src/frost.rs:594-610 | down to the seeds: coefficient k of the cohort's polynomial is the sum of what its dealers drew for k, the group key is that of the summed constant terms, and signer j holds its own seed and its point of that polynomial |
| FrostDealers.FinalizesIff | crates/satusd-oracle/src/frost.rs:367-419 | a participant takes a key exactly when there is one broadcast a dealer, every dealer's proof and share pass, and neither running sum vanishes |
| FrostDealers.QuorumIff | crates/satusd-oracle/src/frost.rs:216-226 | a quorum is accepted exactly when it has at least t members, all in 1..=n and none twice |
| FrostDealers.KeygenIff | crates/satusd-oracle/src/frost.rs:594-610 | key generation succeeds exactly when every dealer can be made and, between every dealer and every participant, no tail and no prefix of the coefficients and no running sum vanishes |
| Lagrange.Interpolation | crates/satusd-oracle/src/frost.rs:20-25 | over distinct nonzero nodes, for a polynomial of any length, the Lagrange combination misses the constant term by a divided difference times the product of the negated nodes |
| Lagrange.RecoveredIff | crates/satusd-oracle/src/frost.rs:20-25 | the constant term is recovered exactly when the divided difference over zero and the nodes is zero |
| Lagrange.DividedOverNodes | crates/satusd-oracle/src/frost.rs:20-25 | that difference is zero with enough nodes, and the extra coefficient with one node too few |
| FrostSigning.LambdaIs | crates/satusd-oracle/src/frost.rs:119-143 | the coefficient exists exactly when the quorum has another member, and is then the Lagrange coefficient at zero; otherwise the error is "quorum too small" |
| FrostSigning.SecretReconstructedIff | crates/satusd-oracle/src/frost.rs:20-25 | the weighted key shares of a quorum add up to the group secret exactly when the excess of the group polynomial over the quorum is zero, whatever the number of coefficients |
| FrostSigning.DigitVerifiesIff | crates/satusd-oracle/src/frost.rs:461-578 | an aggregated digit is a valid BIP-340 signature exactly when the weighted key shares add up to the group secret, for every parity of nonce point and key |
| FrostSigning.AnnouncedNonces | crates/satusd-oracle/src/frost.rs:520-578 | the aggregated signatures carry the announced nonce points |
| FrostSigning.ThresholdSignature | crates/satusd-oracle/src/frost.rs:20-25 | for every duplicate-free quorum in any order, at least as large as the polynomial: if the calls on honest messages succeed, every digit is a BIP-340 signature under the group key with the announced nonce point |
| FrostSigning.ThresholdIsSharp | crates/satusd-oracle/src/frost.rs:20-25 | whatever the number of coefficients of the group polynomial, a digit verifies exactly when its excess over the quorum is zero; one member short, that is the top coefficient |
| FrostCohort.RunKeygen | crates/satusd-oracle/src/frost.rs:594-610 | the loops that run every dealer and finalize every signer are the specified key generation; with no participants it panics |
| FrostCohort.RunAnnounce | crates/satusd-oracle/src/frost.rs:620-625 | the map over the quorum is the specified announcement |
| FrostCohort.RunAttest | crates/satusd-oracle/src/frost.rs:627-636 | the maps over the quorum are the specified attestation |
| FrostCohort.KeygenKeys | crates/satusd-oracle/src/frost.rs:594-610 | every successful key generation gives all signers their points of one polynomial and one group key |
| FrostCohort.CohortAttests | crates/satusd-oracle/src/frost.rs:612-636 | end to end, whatever seed, sizes, quorum order and price: if the calls succeed the attestation is twenty BIP-340 signatures under the cohort key on the announced nonces |
| FrostCohort.LoneSignerRefused | crates/satusd-oracle/src/frost.rs:135-143 | a quorum of one is refused whatever the threshold, because the empty product has no representation |
| FrostNonces.QuorumNonces | crates/satusd-oracle/src/frost.rs:190-214 | which nonces a quorum announces: the point of a digit is that of the sum, over its members, of the hiding nonce for that digit plus the binding nonce times the factor over event, digit, quorum and everyone's points |
| FrostNonces.CohortNonces | crates/satusd-oracle/src/frost.rs:612-636 | the same from the one seed that all participants of a key generation start from |
| FrostRefusals.CohortAnnouncesIff | crates/satusd-oracle/src/frost.rs:612-625 | a keyed cohort announces exactly for an accepted quorum of which no member's nonce and no running sum of nonces vanishes on any digit |
| FrostRefusals.CohortAttestsIff | crates/satusd-oracle/src/frost.rs:612-636 | once it has announced, a quorum attests a price exactly when it has more than one member and on every digit the challenge is not zero and neither a partial signature nor a running sum of them vanishes |
| Smt.FieldOrder | crates/satusd-crypto/src/poseidon.rs:8-24 | the modulus is the order of the BN254 scalar field, as the curve family's polynomial in its parameter |
| Smt.FoldToRoot | crates/satusd-crypto/src/smt.rs:134-146 | the loop folds a leaf through a proof from the bottom up |
| Smt.FoldIsUpdate | crates/satusd-crypto/src/smt.rs:134-146 | folding any leaf through a tree's own proof gives the node of the full 2^256-leaf tree with that leaf in place |
| Smt.OwnProofVerifies | crates/satusd-crypto/src/smt.rs:92-161 | completeness: a tree's own proof shows every stored value and the absence of every other key |
| Smt.UpdateIsInsert | crates/satusd-crypto/src/smt.rs:163-169 | the root computed from a tree's own proof is the root after the insert, also into empty subtrees |
| Smt.InclusionSound | crates/satusd-crypto/src/smt.rs:148-156 | for any proof whatsoever: accepted inclusion means the tree stores the value, or names a Poseidon collision on the path or between leaves, or a leaf that hashes to zero |
| Smt.ExclusionSound | crates/satusd-crypto/src/smt.rs:158-161 | for any proof whatsoever: accepted exclusion means the key is absent, or names a collision on the path or a stored leaf that hashes to zero |
| SparseTree.Partition | crates/satusd-crypto/src/smt.rs:120-132 | the loop splits entries by a path bit, keeping their order |
| SparseTree.SparseMerkleTree.Insert | crates/satusd-crypto/src/smt.rs:68-71 | inserts or overwrites one entry and says whether the key was occupied |
| SparseTree.SparseMerkleTree.Root | crates/satusd-crypto/src/smt.rs:72-90 | the recursion that skips empty subtrees computes the root of the full 2^256-leaf tree |
| SparseTree.SparseMerkleTree.Prove | crates/satusd-crypto/src/smt.rs:92-118 | the recursion that fills a buffer returns the siblings of the path, by depth |
| SparseTree.ProveInserted | crates/satusd-crypto/src/smt.rs:57-169 | insert, prove, verify: the computed update is the new root and the new proof verifies against it |
| SparseTree.HashBytes | crates/satusd-crypto/src/poseidon.rs:44-60 | the limb loop folds 31-byte limbs into one field element |
| SparseTree.HashOfWord | crates/satusd-crypto/src/poseidon.rs:44-60 | on the 32 bytes of a key or value that fold is the two-limb hash that the trees use |
| SparseTree.BitOfBytes | crates/satusd-crypto/src/smt.rs:39-41 | the bit taken from the key's bytes is the bit of its number, most significant first |
| SparseTree.LeafOfBytes | crates/satusd-crypto/src/smt.rs:34-37 | the leaf of a key and a value given as bytes is the hash of the two limb hashes, key first |
| Median.StakeWeightedMedian | crates/satusd-oracle/src/median.rs:16-37 | the method returns the price with less than half of the stake below it and at least half up to it (the lower one at an even split), and never reaches its `unreachable!` |
| Median.MedianPermuted | crates/satusd-oracle/src/median.rs:16-37 | the result does not depend on the order of the reports |
| Median.MajorityBrackets | crates/satusd-oracle/src/median.rs:16-37 | any part of the reports with more than half of the stake brackets the result between its least and greatest price |
| Aggregate.Aggregate | crates/satusd-state/src/oracle.rs:82-137 | the loop with its seen list, the in-place sort and the inlier count are the specified aggregation, with the same errors |
| Aggregate.AggregatedIff | crates/satusd-state/src/oracle.rs:82-137 | a quorum has the price m exactly when the signer set is the committed one, there are three to five admissible messages from distinct signers, m is the (upper) middle price, and at least three prices lie within 2 percent of it on either side |
| Aggregate.CheckSignatures | crates/satusd-state/src/oracle.rs:66-80 | the loop refuses exactly when some signature is invalid |
| Aggregate.MajorityBrackets | crates/satusd-state/src/oracle.rs:120-137 | any strict majority of the messages brackets the aggregate |
| Aggregate.AggregatePermuted | crates/satusd-state/src/oracle.rs:82-137 | the same messages in another order are accepted or refused alike, with the same aggregate; only the reason for refusing a message may differ |
| StateTypes.RatioThreshold | crates/satusd-types/src/tier.rs:34-60 | the ratio reaches a threshold exactly when reserve times price reaches that multiple of the supply, in exact arithmetic |
| StateTypes.WithTierIs | crates/satusd-types/src/tier.rs:34-77 | the ratio written into a state is the exact quotient of its reserve at its price by its supply, and the tier the number of thresholds 1.5, 1.3 and 1.1 that it misses |
| StateTypes.MemberWord | crates/satusd-state/src/redeem.rs:36 | what the set trees store under a member is the word of 32 bytes of one |
| StateTypes.CountValidMultisig | crates/satusd-state/src/mint.rs:95-116 | the loop with its seen list counts the distinct authorized keys with a valid signature |
| StateTypes.CheckDistinctKeys | crates/satusd-state/src/registry.rs:118-125 | the loop accepts exactly the lists without a repeated key |
| Claim.VerifyReserveClaim | crates/satusd-state/src/claim.rs:242-488 | the loop with running consumed and nullifier roots, totals and leaves is the specified verifier, with the same errors in the same order |
| Claim.QuorumPriceIff | crates/satusd-state/src/claim.rs:242-307 | a batch has the price m exactly when every message is signed, of the epoch and the anchor, timely and from the committed set, and m is the middle price of three to five with three near it |
| ClaimVerdict.RunIff | crates/satusd-state/src/claim.rs:309-440 | for any witness: the batch loop goes through exactly when every redemption passes against the ones before it, and ends with their sums, lock hashes and last roots |
| ClaimVerdict.VerdictIff | crates/satusd-state/src/claim.rs:242-488 | for any pair of states and any witness: a claim is accepted exactly when it is linked to both states and the clock, has the quorum's price, every redemption passes, its sums, roots and names are what it says, and the next state is the one that follows |
| Claim.PayoutIff | crates/satusd-state/src/claim.rs:396-407 | the payout check in plain arithmetic, for every rate, amount and price: what is paid covers the gross amount less the floored fee, the fee does not exceed it, and the product fits 128 bits |
| Claim.FeeWrapsIff | crates/satusd-state/src/claim.rs:401-407 | the subtraction wraps exactly when the rate exceeds 10000 basis points by so much that gross times rate reaches 10000 times (gross + 1), and then no payout is enough |
| Claim.FeeAboveTheWhole | crates/satusd-state/src/claim.rs:401-407 | two inputs at one price and 10001 basis points: the least redemption passes with a payout of nothing, a larger one wraps |
| NodeClaim.BuilderMirrorsVerifier | crates/satusd-state/src/node.rs:352-430 | step for step the verifier's running roots, leaves and sums are those of the builder's tree copies |
| NodeClaim.BuilderAgrees | crates/satusd-state/src/node.rs:346-487 | what the verifier refuses is never an internal mismatch (linkage, batch root, DA root, claim id, reimbursement, post-state, empty batch); when it accepts, the wrapping sums of the builder were exact |
| NodeClaim.SubmitKeeps | crates/satusd-state/src/node.rs:352-487 | a submission keeps the node invariant, never reports the internal error, and changes nothing when refused |
| NodeInvariant.IssuerRegisterKeeps | crates/satusd-state/src/node.rs:231-240 | registration keeps trees, maps and state root in step and changes nothing when refused |
| NodeInvariant.MintCommitKeeps | crates/satusd-state/src/node.rs:257-281 | the same for a mint commitment, with the custody credited |
| NodeInvariant.MintFinalizeKeeps | crates/satusd-state/src/node.rs:283-303 | the same for a mint finalization |
| NodeInvariant.RedeemLockKeeps | crates/satusd-state/src/node.rs:305-312 | the same for a redemption lock |
| NodeInvariant.LockRefundKeeps | crates/satusd-state/src/node.rs:325-334 | the same for a lock refund |
| NodeInvariant.ReclaimKeeps | crates/satusd-state/src/node.rs:489-517 | the same for a reclaim, with the reservation released in custody |
| NodeInvariant.FinalizeKeeps | crates/satusd-state/src/node.rs:519-574 | the same for a payment; a custody that refuses can keep approvals that were handed over, and nothing else |
| NodeInvariant.RefusalKeepsIff | crates/satusd-state/src/node.rs:540-560 | a payment that the committee custody refuses leaves the node alone exactly when every approval handed over is not authorized for the committee or is from a member whose approval is stored already |
| NodeInvariant.RefusedApprovalStays | crates/satusd-state/src/node.rs:540-560 | a paused custody refuses a payable claim and keeps the one new approval that came with the call |
| NodeRuns.StepKeeps | crates/satusd-state/src/node.rs:55-57 | every public call keeps the invariant, never reports `InvariantViolation`, and leaves state, trees and maps alone when it errs |
| NodeRuns.RunKeeps | crates/satusd-state/src/node.rs:216-229 | over every run from genesis the tree roots are the state root's fields and no call reports `InvariantViolation` |
| NodeStates.StepProceeds | crates/satusd-state/src/node.rs:231-574 | every accepted transition counts on by one, commits to the whole state before it under its own type, leaves settings and clock alone, stores ratio and tier of its own books, and writes down the price that it was given |
| NodeStates.RunProceeds | crates/satusd-state/src/node.rs:231-574 | over every documented run the epoch is the number of accepted transitions, modulo 2^64, and the stored ratio and tier are those of the stored reserve, supply and price |
| NodeStates.ConfigState | crates/satusd-state/src/node.rs:165-209 | a call that changes the configuration moves the anchor (with a chain time one hour after its median) or the committee hash, and nothing else of the state |
| NodeStates.RunConfigured | crates/satusd-state/src/node.rs:83-171 | over every documented run version, asset family, oracle set and archival root are those of the first state, and anchor and committee are the ones set last |
| NodeStates.ConfigCustody | crates/satusd-state/src/node.rs:179-209 | what a configuration call does to a committee custody: a rotation replaces the committee and drops every approval, a pause and a veto mark it, and no call moves money, claims or payments |
| NodeStates.ConfigReturns | crates/satusd-state/src/node.rs:195-202 | only a veto can be refused, exactly for a claim that the committee custody does not hold |
| NodeStates.PlainCustody | crates/satusd-state/src/node.rs:179-209 | a swap starts an empty committee custody on the recorded reserve, and no other configuration call touches a plain one |
| NodeStates.TransitionReturns | crates/satusd-state/src/node.rs:216-229 | every accepted transition but a claim submission returns the hash of the state that it leaves |
| NodeRuns.SwapKeepsIff | crates/satusd-state/src/node.rs:179-184 | swapping the custody keeps the invariant exactly when no claim is pending and nothing is reserved |
| NodeRuns.SwapBreaksReclaim | crates/satusd-state/src/node.rs:179-184 | after any other swap a due reclaim reports the internal error although the state root has moved on |
| NodeWitness.SwapWitness | crates/satusd-state/src/node.rs:179-184 | a run from genesis that swaps the custody while a claim is pending, after which reclaiming the claim reports `InvariantViolation` |
| NodeWitness.ApprovalWitness | crates/satusd-state/src/node.rs:540-560 | a run from genesis after which a refused payment changes the node |
| NodeCustody.RunKeepsCustody | crates/satusd-reserve/src/lib.rs:394-425 | over every run from genesis, swaps and rotations included, the approvals that the custody stores are valid and from distinct members of its current committee |
| NodeSubmits.SubmitIff | crates/satusd-state/src/node.rs:346-487 | a batch is accepted exactly when the quorum quotes a price, every redemption can be settled at it on a lock still open after the earlier ones, the sums fit and the claim id is new, up to a collision in a tree that says otherwise |
| NodeSubmits.SubmitReserves | crates/satusd-state/src/node.rs:430-487 | an accepted batch opens a claim for exactly its cost at the quorum's price, under the name of its inputs, in the state, the map and the custody; the whole stored record is stated |
| NodeAccepts.RegisterIff | crates/satusd-state/src/registry.rs:99-144 | an issuer is accepted exactly when it is fresh and its id is not taken (or the tree collides) |
| NodeAccepts.OperatorIff | crates/satusd-state/src/registry.rs:157-195 | an operator is accepted exactly when it is fresh, with a bond of at least 2000000 sats, and its id is not taken (or the tree collides) |
| Transitions.BindingIff | crates/satusd-state/src/redeem.rs:105-146 | a lock is bound to its intent exactly when it names the intent's hash and the script key of refund key, hash and payment hash, family and amount agree, the amount is 100 to 10^9 atoms, the mode is fast, an operator is named, and the asset's timelock is at least 24 blocks after the HTLC's |
| NodeAccepts.LockIff | crates/satusd-state/src/redeem.rs:223-249 | a lock is accepted exactly when those conditions hold, its lineage verifies and it is not recorded (or the tree collides) |
| NodeAccepts.RefundIff | crates/satusd-state/src/redeem.rs:268-313 | a refund is accepted exactly when it names a bound, recorded lock that is neither consumed nor refunded (or a tree collides) |
| NodeAccepts.ReclaimIff | crates/satusd-state/src/registry.rs:209-256 | with settled books a claim can be reclaimed exactly when it is pending and past its expiry |
| NodeAccepts.FinalizeIff | crates/satusd-state/src/registry.rs:274-357 | with settled books and plain custody a claim is paid exactly when pending, unexpired, approved by a threshold of the committee on record and covered |
| NodeAccepts.CommitteeFinalizeIff | crates/satusd-reserve/src/lib.rs:442-470 | with settled books and the committee custody a claim is paid exactly when it is payable and the custody, counting stored and new approvals, is neither paused nor vetoed and at its threshold |
| NodeAccepts.MintCommitIff | crates/satusd-state/src/mint.rs:223-300 | a mint commitment is accepted exactly when the issuer is active with no commitment outstanding, the deposit is confirmed for the committee on record, a threshold of the issuer's keys signed, the sums fit and the reserve covers twice the supply after the mint |
| NodeAccepts.MintFinalizeIff | crates/satusd-state/src/mint.rs:302-377 | a mint finalization is accepted exactly when it matches the outstanding commitment, is confirmed and proved, and the reserve covers twice the supply after it; the separate test for a healthy tier never decides |
| NodeEffects.MintRecords | crates/satusd-state/src/mint.rs:178-220 | what an accepted mint step writes into the issuer's position: deposit, pending atoms and commitment, and then the minted atoms |
| NodeAccepts.MintsAreCovered | crates/satusd-state/src/mint.rs:223-377 | after an accepted mint step the reserve is worth at least twice the supply at the quoted price, and a commitment carries the issuer's own threshold |
| Ledger.StepBalances | crates/satusd-state/src/node.rs:146-157 | one call, accepted or refused, keeps reserve = deposits - payouts and supply = minted - redeemed |
| Ledger.BatchConsumes | crates/satusd-state/src/claim.rs:309-415 | a batch consumes its locks one by one against its own earlier redemptions, each with a fresh nullifier, or a tree collides |
| Ledger.StepSettles | crates/satusd-state/src/node.rs:231-574 | one call keeps the accounts of issuers, claims and locks, or its own trees collide |
| Ledger.NothingReserved | crates/satusd-state/src/node.rs:179-184 | with settled books "no pending claim" already means that nothing is reserved |
| LedgerRuns.RunBalances | crates/satusd-state/src/node.rs:146-157 | over every run reserve = deposits - payouts and supply = minted - redeemed, with nothing assumed of the hashes |
| LedgerRuns.RunSettles | crates/satusd-state/src/node.rs:231-574 | over every run that swaps custody as documented: invariant, balance and settled accounts (reserved = sum over pending claims, issuers' sums, lock life cycle), or a step of the run exhibits a collision |
| LedgerRuns.RunGrows | crates/satusd-state/src/node.rs:305-334 | recorded, consumed, refunded locks and nullifiers are never forgotten |
| LedgerRuns.OutstandingIff | crates/satusd-state/src/mint.rs:178-220 | an issuer has atoms pending exactly when a commitment is outstanding |
| LedgerRuns.NoDoubleRedemption | crates/satusd-state/src/claim.rs:309-340 | no two redemptions of a run share outpoint, script key and intent hash, even through two lock records |
| LedgerRuns.LockFate | crates/satusd-state/src/redeem.rs:226-313 | every consumed lock is one entry of the redemption log; consumed and refunded locks are disjoint and recorded |
| Node.StateNode.RegisterNewIssuer | crates/satusd-state/src/node.rs:231-240 | the field-by-field registration leaves the whole node in the state, and returns the outcome, that the specification function gives |
| Node.StateNode.RegisterNewOperator | crates/satusd-state/src/node.rs:246-255 | the field-by-field operator registration leaves the whole node in the state, and returns the outcome, that the specification function gives |
| Node.StateNode.SetL1Anchor | crates/satusd-state/src/node.rs:165-171 | the field-by-field anchor update leaves the whole node in the state, and returns the outcome, that the specification function gives |
| Node.StateNode.EmergencyPause | crates/satusd-state/src/node.rs:186-190 | the field-by-field pause leaves the whole node in the state, and returns the outcome, that the specification function gives |
| Node.StateNode.VetoPending | crates/satusd-state/src/node.rs:196-202 | the field-by-field veto leaves the whole node in the state, and returns the outcome, that the specification function gives |
| Node.StateNode.CommitMinting | crates/satusd-state/src/node.rs:257-281 | the field-by-field mint commitment leaves the whole node in the state, and returns the outcome, that the specification function gives |
| Node.StateNode.FinalizeMinting | crates/satusd-state/src/node.rs:283-303 | the field-by-field mint finalization leaves the whole node in the state, and returns the outcome, that the specification function gives |
| Node.StateNode.LockForRedemption | crates/satusd-state/src/node.rs:305-312 | the field-by-field lock leaves the whole node in the state, and returns the outcome, that the specification function gives |
| Node.StateNode.RefundLock | crates/satusd-state/src/node.rs:325-334 | the field-by-field refund leaves the whole node in the state, and returns the outcome, that the specification function gives |
| Node.StateNode.SubmitBatch | crates/satusd-state/src/node.rs:346-487 | the field-by-field claim submission, with the builder loop over running tree copies leaves the whole node in the state, and returns the outcome, that the specification function gives |
| Node.StateNode.ReclaimStaleClaim | crates/satusd-state/src/node.rs:489-517 | the field-by-field reclaim leaves the whole node in the state, and returns the outcome, that the specification function gives |
| Node.StateNode.FinalizePending | crates/satusd-state/src/node.rs:519-574 | the field-by-field payment, consensus first and custody second leaves the whole node in the state, and returns the outcome, that the specification function gives |
| Node.StateNode.UseMultisigReserve | crates/satusd-state/src/node.rs:179-184 | the field-by-field custody swap leaves the whole node in the state, and returns the outcome, that the specification function gives |
| Node.StateNode.RotateReserveCommittee | crates/satusd-state/src/node.rs:204-209 | the field-by-field committee rotation leaves the whole node in the state, and returns the outcome, that the specification function gives |
| Node.StateNode.SetReserveCommittee | crates/satusd-state/src/node.rs:173-177 | commits to a reserve committee and changes nothing else |
| Reserve.MockReserve.FinalizeClaim | crates/satusd-reserve/src/lib.rs:222-238 | pays a held claim or restores it when the reserve is short; the whole new state is stated |
| Reserve.MultisigReserve.AddApproval | crates/satusd-reserve/src/lib.rs:394-412 | keeps an approval only of a current member, with a valid signature, not seen before |
| Reserve.MultisigReserve.FinalizeClaim | crates/satusd-reserve/src/lib.rs:442-470 | refuses when paused, unknown, paid, vetoed, below threshold or short, in this order; otherwise pays |
| Reserve.MultisigReserve.EmergencyPause | crates/satusd-reserve/src/lib.rs:472-474 | pauses and changes nothing else |
| Reserve.MultisigReserve.RotateCommittee | crates/satusd-reserve/src/lib.rs:418-425 | replaces the committee and drops all approvals |
| Reserve.CountIsLength | crates/satusd-reserve/src/lib.rs:297-371 | in every reachable state, also after rotations, a claim's approval count is the length of its approval list |
| Reserve.PaidAtMostOnce | crates/satusd-reserve/src/lib.rs:442-470 | over every run with fresh claim ids no claim is paid twice |
| Reserve.PaymentConditions | crates/satusd-reserve/src/lib.rs:442-470 | in every reachable state a payment happens exactly on the finalization of a held claim that is unpaused, unvetoed, unpaid, covered, and approved by a threshold of distinct current members; the whole next state is stated |
| Reserve.ReclaimConditions | crates/satusd-reserve/src/lib.rs:476-485 | a claim can be taken back exactly while it is held and unpaid, and leaves with its reservation, not with money |
| Reserve.PlainConditions | crates/satusd-reserve/src/lib.rs:210-249 | the plain custody pays exactly a held claim that it covers and takes back any held one |
| Reserve.VetoStops | crates/satusd-reserve/src/lib.rs:414-418 | after a veto no run without a new submission pays the claim |
| Reserve.PauseStops | crates/satusd-reserve/src/lib.rs:442-474 | after a pause no run without a resume pays anything |
| Reserve.RotationForgets | crates/satusd-reserve/src/lib.rs:418-425 | after a rotation a claim holds at most as many approvals as were handed over since |
| Reserve.ReserveConserved | crates/satusd-reserve/src/lib.rs:382-485 | what the reserve holds plus what it paid is what was put in |
| Dispute.PlaygroundReserve.SubmitAssert | crates/satusd-dispute/src/lib.rs:180-189 | opens the window of the claim at the current height, also for one that was disproved, and changes nothing else |
| Dispute.PlaygroundReserve.SubmitDisprove | crates/satusd-dispute/src/lib.rs:191-198 | marks the assert if there is one and frees the reservation either way |
| Dispute.PlaygroundReserve.FinalizeWithdraw | crates/satusd-dispute/src/lib.rs:200-206 | pays only in an elapsed window; the whole new state is stated |
| Dispute.PlaygroundReserve.ObserveChallengeWindow | crates/satusd-dispute/src/lib.rs:208-215 | open before an assert, then disproven, elapsed or open by the height |
| Dispute.PaysIff | crates/satusd-dispute/src/lib.rs:165-206 | a call pays exactly the held amount of a held, covered claim, by a withdrawal in an elapsed undisproven window or by the inherited finalization |
| Dispute.DisprovedIsNotPaid | crates/satusd-dispute/src/lib.rs:191-198 | from any state, after a disprove no run without a new submission pays the claim, not even after a new assert |
| Dispute.ResubmittedIsPaid | crates/satusd-dispute/src/lib.rs:162-167 | a new submission is enough for it to be paid |
| Dispute.WithdrawalTraced | crates/satusd-dispute/src/lib.rs:180-215 | a withdrawal over a whole run was asserted at some step, not disproven since, and the height is past the window counted from that step |
| Dispute.WindowHonouredIff | crates/satusd-dispute/src/lib.rs:212 | the window is honoured exactly when opening height plus window fits 32 bits |
| Dispute.FinalizeIgnoresWindow | crates/satusd-dispute/src/lib.rs:165-167 | the inherited finalization pays without an assert and within an open window |
| Dispute.PaidPerSubmission | crates/satusd-dispute/src/lib.rs:162-206 | payments of a claim and its live reservation never exceed its submissions |
| Dispute.ReservedIsLive | crates/satusd-reserve/src/lib.rs:210-249 | over every run `reserved_sats` is the sum of the live reservations plus what resubmissions of live ids overwrote, modulo 2^64 |
| Dispute.PlayConserved | crates/satusd-reserve/src/lib.rs:202-249 | holdings and payments add up to what was put in |
| MerkleBranch.Branch | crates/satusd-operator/src/observer.rs:22-43 | the loop that rewrites layer, index and branch computes the specified branch, or panics |
| MerkleBranch.RootFromProof | crates/satusd-state/src/spv.rs:265-281 | the verifier's loop is the fold with the direction taken from the index bits |
| MerkleBranch.SingleLeaf | crates/satusd-operator/src/observer.rs:24-43 | the root of one id is the id itself, with an empty branch |
| MerkleBranch.EvenLayer | crates/satusd-operator/src/observer.rs:24-43 | an even layer has the root of the layer of its pairs, left hashed before right, and each branch starts with the sibling |
| MerkleBranch.OddLayer | crates/satusd-operator/src/observer.rs:28-30 | an odd layer has the root and the branches of the layer with its last id repeated, and the last id's branch starts with itself |
| MerkleBranch.BranchExistsIff | crates/satusd-operator/src/observer.rs:24-43 | the extraction panics exactly for an index past the layer rounded up to even, for a list of two or more |
| MerkleBranch.BranchFolds | crates/satusd-operator/src/observer.rs:22-43 | folding the id at an index up its branch gives the root of the duplicate-last reduction |
| MerkleBranch.BranchHeight | crates/satusd-operator/src/observer.rs:24-43 | the branch has ceil(log2(length)) entries |
| MerkleBranch.FoldBinds | crates/satusd-state/src/spv.rs:265-281 | any branch of the tree's height that folds to the root starts from the id at that index, or pairs on the path collide |
| LiveDa.Encode | crates/satusd-da/src/lib.rs:122-135 | the appends write header, root and sections as specified |
| LiveDa.Decode | crates/satusd-da/src/lib.rs:137-190 | the cursor loop is the specified parse, with its errors in the same order |
| LiveDa.LiveDaRoot | crates/satusd-da/src/lib.rs:92-99 | the loop hashes the concatenated section hashes |
| LiveDa.DecodeOfEncode | crates/satusd-da/src/lib.rs:122-190 | decoding an encoded bundle gives it back with its own root exactly when the sections fit the 32-bit size; otherwise the size is refused |
| LiveDa.EncodeOfDecode | crates/satusd-da/src/lib.rs:137-190 | every accepted byte string re-encodes to itself with the root it declared |
| LiveDa.HonestIff | crates/satusd-da/src/lib.rs:137-141 | an accepted byte string is the encoding of its bundle exactly when the declared root is the recomputed one |
| LiveDa.RootBinds | crates/satusd-da/src/lib.rs:12-17 | equal roots mean equal section lists, or SHA-256 collides on two hashed strings |
| LiveDa.NewSorts | crates/satusd-da/src/lib.rs:83-90 | however the sections were given, the bundle holds the same ones in ascending order |
| LiveDa.NewHolds | crates/satusd-da/src/lib.rs:83-112 | with distinct ids every section is found under its id, and nothing else is |
| WireForms.BundleLayout | crates/satusd-da/src/lib.rs:122-135 | which bytes of a bundle are what: magic, version 1, claim, epoch, root and size at their offsets, and the sections from byte 85 |
| WireForms.BundleRefusals | crates/satusd-da/src/lib.rs:141-166 | which refusal a reader gives, in this order: too short, wrong magic, another version with its number, a body that is not of the declared size |
| WireForms.SectionLayout | crates/satusd-da/src/lib.rs:92-135 | a section is its id, its 32-bit size and its content; the root is the hash of the sections' hashes over exactly those bytes |
| ProofFile.SplitProofFile | crates/satusd-tapd-client/src/proof_assembly.rs:52-63 | the index cursor splits as specified, and panics where bytes are missing |
| ProofFile.BuildProofFile | crates/satusd-tapd-client/src/proof_assembly.rs:110-128 | the loop writes the proofs with their hash chain |
| ProofFile.ParseProofRecords | crates/satusd-tapd-client/src/proof_assembly.rs:65-76 | the index cursor reads the records as specified |
| ProofFile.CompleteTransition | crates/satusd-tapd-client/src/proof_assembly.rs:90-108 | the filter, the four lookups and the stable sort are the specified merge |
| ProofFile.AssembleExternalProofFile | crates/satusd-tapd-client/src/proof_assembly.rs:130-139 | split, complete and build as specified |
| ProofFile.SplitOfBuild | crates/satusd-tapd-client/src/proof_assembly.rs:52-128 | splitting a built file gives the proofs back, whatever they are |
| ProofFile.MergedHas | crates/satusd-tapd-client/src/proof_assembly.rs:90-108 | in a completed transition the anchor records 4, 6, 8 and 22 are the sibling's and all others the partial proof's |
| ProofFile.MergedAscendsIff | crates/satusd-tapd-client/src/proof_assembly.rs:78-108 | its records are in strictly ascending order exactly when the partial proof repeats no other kind |
| ProofFile.OrderKept | crates/satusd-tapd-client/src/proof_assembly.rs:78-108 | a partial proof in order gives a completed proof in order |
| ProofFile.AssembledHolds | crates/satusd-tapd-client/src/proof_assembly.rs:130-139 | the assembled file holds all proofs of the change file but the last, then the completed external one |
| ProofFile.ChainBinds | crates/satusd-tapd-client/src/proof_assembly.rs:110-128 | equal chain heads over equally many proofs mean equal proofs, or inputs with one link |
| WireForms.FileLayout | crates/satusd-tapd-client/src/proof_assembly.rs:110-128 | which bytes of a proof file are what: magic TAPF, version, count, and the chain from 32 zero bytes |
| WireForms.LinkLayout | crates/satusd-tapd-client/src/proof_assembly.rs:110-128 | each proof of a file is followed by the hash of the link before it and the proof, which is the next link |
| WireForms.RecordLayout | crates/satusd-tapd-client/src/proof_assembly.rs:65-88 | a proof is the magic TAPP and records of a type, a length and a value |
| TaProof.ParseProofFile | ts/src/taproof.ts:112-135 | the strict cursor loop is the specified reading, with its errors in the same order |
| TaProof.ParseTlv | ts/src/taproof.ts:148-161 | the strict record loop is the specified reading |
| TaProof.ReencodeProof | ts/src/taproof.ts:195-205 | the writer is the specified encoding |
| TaProof.BuiltParsesIff | ts/src/taproof.ts:112-135 | the strict reader accepts a built file exactly when every proof starts with its magic, and reads what was built |
| TaProof.ParsedIsBuilt | ts/src/taproof.ts:112-135 | every accepted file is the built file of what was read, and the assembler splits it the same way |
| TaProof.ReencodeIff | ts/src/taproof.ts:195-205 | re-encoding reproduces the bytes exactly when no record type is rounded by the conversion to a number |
| TaProof.ReencodeLoses | ts/src/taproof.ts:195-205 | a proof with one empty record of type 2^53 + 1 is accepted and re-encodes to different bytes |
| TaProof.RecordsParse | ts/src/taproof.ts:148-161 | encoded records are accepted exactly when their types, converted to numbers, are in strictly ascending order |
| TaProof.CompletedParsesIff | crates/satusd-tapd-client/src/proof_assembly.rs:90-108 | a completed transition passes the strict record checks exactly when the converted types of the merged records ascend; with types up to 2^53, when the partial proof repeats no type of its own |

## Left out

- SHA-256, Poseidon, secp256k1, EdDSA and tapscript internals: uninterpreted functions; the curve is the abstract group.
- Deposit and payout SPV, lineage and burn verification: each is an uninterpreted check of its witness, with its error code.
- The rounding of JavaScript numbers above 2^53: a parameter that is exact up to 2^53, takes 2^53 + 1 to 2^53 and stays within [2^53, 2^64] beyond.
- Points that fail to parse from 33 bytes: compressed keys in messages are points or arbitrary 33-byte numbers, not byte strings.
- The content of the announcement's descriptor is written and not read: the parser skips it.
- Keys, nonce points and event names as bytes: a parameter, of which it is required that what was written is read back and that names are short UTF-8 (`OracleWire.PlainFaithful` is one such way).
- `resolve_dispute`, `verdict` and `disprove_for`: a comparison of two hashes, true but short.
- Failed allocations: a record count that no memory holds aborts the assembler; the model has no memory limit.
- HTTP, gRPC, tapd, lnd and bitcoind plumbing, the cohort file transport, JSON and DTO conversions, the apps.
- The multisig custody's reserved total against its total: no submit path of the source enforces that it fits, so it is not claimed.
- MS-SMT in Rust and TypeScript: its proofs have the shape of `Smt`.
- The test-only `insert_validated_lock_for_test` and the phase tables, fee and capacity arithmetic, allotment and vault payouts.
- Node.StateNode.SubmitBatch: the trees are their contents and the proofs the functions that `SparseTree` computes, so the sharing of tree clones is not modelled.
- NodeAccepts.FinalizeIff: for the plain custody; `NodeAccepts.CommitteeFinalizeIff` is the same for the committee custody.
- NodeAccepts.MintsAreCovered: says what an accepted mint guarantees; exactly when one is accepted is `NodeAccepts.MintCommitIff` and `NodeAccepts.MintFinalizeIff`.
- Oracle.Announce: computes the points and the signature; the bytes are `OracleMessages.AnnounceOnWire`.
- Oracle.Attest: computes the signatures; the bytes are `OracleMessages.AttestOnWire`.
- Frost.ComputeAnnouncement: computes the points; the bytes are `OracleMessages.AggregateEventOnWire`.
- Frost.ComputeAttestation: computes the signatures; the bytes are `OracleMessages.AggregateOnWire`.
- Aggregate.AggregatePermuted: the reason reported for an inadmissible message is that of the first one, so it can change with the order.
- LedgerRuns.RunSettles: allows a collision in place of the accounts, since no finite hash is injective; `Ledger.StepCollides` says which two inputs.
- Extraction.EquivocationReveals: for signatures that verify; unverified ones are covered by `Extraction.ExtractExact`.
