# Verification of the LTP core

A Dafny model of the parts of the LTP repository where a mistake loses data or money, with proofs
that hold for every input and every run.  `dafny verify dfyconfig.toml` verifies all of it.

**Erasure coding** (`Galois`, `Generator`, `Polynomials`, `LinearAlgebra`, `ErasureCode`, `Coder`).
GF(256) arithmetic is defined by shifting and reducing with 0x11D and shown to be a field; the
log and exp tables refine it.  Encoding evaluates column polynomials at the points i+1.  The
in-place Gauss-Jordan elimination carries an invariant that yields an inverse exactly for distinct
points.  The main theorem is that any k of n shards decode to the data.

**Number theory of the audit layer** (`NumberTheory`, `Primality`, `DelayFunction`).  Miller-Rabin
never rejects a prime, the next-prime search terminates, and the Wesolowski verifier accepts every
honest evaluation.  This rests on Fermat's little theorem, square roots of one modulo a prime and
the infinitude of primes, all proved here.

**Commitment log and network** (`CommitmentLogs`, `Placement`, `Network`, `NetworkRuns`,
`NetworkIndex`, `NetworkService`).  The log survives a crash at any point.  Cached placement equals fresh
placement in every reachable state, evictions with repair never lose a replicated shard, and the
reverse index is exact throughout a run if and only if every operation meets a stated condition.

**Transfer protocol** (`Materialization`, `TransferProtocol`).  Commit, lattice and materialize over
ideal cryptography: hashes are functions, injective where a lemma says so, and AEAD decrypts
exactly what was encrypted.  The receiver never gets wrong content, and gets the right content
while a usable node is left, if k of the shards had been fully replicated.

**Money** (`Sums`, `Ledgers`, `Incentives`, `InferenceMarkets`, `DepositWatchers`).  The ledger
neither mints nor leaks, epoch settlement is fair to the last unit, settlements fund the claims
they create, and the deposit watcher's outcome does not depend on the order of its feed.

**Slashing and vesting** (`SlashAmounts`, `Slashing`, `SlashingRuns`, `SlashingHistory`,
`SlashingEffects`, `SlashingLaws`, `EnforcementPipelines`, `Vesting`).  Every slash carries a ticket; no ticket is ever
in two places or promoted twice, which gives deduction at most once, after the grace period, and a
closed form for every stake.

**Canonical encoding and the rate limiter** (`Bytes`, `Encoding`, `CanonicalEncoders`, `Governance`,
`Records`, `RateLimiters`).

State that the program updates in place is a class whose methods are proved against functions on
values; the theorems about whole runs are lemmas about those functions.

Where code and intent differ the code is followed:

- `_next_probable_prime(2)` returns 3; `Primality.SkipsOnlyComposites` states the one exception.
- The placement comment promises distinct replicas, but re-probing is bounded;
  `Placement.TwoReplicasIff` gives the exact condition for a second one.  Results about evictions
  therefore start from shards that have min(2, active nodes) replicas.
- `reverse_pending_slash` says it fails for a finalized slash and does not test for it
  (`SlashingLaws.ReversedTooLate`).
- The check "total slashed at most stake" compares with the stake already reduced
  (`SlashingLaws.CheckTripsPastHalf`); totals take the full amount even when the stake is floored.
- The reverse index is kept per identifier, so evicting a node a second time can clear the index of
  the node that took its identifier: `NetworkIndex.IndexGoesWrong` is a run, and
  `NetworkIndex.IndexExactIff` the exact condition.
- The rate limiter speaks of a sliding window; its windows are anchored, and the bound over one
  window length is twice the quota less one.

Demands on callers beyond what the code tests: fee shares and prices are non-negative, condition
allocations lie between 0 and 10000 basis points, disputed amounts, votes and vesting rewards are
non-negative, and opening stakes are non-negative.  Objects whose Python constructors raise on bad
settings are modelled only with settings that pass.  Registered verification keys have one length,
as those of ML-DSA-65 do.

## Model

| member | source | states |
|---|---|---|
| `Galois.MulAssoc` | src/ltp/erasure.py:79-101 | multiplication by shift and reduction with 0x11D is associative on all bytes |
| `Galois.MulComm` | src/ltp/erasure.py:79-101 | it is commutative |
| `Galois.Distribute` | src/ltp/erasure.py:79-101 | it distributes over exclusive or, the addition used throughout the coder |
| `Galois.MulModulus` | src/ltp/erasure.py:79-94 | multiplying by the reduction polynomial gives zero, the fact behind commutativity |
| `Generator.NoShortPeriod` | src/ltp/erasure.py:79-94 | 2 generates: no power of 2 below the 255th is 1, so the table loop meets no value twice |
| `Generator.LogExists` | src/ltp/erasure.py:79-94 | every non-zero byte is a power of 2 with exponent below 255, so the log table is total |
| `Generator.NoZeroDivisors` | src/ltp/erasure.py:96-101 | a product is zero exactly when a factor is, the case split of the table multiplication |
| `Generator.InverseExists` | src/ltp/erasure.py:103-107 | every non-zero byte has an inverse |
| `Galois.DoubleMeans` | src/ltp/erasure.py:79-94 | multiplying by 2 shifts, and reduces by the bits 0x1D when the top bit leaves |
| `Coder.ErasureCoder.FillPowers` | src/ltp/erasure.py:79-94 | the first table loop stores the powers of 2 and their exponents as mutual inverses |
| `Coder.ErasureCoder.InitGf` | src/ltp/erasure.py:79-94 | after initialisation the tables satisfy the object invariant, the doubled half included |
| `Coder.ErasureCoder.GfMul` | src/ltp/erasure.py:96-101 | two table lookups give the field product defined by shifting and reducing |
| `Coder.ErasureCoder.GfInv` | src/ltp/erasure.py:103-107 | the returned byte times the argument is 1 |
| `Polynomials.RootBound` | src/ltp/erasure.py:166-207 | a polynomial with as many distinct roots as coefficients is zero |
| `Polynomials.InterpolantUnique` | src/ltp/erasure.py:210-250 | values at as many distinct points as coefficients determine the polynomial |
| `Polynomials.InterpolantEval` | src/ltp/erasure.py:210-250 | the interpolating polynomial takes the given values |
| `LinearAlgebra.SwapKeeps` | src/ltp/erasure.py:166-207 | exchanging two rows keeps "left half = right half times Vandermonde" and the null space |
| `LinearAlgebra.ScaleKeeps` | src/ltp/erasure.py:166-207 | so does multiplying a row by a non-zero factor |
| `LinearAlgebra.CombineKeeps` | src/ltp/erasure.py:166-207 | so does adding a multiple of one row to another |
| `LinearAlgebra.PivotExists` | src/ltp/erasure.py:166-207 | with distinct points a pivot is found in every column |
| `LinearAlgebra.InverseReads` | src/ltp/erasure.py:166-207 | once the left half is the identity, the right half recovers coefficients from values |
| `LinearAlgebra.InverseTimesVandermonde` | src/ltp/erasure.py:166-207 | the returned matrix times the Vandermonde matrix is the identity |
| `LinearAlgebra.InvertedMeansDistinct` | src/ltp/erasure.py:166-207 | no matrix can be returned for repeated points |
| `Coder.ErasureCoder.EliminateColumn` | src/ltp/erasure.py:166-207 | the in-place loop clears one more column and keeps the elimination invariant |
| `Coder.ErasureCoder.InvertVandermonde` | src/ltp/erasure.py:166-207 | an inverse is returned if and only if the points are distinct, and it inverts evaluation |
| `Coder.ErasureCoder.EncodeShard` | src/ltp/erasure.py:148-161 | one shard is the evaluation of every column polynomial at its point |
| `Coder.ErasureCoder.Encode` | src/ltp/erasure.py:116-163 | the nested loops compute the code, refusals for bad n and k and for more than 255 shards included |
| `Coder.ErasureCoder.DecodePosition` | src/ltp/erasure.py:239-246 | one byte position of every chunk is interpolated into the output and no other byte is touched |
| `Coder.ErasureCoder.Decode` | src/ltp/erasure.py:210-250 | the loops compute the interpolation of the k lowest-numbered shards, with the error cases |
| `ErasureCode.PayloadLayout` | src/ltp/erasure.py:109-136 | the payload is the eight-byte length, the data, and fewer than k zeros; chunks have (length + 8 + k - 1) / k bytes |
| `ErasureCode.EncodeMeans` | src/ltp/erasure.py:116-163 | shard i holds, at each position, the polynomial of the k chunk bytes evaluated at i + 1, with size, payload and points written out |
| `ErasureCode.CoderErrors` | src/ltp/erasure.py:124-130 | which error is raised for which parameters |
| `ErasureCode.DecodeConsistent` | src/ltp/erasure.py:210-250 | damaged or not, k shards decode to the data of the payload that would have produced the bytes read from them |
| `ErasureCode.UnpadMeans` | src/ltp/erasure.py:248-250 | the stated length is honoured as far as the payload reaches |
| `ErasureCode.LowestDecide` | src/ltp/erasure.py:219-222 | only the k lowest-numbered shards are read |
| `ErasureCode.AnyShardsDecode` | src/ltp/erasure.py:116-250 | for all data, all n > k > 0 with n at most 255, any k or more shards decode to exactly the data |
| `ErasureCode.FirstChunkOpen` | src/ltp/erasure.py:148-161 | k-1 shards are consistent with every candidate first chunk, through exactly one payload each |
| `NumberTheory.Fermat` | src/ltp/enforcement.py:952-981 | Fermat's little theorem, from the binomial theorem |
| `NumberTheory.SquareRootsOfOne` | src/ltp/enforcement.py:970-979 | modulo a prime only 1 and -1 square to 1 |
| `NumberTheory.PrimeAbove` | src/ltp/enforcement.py:941-949 | there is a prime above every number, which makes the search end |
| `Primality.WitnessAccepts` | src/ltp/enforcement.py:967-980 | the squaring loop decides the strong probable prime condition for one base |
| `Primality.IsProbablePrime` | src/ltp/enforcement.py:952-981 | the method decides the test as specified, accepts every prime, and in ten rounds or more below 961 accepts nothing else |
| `Primality.PrimePasses` | src/ltp/enforcement.py:952-981 | the test never rejects a prime, whatever the number of rounds |
| `Primality.NoSmallDivisor` | src/ltp/enforcement.py:966-980 | a number accepted in ten rounds or more has no witness but itself as divisor |
| `Primality.AcceptedIsPrime` | src/ltp/enforcement.py:952-981 | below 961 acceptance in ten rounds or more is primality |
| `Primality.AcceptedMeetsFermat` | src/ltp/enforcement.py:966-980 | whatever its size, an accepted number meets Fermat's condition for every witness tried |
| `Primality.NextIsPrime` | src/ltp/enforcement.py:941-949 | a search that ends below 961 ends at the first prime, apart from 2, at or above its start |
| `Primality.NextExists` | src/ltp/enforcement.py:941-949 | for every start some number at or above it ends the search |
| `Primality.NextUnique` | src/ltp/enforcement.py:941-949 | the number that ends the search is unique |
| `Primality.NextProbablePrime` | src/ltp/enforcement.py:941-949 | the unbounded loop terminates and returns that number, a prime whenever it is below 961 |
| `Primality.SkipsOnlyComposites` | src/ltp/enforcement.py:941-949 | between start and result there are only composites, except that a start of 2 is itself skipped |
| `DelayFunction.ComputeProof` | src/ltp/enforcement.py:984-1028 | the long-division loop yields x to the floor of 2^T / l, modulo N |
| `DelayFunction.ProofEquation` | src/ltp/enforcement.py:922-938 | pi^l times x^(2^T mod l) equals x^(2^T), modulo any N |
| `DelayFunction.SequentialSquarings` | src/ltp/enforcement.py:875-903 | T squarings give x^(2^T) mod N |
| `DelayFunction.Derivation.Evaluate` | src/ltp/enforcement.py:875-903 | an evaluation holds the squared value and a proof that the verifier equation accepts, or overflows exactly when N needs more than 256 bytes |
| `DelayFunction.Derivation.Verify` | src/ltp/enforcement.py:905-938 | the verifier answers pi^l * x^(2^T mod l) = y modulo N, false for another challenge, or overflows |
| `DelayFunction.Derivation.DeriveModulus` | src/ltp/enforcement.py:777-801 | the product of the primes found from the two candidates |
| `DelayFunction.Base` | src/ltp/enforcement.py:880-884 | the residue of the seed, with 0 and 1 replaced by 2 |
| `DelayFunction.Derivation.VerifierRejects` | src/ltp/enforcement.py:922-938 | with the proof of the honest prover the verifier answers true exactly for the T-fold square of the base |
| `DelayFunction.Derivation.ProofsAgree` | src/ltp/enforcement.py:922-938 | two proofs accepted for one output agree in their l-th powers times the common factor |
| `DelayFunction.Derivation.EvaluateThenVerify` | src/ltp/enforcement.py:834-938 | every honest evaluation is accepted |
| `CanonicalEncoders.CanonicalEncoder.Uint` | src/ltp/encoding.py:55-74 | appends the big-endian number at its width, and refuses exactly the numbers that do not fit |
| `CanonicalEncoders.CanonicalEncoder.Float64` | src/ltp/encoding.py:76-81 | appends the eight bytes and refuses NaN and infinities |
| `CanonicalEncoders.CanonicalEncoder.RawBytes` | src/ltp/encoding.py:83-86 | appends the bytes |
| `CanonicalEncoders.CanonicalEncoder.LengthPrefixed` | src/ltp/encoding.py:88-97 | appends a four-byte length and the bytes |
| `CanonicalEncoders.CanonicalEncoder.OptionalBytes` | src/ltp/encoding.py:99-115 | appends a presence flag and the value; a value too long leaves the flag |
| `CanonicalEncoders.CanonicalEncoder.OptionalUint64` | src/ltp/encoding.py:117-124 | appends a presence flag and the number; one out of range leaves the flag |
| `CanonicalEncoders.CanonicalEncoder.SortedMap` | src/ltp/encoding.py:126-135 | the loop appends the count and the entries in key order, up to the first that does not fit |
| `CanonicalEncoders.CanonicalEncoder.Finalize` | src/ltp/encoding.py:137-139 | returns the tag and everything appended, in order |
| `Bytes.BigEndianByte` | src/ltp/encoding.py:62-74 | byte i of an encoded number, counted from the most significant end |
| `CanonicalEncoders.MapLayout` | src/ltp/encoding.py:126-135 | an encoded map is its four-byte count, then key and value with their lengths in key order |
| `Encoding.NotAfterMeans` | src/ltp/encoding.py:126-135 | key order is lexicographic: a prefix first, else the first differing byte decides |
| `Encoding.UniqueReading` | src/ltp/encoding.py:55-139 | values of one schema, nested lists and optionals included, read back uniquely in front of any trailing bytes |
| `Encoding.SortedIncreases` | src/ltp/encoding.py:126-135 | the sorted listing of a set is strictly increasing |
| `Encoding.SortedInjective` | src/ltp/encoding.py:126-135 | and determines the set |
| `Governance.EncodePolicy` | src/ltp/governance.py:108-137 | the nested loops over signers, roles and rules produce the canonical bytes or refuse |
| `Governance.PolicyBytesInjective` | src/ltp/governance.py:108-137 | equal policy bytes, even as prefixes of longer strings, mean equal version, signers with roles as sets, and rules |
| `Governance.SignerLayout` | src/ltp/governance.py:115-126 | a signer is written as identifier, key, roles, validity and previous key, with lengths, counts and flag |
| `Governance.RuleLayout` | src/ltp/governance.py:128-136 | a rule is written as action, roles, threshold and age |
| `Governance.PolicyLayout` | src/ltp/governance.py:108-137 | a policy is its tag and version, then signers and rules behind their counts |
| `Encoding.WholeListInjective` | src/ltp/commitment.py:455-464 | a list of length-prefixed strings without a count is still determined when nothing follows it |
| `Records.SignablePayloadInjective` | src/ltp/commitment.py:430-464 | the signed payload determines every field it covers, named one by one, integer parameters as numbers |
| `Records.SignableLayout` | src/ltp/commitment.py:444-464 | the signed payload is its tag, six texts with lengths, the timestamp, and the parameters in key order |
| `Records.RecordLayout` | src/ltp/commitment.py:487-502 | the record bytes are their tag, the payload, then predecessor, signature and key with lengths |
| `Records.RecordBytesInjective` | src/ltp/commitment.py:487-502 | equal record bytes mean equal fields, named one by one, although the parameter map carries no count |
| `CommitmentLogs.CommitmentLog.constructor` | src/ltp/commitment.py:605-666 | a log opened on a store is what replay of the store gives |
| `CommitmentLogs.CommitmentLog.ReplayFromStore` | src/ltp/commitment.py:668-698 | the loop rebuilds records, chain, leaf indices and leaves |
| `CommitmentLogs.CommitmentLog.Append` | src/ltp/commitment.py:700-753 | persist first: the row is stored before memory changes, the record names the root of the leaves before it, each failure has its cause and changes nothing, and the reference is the hash of the sealed record |
| `CommitmentLogs.CommitmentLog.Fetch` | src/ltp/commitment.py:755-756 | the record under an id, if any |
| `CommitmentLogs.CrashAndRecover` | src/ltp/commitment.py:668-753 | a process that dies right after persisting comes back with the record committed |
| `CommitmentLogs.StepSound` | src/ltp/commitment.py:668-753 | appends, persist failures, crashes and restarts keep the invariant, and neither rows nor acknowledgements are lost |
| `CommitmentLogs.RunSound` | src/ltp/commitment.py:668-753 | the same over whole runs from any sound state |
| `CommitmentLogs.ReplayIsAppending` | src/ltp/commitment.py:668-753 | replay gives the log that appending exactly the persisted records gives |
| `CommitmentLogs.CrashSafe` | src/ltp/commitment.py:668-753 | from an empty store, after any run: memory equals replay equals re-appending, each predecessor is the root of the leaves before it, no acknowledged append is missing |
| `Placement.Fresh` | src/ltp/commitment.py:1059-1116 | a placement exists exactly when some node is active and allowed, and consists of distinct such nodes |
| `Placement.EligibleOrdered` | src/ltp/commitment.py:1084-1091 | the candidate list is in node id order without repetition |
| `Placement.TwoReplicasIff` | src/ltp/commitment.py:1098-1113 | two replicas are placed exactly when the probes do not all land on one candidate: spare nodes alone do not guarantee it |
| `Placement.FirstReplica` | src/ltp/commitment.py:1091-1105 | the first replica goes to the candidate the first probe names, counting usable nodes in id order |
| `Placement.SecondReplica` | src/ltp/commitment.py:1098-1113 | the second goes where the second probe, or the first re-probe off the first, points |
| `Placement.PlacementErrors` | src/ltp/commitment.py:1072-1093 | which error is raised when nothing can be placed |
| `Placement.PlacementRespectsFence` | src/ltp/compliance.py:499-541 | under a fence every placed node is active, in an allowed jurisdiction, and in none excluded |
| `Network.LookupIsFresh` | src/ltp/commitment.py:1059-1116 | with a sound cache the cached answer is the fresh one, and the cache stays sound |
| `Network.FreshLayout` | src/ltp/commitment.py:1059-1116 | placement depends on ids, regions and evictions only, not on what nodes hold |
| `Network.ServeMeans` | src/ltp/commitment.py:1183-1199 | a shard is served exactly when some active node holds it, and what is served is held |
| `Network.FetchAll` | src/ltp/commitment.py:1165-1201 | asked for all n shards, fetch returns an index exactly when some active node holds it |
| `Network.ServeOrder` | src/ltp/commitment.py:1183-1199 | the replica served is the first active holder in placement order, else in node order |
| `Network.FetchLimit` | src/ltp/commitment.py:1165-1201 | a limited fetch returns exactly the lowest available indices, each from the replica that comes first |
| `NetworkRuns.RegistrationAfterEviction` | src/ltp/commitment.py:1028-1055 | after an eviction an id may register again exactly with 1000 staked and 30 days later |
| `NetworkRuns.DistributePlaces` | src/ltp/commitment.py:1130-1143 | distribution stores each shard on every node of its placement and changes it nowhere else |
| `NetworkRuns.RepairReplicates` | src/ltp/commitment.py:1588-1628 | repairing a shard that still has a holder restores full replication and takes nothing from any other shard |
| `NetworkRuns.EvictKeepsEnough` | src/ltp/commitment.py:1535-1628 | evicting a node keeps at least min(2, active nodes) active replicas of every shard that had them |
| `NetworkRuns.EvictionsKeepShards` | src/ltp/commitment.py:1535-1628 | over any run of evictions such a shard keeps its replicas and its bytes, and is served while an active node is left |
| `NetworkRuns.DistributeHolds` | src/ltp/commitment.py:1118-1163 | distributing a new entity makes each of its shards available with its own bytes |
| `NetworkRuns.StepIndex` | src/ltp/commitment.py:967-1163 | every orderly operation keeps the reverse index equal to what active nodes hold |
| `NetworkRuns.IndexExactAlways` | src/ltp/commitment.py:967-1163 | so does every orderly run |
| `NetworkRuns.ReachableSound` | src/ltp/commitment.py:949-1143 | in every state reached from the empty network a cached placement equals a fresh one, and after orderly runs the reverse index is exact |
| `NetworkRuns.ReEvictionDropsIndex` | src/ltp/commitment.py:1549-1628 | evicting an evicted node again makes the index wrong when an active node that holds shards has taken its id |
| `NetworkIndex.EvictIndexIff` | src/ltp/commitment.py:1626-1628 | after evicting an evicted node again the index is exact if and only if no active node under its id holds anything |
| `NetworkIndex.ReEvictionIff` | src/ltp/commitment.py:1594-1628 | the same before the call: whoever has the id holds nothing and no repair will land there |
| `NetworkIndex.EmptyReEvictionIff` | src/ltp/commitment.py:1594-1628 | for a node that holds nothing: the id has no active node, or there is nothing to repair |
| `NetworkIndex.StepIndexIff` | src/ltp/commitment.py:967-1628 | from an exact index every operation leaves an exact one if and only if it is safe, a condition on the state before the call |
| `NetworkIndex.IndexExactIff` | src/ltp/commitment.py:967-1628 | from the empty network the index is exact throughout a run if and only if every operation is safe where it happens |
| `NetworkIndex.IndexGoesWrong` | src/ltp/commitment.py:967-1628 | a run from the empty network, for every environment, that leaves the index wrong: add, evict, register again, distribute, evict the old node again |
| `NetworkService.CommitmentNetwork.SetGeoFence` | src/ltp/commitment.py:958-961 | sets the policy and clears the cache |
| `NetworkService.CommitmentNetwork.AddExistingNode` | src/ltp/commitment.py:967-972 | adds the node and clears the cache |
| `NetworkService.CommitmentNetwork.RegisterNode` | src/ltp/commitment.py:996-1054 | adds an empty node unless its stake is short or its id is in eviction cooldown; an id in use is accepted, as in the code |
| `NetworkService.CommitmentNetwork.PlacementOf` | src/ltp/commitment.py:1059-1116 | the cached method returns a fresh placement, or the right error |
| `NetworkService.CommitmentNetwork.DistributeEncryptedShards` | src/ltp/commitment.py:1118-1143 | stores each shard on its placement and updates the reverse index |
| `NetworkService.CommitmentNetwork.FetchEncryptedShards` | src/ltp/commitment.py:1165-1201 | the loop with placement first and any active node as fallback returns the specified shards |
| `NetworkService.CommitmentNetwork.RepairOrphans` | src/ltp/commitment.py:1588-1628 | the repair loop visits each orphaned shard once, and its repaired and lost counts add up to their number |
| `NetworkService.CommitmentNetwork.EvictNode` | src/ltp/commitment.py:1535-1628 | marks the node, repairs once each shard it held, or is indexed with if it holds none, counts repaired and lost, and keeps the cache sound |
| `Materialization.EntityIdDetermines` | src/ltp/entity.py:108-118 | under an injective hash and keys of one length the entity id determines the content |
| `Materialization.EntityIdNeedsFixedKeys` | src/ltp/entity.py:108-118 | without keys of one length it does not: two different contents that share an id, for every hash |
| `Materialization.NeverWrongContent` | src/ltp/protocol.py:292-428 | whatever record, registry and shards arrive, the receiver gets nothing, an error, or exactly the committed content |
| `Materialization.EnoughShardsSuffice` | src/ltp/protocol.py:292-428 | with the right key and record, k genuine shards among any fetched ones give the content |
| `Materialization.FetchAfterEvictions` | src/ltp/commitment.py:1118-1628 | after distribution and any run of evictions a fetch returns each shard as distributed |
| `Materialization.TransferSurvivesEvictions` | src/ltp/protocol.py:292-428 | the content is delivered after any run of evictions that leaves a usable node, if k of the n shards had been fully replicated |
| `TransferProtocol.ContentIsSigned` | src/ltp/protocol.py:292-428 | content is delivered only from a record the key names, whose signature verifies under the registered key of its sender or else its own, and only if it hashes to the entity id |
| `TransferProtocol.UnsignedGivesNothing` | src/ltp/protocol.py:338-360 | an encodable record with a wrong hash or without a valid signature gives nothing |
| `TransferProtocol.UnopenedGivesNothing` | src/ltp/protocol.py:308-335 | neither does a key that does not open or a missing record |
| `TransferProtocol.FewShardsGiveNothing` | src/ltp/protocol.py:367-398 | fewer than k shards that decrypt give nothing |
| `TransferProtocol.CommittedCarries` | src/ltp/protocol.py:166-217 | the committed record carries the hashes of content and shape, the root of the encrypted shards, sender, signature, parameters, and the root of the log before it |
| `TransferProtocol.CekMeans` | src/ltp/shards.py:98-109 | a content key has 32 bytes, not all zero and not all ones |
| `TransferProtocol.LtpProtocol.Commit` | src/ltp/protocol.py:142-230 | commits exactly when sender, key, code, placement and log allow it; then shards are distributed, the record logged and the key material bound to the content; otherwise the log is untouched |
| `TransferProtocol.LtpProtocol.Lattice` | src/ltp/protocol.py:234-290 | seals entity id, content key, record hash and the policy, or the default one, to the receiver |
| `TransferProtocol.LtpProtocol.DecryptShards` | src/ltp/protocol.py:377-400 | the loop keeps exactly the shards that decrypt |
| `TransferProtocol.LtpProtocol.Materialize` | src/ltp/protocol.py:292-428 | the method with its early exits returns the specified outcome |
| `TransferProtocol.CommittedRecordTrusted` | src/ltp/protocol.py:142-230 | the record written by commit verifies for a receiver that knows the sender |
| `TransferProtocol.TransferDelivers` | src/ltp/protocol.py:142-428 | commit, seal, lose nodes, unseal, materialize: the receiver gets exactly the committed content, from the log or a copy of the record, if k of the shards had been fully replicated |
| `Ledgers.SplitExact` | src/ltp/incentives.py:285-303 | the three shares of a fee are non-negative and add up to it |
| `Ledgers.ApplySolvent` | src/ltp/incentives.py:285-436 | every movement keeps held = deposited - withdrawn with all buckets non-negative, and leaves claims alone |
| `Ledgers.RunSolvent` | src/ltp/incentives.py:285-466 | so does every run, refused calls included |
| `Ledgers.SharesMeanPoints` | src/ltp/incentives.py:285-303 | each share is its own basis points of the fee, rounded down, the remainder with the operators |
| `Ledgers.RefusedExactly` | src/ltp/incentives.py:285-436 | which calls are refused |
| `Ledgers.FeeEffect` | src/ltp/incentives.py:285-377 | where the money of a deposited or debited fee goes, and that nothing else moves |
| `Ledgers.CustomerEffect` | src/ltp/incentives.py:327-384 | deposits and refunds touch one balance and the totals |
| `Ledgers.AccountEffect` | src/ltp/incentives.py:317-436 | bonds come from outside, slashed and forfeited ones go to insurance, refunds and payments out, and no other account moves |
| `Ledgers.StablecoinLedger.DepositFee` | src/ltp/incentives.py:285-303 | splits a fee into the three pools, or refuses and changes nothing |
| `Ledgers.StablecoinLedger.FundIncentiveBudget` | src/ltp/incentives.py:305-315 | adds to the operator pool, or refuses |
| `Ledgers.StablecoinLedger.PostBond` | src/ltp/incentives.py:317-322 | adds to a bond, creating the account, or refuses |
| `Ledgers.StablecoinLedger.CustomerDeposit` | src/ltp/incentives.py:327-344 | credits a named customer, or refuses |
| `Ledgers.StablecoinLedger.CustomerDebitToFees` | src/ltp/incentives.py:351-377 | moves a covered amount into the fee split, or refuses and moves nothing |
| `Ledgers.StablecoinLedger.CustomerRefund` | src/ltp/incentives.py:379-384 | withdraws the whole balance |
| `Ledgers.StablecoinLedger.PayFromPool` | src/ltp/incentives.py:388-402 | pays the lesser of the amount and the pool |
| `Ledgers.StablecoinLedger.SlashBond` | src/ltp/incentives.py:404-417 | moves the lesser of the amount and the bond to insurance |
| `Ledgers.StablecoinLedger.RefundBond` | src/ltp/incentives.py:419-426 | withdraws the whole bond |
| `Ledgers.StablecoinLedger.ForfeitBondToInsurance` | src/ltp/incentives.py:428-436 | moves the whole bond to insurance |
| `Incentives.RatesMeanPrices` | src/ltp/incentives.py:199-205 | a GiB kept for a month costs the month price, a GiB served the serving price, and more never costs less |
| `Incentives.ReportPayBounds` | src/ltp/incentives.py:583-598 | audited pay is the passed share of the metered reward, rounded down, and nothing without audits |
| `Incentives.MeteredMeans` | src/ltp/incentives.py:551-564 | the reward is storage by byte-second plus serving by byte, each rounded down |
| `Incentives.PenaltyTiers` | src/ltp/incentives.py:566-579 | 1% of the bond for the first offense, 5% from the second, 15% from the fourth, 30% from the sixth |
| `Incentives.SlashedEffect` | src/ltp/incentives.py:566-579 | the penalty moves from bond to insurance, the failures are counted, and nothing else changes |
| `Incentives.ShareBounds` | src/ltp/incentives.py:626-628 | a pro-rata share lies between nothing and the claim |
| `Incentives.SettlementBounds` | src/ltp/incentives.py:602-635 | payouts never exceed the budget and fall short of it by less than one unit per claimant |
| `Incentives.ClampNeverBinds` | src/ltp/incentives.py:624-630 | at every turn of the loop the pool covers the next share, so the clamp in the payment never binds |
| `Incentives.SettledSolvent` | src/ltp/incentives.py:602-635 | at every turn the books are solvent and what is paid has come off the claims |
| `Incentives.SettlementSound` | src/ltp/incentives.py:602-635 | paid plus carried is claimed, nobody is paid above claim, and everyone is paid in full exactly when the pool covers the claims |
| `Incentives.SnapshotAddsUp` | src/ltp/incentives.py:602-635 | the report adds up: paid and carried make the claims, and what left the pool was paid |
| `Incentives.StableNodeIncentive.Compensate` | src/ltp/incentives.py:551-564 | accrues the metered reward unless the node is evicted, or refuses negative readings |
| `Incentives.StableNodeIncentive.Slash` | src/ltp/incentives.py:566-579 | raises the offense counter and takes the tier rate from the bond, never more than the bond |
| `Incentives.StableNodeIncentive.AccrueReport` | src/ltp/incentives.py:583-600 | accrues audited pay and slashes at the failure threshold |
| `Incentives.StableNodeIncentive.SettleEpoch` | src/ltp/incentives.py:602-635 | the loop, in any order of accounts, leaves the specified books and reports exact payouts and carried claims |
| `InferenceMarkets.QuoteRoundsUp` | src/ltp/inference.py:147-158 | a quote covers the exact cost, exceeds it by less than one unit per direction, and is zero only for zero cost |
| `InferenceMarkets.QuoteMonotone` | src/ltp/inference.py:147-158 | more tokens never cost less |
| `InferenceMarkets.SettlementKeepsCover` | src/ltp/inference.py:280-357 | a settlement adds to the pool at least what it adds to the claims |
| `InferenceMarkets.EvictKeepsCover` | src/ltp/incentives.py:762-781 | evicting an account stops its accrual, settles its bond, and leaves pool and claims alone |
| `InferenceMarkets.NextSound` | src/ltp/inference.py:271-357 | every step keeps the books solvent, and every backed step keeps the pool at or above the claims |
| `InferenceMarkets.EveryEpochPaysInFull` | src/ltp/inference.py:271-357 | if claims arise only from settlements and payouts only from epoch settlement, the settlement after any run pays every claim in full |
| `InferenceMarkets.MeteredClaimIsCarried` | src/ltp/incentives.py:551-564 | a metered claim breaks that cover: with an empty pool it is carried |
| `InferenceMarkets.SettledOnce` | src/ltp/inference.py:271-357 | over any sequential run a request settles at most once, and the settled set holds exactly those that did |
| `InferenceMarkets.SettlesExactly` | src/ltp/inference.py:271-357 | a receipt settles exactly when it is listed, new, verified and paid for |
| `InferenceMarkets.SettlementEffect` | src/ltp/inference.py:280-318 | revenue and tokens are booked on the model, and the request is settled |
| `InferenceMarkets.SettlementMoney` | src/ltp/inference.py:280-357 | the money goes to the three pools, the operators' share as a claim to the serving node unless evicted, and nothing else moves |
| `InferenceMarkets.RevenueIsBilled` | src/ltp/inference.py:280-357 | over any run the revenue booked is what the settlements billed |
| `InferenceMarkets.InferenceMarket.RegisterModel` | src/ltp/inference.py:251-253 | lists or re-prices a model |
| `InferenceMarkets.InferenceMarket.ValidateForSettlement` | src/ltp/inference.py:271-278 | finds the first objection, or the amount due |
| `InferenceMarkets.InferenceMarket.RecordSettlement` | src/ltp/inference.py:280-318 | accrues the operator share to a node that is not evicted and counts revenue, tokens and the request |
| `InferenceMarkets.InferenceMarket.Settle` | src/ltp/inference.py:320-334 | bills once, or refuses with the right error and changes nothing |
| `InferenceMarkets.InferenceMarket.SettlePrepaid` | src/ltp/inference.py:336-357 | debits the quote once, or refuses with balance and amount due and changes nothing |
| `DepositWatchers.BatchingIrrelevant` | src/ltp/bridge_deposits.py:159-188 | processing two batches is processing their concatenation |
| `DepositWatchers.FeedSettles` | src/ltp/bridge_deposits.py:159-188 | with fixed bindings a feed leaves exactly the balances of crediting each confirmed, bound transaction once |
| `DepositWatchers.OrderIrrelevant` | src/ltp/bridge_deposits.py:159-188 | feeds that confirm the same transactions, in any order and with any repetition, leave the same books |
| `DepositWatchers.RunKeepsSound` | src/ltp/bridge_deposits.py:134-188 | over any run with changing bindings credited and quarantined stay disjoint, and deposits and balances add up to the credited transactions |
| `DepositWatchers.EachCreditedOnce` | src/ltp/bridge_deposits.py:134-188 | over any run with changing bindings no transaction is credited twice, the credited set is what was credited, and every balance, also those reported with the credits, is the sum of the credits made to that customer |
| `DepositWatchers.BindingStays` | src/ltp/bridge_deposits.py:134-151 | until it is unbound an address keeps its customer whatever else is attempted |
| `DepositWatchers.HexMeans` | src/ltp/bridge_deposits.py:69-83 | hashes and addresses are 0x and digits from the hexadecimal alphabet |
| `DepositWatchers.DepositWatcher.BindAddress` | src/ltp/bridge_deposits.py:134-147 | binds, or refuses an empty customer, a malformed address or another customer |
| `DepositWatchers.DepositWatcher.UnbindAddress` | src/ltp/bridge_deposits.py:149-151 | removes a binding, or refuses a malformed address |
| `DepositWatchers.DepositWatcher.Process` | src/ltp/bridge_deposits.py:159-188 | the loop skips, quarantines or credits each event and returns the credits with balances |
| `SlashAmounts.TierForOffenseCount` | src/ltp/economics.py:108-114 | the loop over the thresholds gives 1, 2, 4 and 6 offenses as the bounds of the tiers |
| `SlashAmounts.SeverityAmounts` | src/ltp/economics.py:93-98 | 1, 5, 15 and 30 percent of the share at risk by severity, a graver one never costing less |
| `SlashAmounts.CorrelationMeans` | src/ltp/economics.py:680-736 | the base times 1 + scaling * concurrent / total, at most the cap, rounded down and cut at the share at risk |
| `SlashAmounts.SlashBounds` | src/ltp/economics.py:680-736 | correlation only raises a slash, and no slash exceeds the share of the stake at risk |
| `SlashAmounts.CorrelationMonotone` | src/ltp/economics.py:680-736 | more stake slashed at the same time never lowers a slash |
| `SlashAmounts.BaseApplies` | src/ltp/enforcement_pipeline.py:215-220 | the pipeline passes no concurrent stake, so the base amount applies |
| `SlashingRuns.Promoted` | src/ltp/enforcement_pipeline.py:287-300 | a queued entry that becomes a pending slash keeps every ticket in one place |
| `SlashingRuns.Deducted` | src/ltp/enforcement_pipeline.py:305-311 | a pending slash has not been deducted before, and deducting it keeps the invariant |
| `SlashingRuns.CloseEpochSound` | src/ltp/enforcement_pipeline.py:260-334 | closing an epoch keeps the invariant; new deductions carry its number and were not reversed |
| `SlashingRuns.StepSound` | src/ltp/enforcement_pipeline.py:192-373 | every step keeps the invariant, and only closing an epoch deducts |
| `SlashingRuns.RunSound` | src/ltp/enforcement_pipeline.py:192-373 | over any run deductions are permanent and what was reversed before deduction stays undeducted |
| `SlashingLaws.StakeIsClosedForm` | src/ltp/enforcement_pipeline.py:192-373 | after any run each deduction is of the amount issued, no earlier than its promotion plus the grace of the rules, and every stake is max(0, opening - sum of deductions) |
| `SlashingLaws.OrderIrrelevant` | src/ltp/enforcement_pipeline.py:305-311 | runs that deduct the same slashes leave the same stake, in whatever order |
| `SlashingLaws.ReversedInTime` | src/ltp/economics.py:648-678 | a slash reversed before its deduction is never deducted, however the run goes on |
| `SlashingLaws.ReversedTooLate` | src/ltp/economics.py:669-678 | reversal does not test finality: after a deduction it changes nothing |
| `SlashingHistory.StepHistory` | src/ltp/enforcement_pipeline.py:192-373 | only closing an epoch promotes, dates what it promotes with that epoch and the grace of the rules, and never promotes a ticket again |
| `SlashingHistory.RunHistory` | src/ltp/enforcement_pipeline.py:192-373 | so over any run, and the history of promotions only grows |
| `SlashingLaws.PromotedOnce` | src/ltp/enforcement_pipeline.py:287-369 | over any run each queued or disputed slash becomes at most one pending slash, even after that one was reversed and dropped |
| `SlashingLaws.GraceKept` | src/ltp/enforcement_pipeline.py:287-317 | if step i of a run promotes a slash and step j deducts it, both close an epoch, and the epoch of j is at least that of i plus the grace |
| `SlashingEffects.ViolationQueues` | src/ltp/enforcement_pipeline.py:192-243 | a violation adds an offense and queues one slash, the percentage of its severity of the share of the stake |
| `SlashingEffects.CloseEvicts` | src/ltp/enforcement_pipeline.py:319-324 | closing an epoch evicts exactly the listed nodes whose offenses have reached the threshold |
| `SlashingEffects.CloseDrains` | src/ltp/enforcement_pipeline.py:278-300 | it empties the batch of its epoch and no other |
| `SlashingEffects.DisputeOpens` | src/ltp/enforcement.py:630-664 | a dispute needs one percent as bond and takes votes for 168 epochs |
| `SlashingEffects.CloseDecides` | src/ltp/enforcement_pipeline.py:346-369 | it decides exactly the undecided disputes past their deadline |
| `SlashingEffects.VotesDecide` | src/ltp/enforcement.py:666-701 | over any run a decided dispute is upheld exactly when the accepted ballots in favour hold 66% of a non-zero total |
| `SlashingLaws.PendingDistinct` | src/ltp/enforcement_pipeline.py:287-300 | in every reachable state two pending slashes carry different tickets |
| `SlashingLaws.QueuedNowhereElse` | src/ltp/enforcement.py:1172-1178 | in every reachable state what is queued is neither pending nor deducted |
| `SlashingLaws.CloseReaches` | src/ltp/enforcement_pipeline.py:260-334 | closing an epoch deducts every due slash of a listed node, fresh ones included, and keeps every waiting one |
| `SlashingLaws.CheckTripsPastHalf` | src/ltp/enforcement_pipeline.py:246-252 | the runtime check after queuing fails exactly when more than half the opening stake has been deducted |
| `SlashingLaws.CheckCanFail` | src/ltp/enforcement_pipeline.py:246-252 | a run in which it fails: sixty of a hundred deducted, then one more violation |
| `EnforcementPipelines.BatchSlashingAccumulator.Add` | src/ltp/enforcement.py:1152-1170 | appends to the batch of the epoch |
| `EnforcementPipelines.BatchSlashingAccumulator.FinalizeEpoch` | src/ltp/enforcement.py:1172-1178 | hands a batch out once |
| `EnforcementPipelines.DisputeRegistry.CreateDispute` | src/ltp/enforcement.py:630-664 | opens a dispute, or refuses a bond below 1% |
| `EnforcementPipelines.DisputeRegistry.CastVote` | src/ltp/enforcement.py:666-682 | counts a vote while voting is open |
| `EnforcementPipelines.DisputeRegistry.Resolve` | src/ltp/enforcement.py:684-701 | decides once, after the deadline, by the 66% majority |
| `EnforcementPipelines.SplitPending` | src/ltp/economics.py:648-667 | the loop splits a pending list into due and waiting slashes and drops reversed ones |
| `EnforcementPipelines.EnforcementPipeline.EvaluateAndQueue` | src/ltp/enforcement_pipeline.py:192-258 | queues a violation and reports the runtime check, made after the slash is queued |
| `EnforcementPipelines.EnforcementPipeline.CreatePendingSlash` | src/ltp/economics.py:624-646 | appends a pending slash to its node |
| `EnforcementPipelines.EnforcementPipeline.FinalizePendingSlashes` | src/ltp/economics.py:648-667 | leaves the waiting slashes on the node and returns the due ones |
| `EnforcementPipelines.EnforcementPipeline.ReversePendingSlash` | src/ltp/economics.py:669-678 | succeeds for any slash not reversed before |
| `EnforcementPipelines.EnforcementPipeline.CreateDispute` | src/ltp/enforcement_pipeline.py:428-448 | issues a ticket for the disputed amount |
| `EnforcementPipelines.EnforcementPipeline.CastDisputeVote` | src/ltp/enforcement_pipeline.py:450-459 | forwards a vote |
| `EnforcementPipelines.EnforcementPipeline.DeductStake` | src/ltp/enforcement_pipeline.py:307-311 | floors each stake at zero and adds the full amount to the total |
| `EnforcementPipelines.EnforcementPipeline.ResolveExpiredDisputes` | src/ltp/enforcement_pipeline.py:346-369 | decides every dispute past its deadline and turns upheld ones against listed nodes into pending slashes |
| `EnforcementPipelines.EnforcementPipeline.FinalizeEpoch` | src/ltp/enforcement_pipeline.py:260-344 | drains, creates, deducts, evicts and resolves in that order, and reports exact counts and amounts |
| `Vesting.ClaimReaches` | src/ltp/economics.py:135-143 | a claim raises the released amount to what has vested and never lowers it |
| `Vesting.VestedLinear` | src/ltp/economics.py:135-143 | nothing before the start, everything from the end on, in between the elapsed share rounded down |
| `Vesting.ReleasedIsVested` | src/ltp/economics.py:300-311 | over any run of grants and claims in any order the total released is what has vested by the latest claim after each grant; clean-up makes no difference |
| `Vesting.DueBounds` | src/ltp/economics.py:135-143 | never more than the rewards, and all of them once a claim comes after every end |
| `Vesting.ClaimEach` | src/ltp/economics.py:300-308 | the loop updates each entry and sums the releases |
| `Vesting.CleanedExactly` | src/ltp/economics.py:309-310 | clean-up keeps exactly the entries with something left |
| `Vesting.CleanUp` | src/ltp/economics.py:309-310 | keeps the entries with something left |
| `Vesting.NodeEconomics.ClaimVested` | src/ltp/economics.py:300-311 | claims on every entry and removes finished ones |
| `RateLimiters.RemainingExact` | src/ltp/federation.py:1409-1436 | a request is admitted exactly while quota remains, and uses up one unit |
| `RateLimiters.AnchoredWindow` | src/ltp/federation.py:1409-1428 | for any trace with a clock that does not run backwards each anchored window, past ones included, admits at most the quota |
| `RateLimiters.AtMostTwice` | src/ltp/federation.py:1409-1428 | any half-open stretch of one window length holds at most twice the quota less one |
| `RateLimiters.BoundIsMet` | src/ltp/federation.py:1409-1428 | for every quota of at least one and every window a trace meets that bound |
| `RateLimiters.FederationRateLimiter.Allow` | src/ltp/federation.py:1409-1428 | admits by the current window and anchors a new one after expiry; a refusal changes nothing |
| `RateLimiters.FederationRateLimiter.Remaining` | src/ltp/federation.py:1430-1437 | what is left, positive exactly when a request would be admitted |
| `RateLimiters.FederationRateLimiter.Reset` | src/ltp/federation.py:1439-1443 | forgets the window |

## Left out

- The optional zfec backend of the erasure coder: a different code, in an external library.
- Real cryptography: ML-KEM, ML-DSA, AEAD, HKDF and hashes appear as functions with ideal properties.
- Text is modelled by its UTF-8 bytes and floating-point timestamps by their eight bytes; addresses and hashes of deposits are taken after stripping and lower-casing.
- The hash-chain delay function, the derivation of modulus candidates and of the Fiat-Shamir candidate: hashing only; the candidates are parameters.
- PDP challenges, audit scheduling and the evaluation of slashing conditions: a verdict is an input of the pipeline.
- Nodes, pending slashes, vesting entries and accounts are records identified by position, ticket or name, so aliasing between objects is not captured; two node objects with one name are one node in the slashing model.
- `region_failure`, `restore_region` and shard expiry: they bypass the placement cache and the index.
- Signed tree heads, inclusion proofs and the Merkle tree itself: the log holds the sequence of leaves with a root function, as in section 2.1 of RFC 6962.
- A log without a store, and failures inside the store other than a refused or completed write.
- Locks and threads: every locked section is one step, and the once-only claim of the market is for sequential runs.
- The message-queue route of the slashing pipeline, commit-reveal, governance transitions, offense decay and reward formulas.
- Float formulas: correlation multipliers are real numbers, the 66% majority and the 1% bond are exact ratios.
- Commitment pricing, admission decisions, receipt logs, sessions and audit logging: quotes and bookkeeping beside the results above.
- NetworkService.CommitmentNetwork.RegisterNode: without the admission manager and the eviction history a node carries forward, which no stated result depends on.
- NetworkService.CommitmentNetwork.DistributeEncryptedShards: does not return the shard root, which commit takes as a function of the shards.
- NetworkService.CommitmentNetwork.EvictNode: without stake, endowment and withheld earnings.
- Materialization.NeverWrongContent: assumes an injective hash, since collisions would break it.
- NetworkRuns.EvictionsKeepShards: assumes full replication at the start, since placement does not always provide it.
