# CoreGuard verification model

A Dafny 4.11 model of the parts of CoreGuard on which its claims rest, with proofs of those claims.
Each file holds one module. `dafny verify dfyconfig.toml` checks the project.

| files | what they model |
|---|---|
| `ModMath`, `Limbs`, `Field`, `Curve`, `CurveLaw`, `Recover` | 256-bit arithmetic in four limbs, reduction by special form, powers, inverses and roots, affine point arithmetic on secp256k1, recovery of a public key (section 4.1.6 of SEC 1) |
| `Json`, `JsonParse`, `JsonText`, `JsonGrammar`, `JsonRoundTrip`, `StringOrder`, `Canonical`, `Commitment`, `DecisionRecord` | the JSON printer and parser, a grammar that the parser is proved against, the canonical form, tagged hashes of it, and records that carry their own hash |
| `Ledger`, `LedgerInvariant`, `LedgerTheorems`, `LedgerObject`, `X402`, `Acceptance` | the job budget ledger with nested scopes, the payment harness and the acceptance engine on top of it |
| `Merkle` | selective disclosure over a Merkle tree of any size |
| `Recovery`, `RecoveryRuns`, `RecoveryVerdicts` | the write-ahead journal and its driver under arbitrary crashes and restarts, and when each verdict is given |
| `RateLimiter` | the fixed-window limiter that forgets old buckets |
| `LowerCase`, `Forest`, `Trace`, `Replay`, `StateDelta` | lower-casing, flattening of call trees, the structural replay check, the canonical state delta |
| `Fields`, `TraceClaim`, `Verifier`, `IntentBinding`, `ReceiptMeaning` | reading JSON fields, the claim that a trace makes, the receipt verifier, and what its comparisons and verdicts mean from the fields |
| `Eip712` | the dependency closure of `encodeType` |
| `Keccak`, `KeccakRounds`, `KeccakSponge`, `KeccakBits`, `KeccakWords`, `KeccakBytes` | Keccak-256 on lanes, and FIPS 202 bit by bit |

Where the program updates things in place (limb accumulators, the parser, the ledger, the harness, the
journal, the limiter, the list of calls, the hash state), the model is a class or a method over arrays,
proved against a specification function; the theorems are about those functions and about all runs.
What a specification function means is proved in terms that do not name it: coordinates modulo p for the
group law, bits for the hash, characters for the order of texts and for JSON, fields for the verifier,
entries of the journal for the recovery verdicts.
Hashes are functions assumed to be injective. `Json.HostExists`, `Commitment.HashExists` and
`Merkle.SeparateExists` show that the assumptions can be met.
`Fermat` is proved, so of number theory only the primality of the two constants is assumed.

## Where the code and its description differ

The model follows the code. The following points are stated and proved.

- The recovery engine says that VERIFIED needs agreement of several independent providers
  (`packages/recovery/index.js:18-20`), but it counts recorded reads. Reads repeated after a restart
  count again, and so do reads that found nothing: a rejection with a falsy reason, an answer that is
  false, 0 or an empty text, a receipt without a status. Over all runs the promise holds exactly for a
  minimum of one (`RecoveryRuns.IndependenceIff`; the inputs are in `RecoveryRuns.UnmarkedFailureCounts`
  and `RecoveryRuns.StatuslessReceiptCounts`). Where every failed read is marked and statuses are 0x0 or
  0x1, it holds exactly when the list names that many different providers
  (`RecoveryRuns.IndependenceOfMarkedIff`).
- The available amount of a job counts what its scopes spend a second time, on top of their shares, so
  it can be negative although nothing was overspent (`LedgerTheorems.AvailableCountsScopesTwice`).
- A Merkle root does not determine how many fields were committed: repeating the last of an odd number
  of fields gives the same root (`Merkle.RootsEqualIff`, `Merkle.RepeatedLastField`).
- `encodeType` strips one empty pair of brackets from a field type and does not expand the domain type,
  so it can miss structs that EIP-712 requires (`Eip712.StandardIff`).
- The limiter agrees with one that forgets nothing, in all runs at given times, exactly when no time
  comes back into a window that was over at an earlier time at which a sweep was possible
  (`RateLimiter.PruningInvisibleIff`, with a failing run in `RateLimiter.PruningVisibleWhenClockRunsBack`);
  a clock that does not run backwards is enough. Over sliding intervals it admits up to 2*max - 1
  requests, and this is reached.
- The replay check says that no nested frame may report more gas than its parent
  (`packages/replay/index.js:17-19`); the code compares frames only with the transaction, so it accepts
  a root that reports 0 and a child that reports 1 (`Replay.ChildAboveParentAccepted`). All valid plans
  of a transaction respect the rule exactly when it used no gas or has no valid plan
  (`Replay.NestedGasIff`).
- Decision records with different content are said never to claim one reference
  (`packages/firewall/decision-record.js:11-12`). Canonicalization lowers strings that start with 0x, so
  this holds up to their case (`DecisionRecord.RefBindsContent`); two records that differ in the case of
  an address carry one reference (`DecisionRecord.CaseIsNotBound`).
- The harness reserves before it signs, so no signature is without a reservation
  (`docs/playground/x402.js:174-183`, `X402.SignedIffReserved`). A reservation can be without a signature:
  only a missing secret is refused, and with an empty one the harness reserves and then throws
  (`X402.EmptySecretReserves`; the exact condition is in `X402.NothingReservedUnsignedIff`).


## Model

| member | source | states |
|---|---|---|
| Limbs.Ge | packages/independent-verifier/rust/src/secp.rs:78-85 | true exactly when the first number is at least the second, as 256-bit integers |
| Limbs.Addc | packages/independent-verifier/rust/src/secp.rs:87-96 | limbs plus carry times 2^256 are the exact sum |
| Limbs.SubBorrow | packages/independent-verifier/rust/src/secp.rs:98-113 | limbs minus borrow times 2^256 are the exact difference |
| Limbs.AddWordAt | packages/independent-verifier/rust/src/secp.rs:143-152 | adds a 128-bit word at a limb position of the accumulator in place, exactly, whenever the sum fits in 512 bits: the carry that the debug assertion guards against never occurs |
| Limbs.MulFull | packages/independent-verifier/rust/src/secp.rs:154-163 | the 512-bit accumulator holds the exact product of any two 256-bit numbers |
| Limbs.ValInjective | packages/independent-verifier/rust/src/secp.rs:271-277 | equal numbers have equal limbs, so comparing limb arrays compares numbers |
| Field.Moduli | packages/independent-verifier/rust/src/secp.rs:10-26 | the constants P, N, C_P and C_N denote the prime and the order of the curve and their distances from 2^256 |
| Field.NegMod | packages/independent-verifier/rust/src/secp.rs:115-119 | 2^256 minus the operand, modulo 2^256 |
| Field.AddMod | packages/independent-verifier/rust/src/secp.rs:121-131 | the sum modulo m for reduced operands, and what one subtraction gives for all others |
| Field.SubMod | packages/independent-verifier/rust/src/secp.rs:133-141 | the difference modulo m for reduced operands, and what adding the modulus once in wrapping words gives for all others |
| Field.FoldLimb | packages/independent-verifier/rust/src/secp.rs:176-187 | folding limb i with 2^256 = c (mod m) changes the accumulator by exactly that fold |
| Field.FoldKeepsResidue | packages/independent-verifier/rust/src/secp.rs:166-188 | replacing a multiple of high by the fold keeps the residue, never grows the number and never drives it below zero |
| Field.FoldedKeepsResidue | packages/independent-verifier/rust/src/secp.rs:166-188 | the same for limb i of the accumulator and either modulus |
| Field.FoldStep | packages/independent-verifier/rust/src/secp.rs:166-189 | each fold lowers the bound on the accumulator, so that four passes leave it below 2^256 |
| Field.FoldPass | packages/independent-verifier/rust/src/secp.rs:169-188 | one pass keeps the residue and brings the accumulator under the next bound |
| Field.Reduce8 | packages/independent-verifier/rust/src/secp.rs:165-202 | for every 512-bit input the high limbs clear within the 12 passes and the result is the remainder modulo m |
| Field.DropBelow | packages/independent-verifier/rust/src/secp.rs:190-201 | at most eight subtractions bring the folded number below m |
| Field.MulMod | packages/independent-verifier/rust/src/secp.rs:204-207 | exactly a*b mod m, below m, for all 256-bit operands and both moduli |
| Field.BitOfNumber | packages/independent-verifier/rust/src/secp.rs:211-218 | the bit read by shifting within a limb is the bit of the number |
| Field.PowMod | packages/independent-verifier/rust/src/secp.rs:209-220 | base^exp mod m for every 256-bit exponent |
| Field.InvMod | packages/independent-verifier/rust/src/secp.rs:222-224 | for a prime modulus that does not divide x, the result times x is 1 modulo m |
| Field.Shr2 | packages/independent-verifier/rust/src/secp.rs:226-235 | division by four |
| ModMath.Fermat | packages/independent-verifier/rust/src/secp.rs:222-224 | Fermat's theorem, from primality alone: a^(p-1) = 1 (mod p) when p does not divide a |
| Curve.AddOnCurve | packages/independent-verifier/rust/src/secp.rs:248-288 | the group law maps reduced points of the curve to reduced points of the curve or infinity, for a prime p |
| Curve.AddCommutes | packages/independent-verifier/rust/src/secp.rs:266-288 | swapping the summands does not change the sum |
| Curve.AddInfinityIffMirror | packages/independent-verifier/rust/src/secp.rs:266-288 | the sum is infinity exactly for a point and its mirror image |
| Curve.CurveIdentity | packages/independent-verifier/rust/src/secp.rs:279-285 | the curve equation at the third point of a line, as an identity of integers |
| CurveLaw.ChordSum | packages/independent-verifier/rust/src/secp.rs:278-287 | the sum of two points with different x is the one reduced point (x, y) with (x + x1 + x2)(x2 - x1)^2 = (y2 - y1)^2 and (-y - y1)(x2 - x1) = (y2 - y1)(x - x1) modulo p, and no other |
| CurveLaw.TangentSum | packages/independent-verifier/rust/src/secp.rs:248-264 | the double is the one reduced point (x, y) with (x + 2 x1)(2 y1)^2 = (3 x1^2)^2 and (-y - y1)(2 y1) = 3 x1^2 (x - x1) modulo p, and no other |
| CurveLaw.AddNeutral | packages/independent-verifier/rust/src/secp.rs:266-272 | infinity is neutral on both sides |
| CurveLaw.MultipleLadder | packages/independent-verifier/rust/src/secp.rs:290-299 | zero times a point is infinity, once is the point, 2k times is the double of k times, and 2k + 1 times is one more point |
| Recover.IsOnCurve | packages/independent-verifier/rust/src/secp.rs:241-246 | true exactly when y^2 = x^3 + 7 modulo P |
| Recover.Divide | packages/independent-verifier/rust/src/secp.rs:259 | numerator times inverse is the unique quotient modulo P |
| Recover.ThirdPoint | packages/independent-verifier/rust/src/secp.rs:282-285 | the third intersection of the line, mirrored |
| Recover.PointDbl | packages/independent-verifier/rust/src/secp.rs:248-264 | denotes the sum of the point with itself, and is reduced and on the curve |
| Recover.PointAdd | packages/independent-verifier/rust/src/secp.rs:266-288 | denotes the sum of the points in all cases, infinity included, and is reduced and on the curve |
| Recover.ScalarMul | packages/independent-verifier/rust/src/secp.rs:290-299 | denotes the multiple for every 256-bit scalar, and is reduced and on the curve |
| Recover.RootOfSquare | packages/independent-verifier/rust/src/secp.rs:329-337 | z^((P+1)/4) squares to z exactly when z is a square modulo P |
| Recover.LiftX | packages/independent-verifier/rust/src/secp.rs:329-342 | fails exactly when x^3 + 7 is not a square modulo P; otherwise gives the root of the wanted parity |
| Recover.GeneratorOnCurve | packages/independent-verifier/rust/src/secp.rs:28-40 | the generator is reduced and on the curve |
| Recover.GeneratorValue | packages/independent-verifier/rust/src/secp.rs:28-40 | the coordinates of the generator are those of section 2.4.1 of SEC 2 |
| Recover.RecoveredUnique | packages/independent-verifier/rust/src/secp.rs:329-356 | digest, r, s and parity determine the recovered point, the scalars and the key, over any odd prime field and prime order |
| Recover.RecoverPublicKey | packages/independent-verifier/rust/src/secp.rs:306-360 | the exact condition of every error, infinity included; the off-curve error and the r-above-field error never occur; a key is u1*G + u2*R with the right scalars |
| Recover.KeyUnique | packages/independent-verifier/rust/src/secp.rs:329-356 | no two keys are recovered from one digest, r, s and parity |
| Recover.RecoversIff | packages/independent-verifier/rust/src/secp.rs:329-356 | a key is recovered exactly when there are y and u1, u2 with y^2 = r^3 + 7 modulo P, the parity of the recovery id, u1 r + e = 0 and u2 r = s modulo the order, and the key is u1*G + u2*(r, y) |
| Json.SerString | packages/verifier-c/verifier_c/_json.py:446-467 | appends the quoted and escaped string, one character at a time |
| Json.SerValue | packages/verifier-c/verifier_c/_json.py:470-496 | appends the compact text of the value to the output |
| Json.Serialize | packages/verifier-c/verifier_c/_json.py:499-503 | the compact text of the value |
| Json.FmtF64 | packages/verifier-c/verifier_c/_json.py:98-113 | on safe integers, stripping zeros and expanding again gives the plain decimal text |
| Json.Split | packages/verifier-c/verifier_c/_json.py:64-85 | sign, significant digits and exponent of the decimal text of an integer |
| Json.DecInjective | packages/verifier-c/verifier_c/_json.py:98-113 | the decimal text of an integer determines it |
| JsonParse.Parser.SkipSpaces | packages/verifier-c/verifier_c/_json.py:165-168 | leaves the input after the white space |
| JsonParse.Parser.ParseLiteral | packages/verifier-c/verifier_c/_json.py:198-202 | agrees with the specification of literals, errors included |
| JsonParse.Parser.ParseString | packages/verifier-c/verifier_c/_json.py:258-309 | agrees with the specification of strings, escapes and errors included |
| JsonParse.Parser.ParseNumber | packages/verifier-c/verifier_c/_json.py:311-356 | agrees with the specification of number tokens |
| JsonParse.Parser.ParseValue | packages/verifier-c/verifier_c/_json.py:170-196 | agrees with the specification of values, the depth cap included |
| JsonParse.Parser.ParseArray | packages/verifier-c/verifier_c/_json.py:237-256 | agrees with the specification of arrays |
| JsonParse.Parser.ParseObject | packages/verifier-c/verifier_c/_json.py:204-235 | agrees with the specification of objects; a repeated key keeps its place and takes the last value |
| JsonParse.ParseJson | packages/verifier-c/verifier_c/_json.py:368-380 | the whole parser agrees with the specification of documents |
| JsonParse.PutKeepsDistinct | packages/independent-verifier/rust/src/json.rs:22-30 | inserting keeps keys distinct |
| JsonParse.PutMembers | packages/independent-verifier/rust/src/json.rs:22-30 | after setting a key of an object, its members are exactly the new one and those with other keys |
| JsonRoundTrip.ValueReads | packages/verifier-c/verifier_c/_json.py:170-356 | printed text followed by anything that ends a token reads back as the value, with the rest left |
| JsonRoundTrip.ParseInvertsSerialize | packages/verifier-c/verifier_c/_json.py:368-380 | parsing the printed text gives the value exactly when it is within the depth cap, and the depth error otherwise |
| JsonRoundTrip.SerInjective | packages/verifier-c/verifier_c/_json.py:470-503 | values with the same text are equal |
| JsonRoundTrip.ParsedIsSound | packages/verifier-c/verifier_c/_json.py:170-256 | what the parser accepts has distinct keys and nesting within the cap |
| JsonGrammar.DocumentIff | packages/verifier-c/verifier_c/_json.py:170-380 | for every text: the parser accepts it and gives a value exactly when the text denotes that value in a grammar of JSON, stated by what texts consist of, within the depth cap |
| JsonGrammar.OneReading | packages/verifier-c/verifier_c/_json.py:170-380 | a text denotes at most one value |
| JsonText.NumberIs | packages/verifier-c/verifier_c/_json.py:311-356 | what is read as a number is an integer, then perhaps a fraction, then perhaps an exponent, and it is converted as a whole |
| JsonText.NumberParses | packages/verifier-c/verifier_c/_json.py:311-356 | every such token is read when nothing follows that would continue it |
| JsonText.EscapeRead | packages/verifier-c/verifier_c/_json.py:276-291 | the short escapes and what each stands for |
| JsonText.PlainRead | packages/verifier-c/verifier_c/_json.py:304-309 | every other character stands for itself, and a raw control is refused |
| JsonText.UnicodeRead | packages/verifier-c/verifier_c/_json.py:292-301 | four hexadecimal digits give a code unit; half of a surrogate pair becomes U+FFFD |
| JsonText.SpacesSkipped | packages/verifier-c/verifier_c/_json.py:165-168 | exactly the spaces, tabs, line feeds and carriage returns at the front are skipped |
| JsonText.EscapeText | packages/verifier-c/verifier_c/_json.py:446-467 | how each character is printed inside a string |
| JsonText.DecimalReads | packages/verifier-c/verifier_c/_json.py:98-113 | the digits printed for an integer denote it in base ten |
| JsonText.ElemsJoin | packages/verifier-c/verifier_c/_json.py:479-485 | elements are printed in order with commas between them |
| JsonText.MembersJoin | packages/verifier-c/verifier_c/_json.py:486-494 | so are members |
| JsonText.ValueText | packages/verifier-c/verifier_c/_json.py:470-496 | the literals, quotes, brackets and braces of each kind of value |
| Canonical.Canonicalize | packages/verifier-c/verifier_c/_canon.py:77-120 | the compact text of the normal form, or the first refusal in printing order |
| Canonical.CanonElems | packages/verifier-c/verifier_c/_canon.py:102-108 | the elements joined by commas, or the first refusal |
| Canonical.CanonMembers | packages/verifier-c/verifier_c/_canon.py:109-119 | the members by ascending key joined by commas, or the first refusal |
| Canonical.NormalIsDict | packages/verifier-c/verifier_c/_canon.py:109-119 | normal forms have distinct keys in every object |
| Canonical.AcceptedIffSafe | packages/verifier-c/verifier_c/_canon.py:82-101 | a value is accepted exactly when every number in it is a safe integer |
| Canonical.NormalTwice | packages/verifier-c/verifier_c/_canon.py:77-120 | normalizing twice is normalizing once |
| Canonical.OrderInsensitive | packages/verifier-c/verifier_c/_canon.py:109-119 | the order of members does not reach the normal form |
| StringOrder.BeforeIff | packages/verifier-c/verifier_c/_canon.py:112 | one text comes before another exactly when they agree up to a place where the first ends or has the smaller character |
| Canonical.CanonicalKeysAscend | packages/verifier-c/verifier_c/_canon.py:109-119 | in what canonical text parses to, the keys of every object stand in this order, character by character |
| Canonical.NormalMeans | packages/canonical/index.js:37-56 | texts that start with 0x are lowered and no others, and lists keep their order |
| Canonical.NormalMemberIff | packages/canonical/index.js:57-61 | an object keeps exactly its keys, each with the normal form of its value |
| Canonical.CanonicalParses | packages/canonical/index.js:37-63 | parsing canonical text gives the normal form exactly when the value is within the depth cap |
| Canonical.CanonicalDetermines | packages/canonical/index.js:37-63 | two values have one canonical text exactly when they have one normal form |
| Canonical.CanonicalIdempotent | packages/canonical/index.js:37-63 | canonicalizing what the canonical text parses to changes nothing |
| Canonical.HashBindsNormalForm | packages/verifier-c/verifier_c/_canon.py:132-137 | under one tag, equal hashes are equal normal forms |
| Commitment.DomainsDisjoint | packages/canonical/index.js:69-80 | objects hashed under different tags never share a hash |
| Commitment.NormalFields | packages/canonical/index.js:57-61 | objects with one normal form have the same keys, with values of one normal form |
| Commitment.CommittedField | packages/verifier/index.js:175-177 | records with one identity that commit to hashes commit to the same ones |
| DecisionRecord.FrozenRefRederives | packages/firewall/decision-record.js:55-71 | a frozen record re-derives its own reference; freezing fails exactly when the record has none |
| DecisionRecord.ReferenceIs | packages/firewall/decision-record.js:51-71 | the reference is the hash of the tag CGEP/1:FW-DECISION and the canonical text of the other fields, and is added to them as decisionRef |
| DecisionRecord.RefBindsContent | packages/firewall/decision-record.js:9-12 | two records carry one reference exactly when their other fields have one normal form |
| DecisionRecord.CaseIsNotBound | packages/firewall/decision-record.js:9-12 | two different records that carry one reference, under any host that lowers the one address to the other |
| DecisionRecord.LoweringHostExists | packages/firewall/decision-record.js:9-12 | there is such a host |
| LedgerObject.BudgetLedger.JobBounded | docs/playground/ledger.js:132-167 | of every object in use: the counters of a job are the sums over its reservations and fit in its ceiling |
| LedgerObject.BudgetLedger.ScopeBounded | docs/playground/ledger.js:170-243 | of every object in use: a scope and everything below it hold no more than its share |
| LedgerObject.BudgetLedger.OpenJob | docs/playground/ledger.js:136-167 | the new state and answer of the call, exceptions included |
| LedgerObject.BudgetLedger.OpenScope | docs/playground/ledger.js:179-243 | the new state and answer of the call, every refusal included |
| LedgerObject.BudgetLedger.Reserve | docs/playground/ledger.js:258-314 | the new state and answer of the call, every refusal included |
| LedgerObject.BudgetLedger.Commit | docs/playground/ledger.js:317-337 | the new state and answer of the call, every refusal included |
| LedgerObject.BudgetLedger.Release | docs/playground/ledger.js:340-356 | the new state and answer of the call, every refusal included |
| LedgerObject.BudgetLedger.Meter | docs/playground/ledger.js:365-371 | the new state and the whole answer of the call |
| LedgerObject.BudgetLedger.Hold | docs/playground/ledger.js:378-399 | the new state and answer of the call, every refusal included |
| LedgerObject.BudgetLedger.Disposition | docs/playground/ledger.js:410-460 | the new state and answer of the call, every refusal included |
| LedgerInvariant.StepKeepsInv | docs/playground/ledger.js:136-460 | every call keeps the invariant: counters are sums over reservations and shares, and fit |
| LedgerInvariant.RunInv | docs/playground/ledger.js:112-460 | every reachable ledger satisfies the invariant |
| LedgerTheorems.ForestSpend | docs/playground/ledger.js:170-243 | in a forest whose nodes spend within their shares, the whole spends within the shares of its tops |
| LedgerTheorems.SubtreeWithinShare | docs/playground/ledger.js:170-243 | in every run, a scope and everything below it together never hold more than its share |
| LedgerTheorems.JobWithinCeiling | docs/playground/ledger.js:132-167 | in every run, the reserved and committed counters equal the sums over the reservations and fit in the ceiling |
| LedgerTheorems.RefusalChangesNothing | docs/playground/ledger.js:253-258 | a call that is refused or throws leaves the state unchanged |
| LedgerTheorems.MeterIsAtomic | docs/playground/ledger.js:358-371 | metering succeeds exactly when reserving does, and then adds one committed reservation |
| LedgerTheorems.ReserveAcceptedIff | docs/playground/ledger.js:258-289 | a cost is accepted exactly when it is a positive integer that fits in what its scope or job has left; the closed-scope refusal never occurs |
| LedgerTheorems.HoldAcceptedIff | docs/playground/ledger.js:378-399 | an amount is held exactly when nothing is held and it is a positive integer that fits in the ceiling beside what is committed and reserved; the condition of each refusal |
| LedgerTheorems.DispositionAcceptedIff | docs/playground/ledger.js:410-460 | a part of what is held moves exactly when it is a positive integer within it, and only to where it is sent |
| LedgerTheorems.OpenScopeAcceptedIff | docs/playground/ledger.js:179-243 | over all runs, a scope opens exactly when its name is new, its parent exists and its share is a positive integer that fits in what is left |
| LedgerTheorems.SettledStaysSettled | docs/playground/ledger.js:317-356 | a reservation keeps its job, scope, amount and source for ever, and its state once settled |
| LedgerTheorems.EscrowConserved | docs/playground/ledger.js:373-460 | held plus released plus refunded is the sum of all successful holds |
| LedgerTheorems.AvailableCountsScopesTwice | docs/playground/ledger.js:249-251 | the reported available amount of a job is lower than what is left by exactly what its scopes spend |
| LedgerTheorems.AvailableAfterScopeSpend | docs/playground/ledger.js:249-251 | a family of runs in which that amount is negative although nothing was overspent |
| X402.PlayKeepsBijection | docs/playground/x402.js:184-279 | through every run, challenges that were accepted and not settled and open reservations correspond one to one and the job stays within its ceiling |
| X402.SignedIffReserved | docs/playground/x402.js:184-234 | the amount is reserved exactly when the ledger accepts the cost of a challenge that holds nothing and the secret is not missing; a signature comes with it exactly when one can be computed; otherwise nothing changes |
| X402.NothingReservedUnsignedIff | docs/playground/x402.js:184-234 | whatever is reserved comes with a signature, at all desks, exactly when the secret is missing, or a signature can be computed, or the amount is never accepted |
| X402.EmptySecretReserves | docs/playground/x402.js:184-234 | with an empty secret an amount is reserved and signing throws |
| X402.SettleCloses | docs/playground/x402.js:236-279 | settling closes the reservation, as committed when settled and as released otherwise, except that nothing changes where checking a signature throws |
| X402.SettleVerdictIff | docs/playground/x402.js:247-279 | the exact condition of each of the six answers, from the challenge, the secret, the envelope and the settlement |
| X402.SettleReservationKeeps | docs/playground/x402.js:236-245 | commit or release of a held challenge always succeeds and removes just it |
| X402.ForeignKeeps | docs/playground/x402.js:184-245 | other calls on the ledger do not disturb the correspondence |
| X402.Harness.Sign | docs/playground/x402.js:184-234 | the new harness and ledger state and the answer |
| X402.Harness.SettleReservation | docs/playground/x402.js:236-245 | the new harness and ledger state |
| X402.Harness.Settle | docs/playground/x402.js:247-279 | the new harness and ledger state and the answer |
| Acceptance.BudgetCheckNeverFails | docs/playground/acceptance.js:179-187 | on every reachable ledger the budget check never fails, and passes exactly when the job exists |
| Acceptance.CheckIff | docs/playground/acceptance.js:140-209 | when each kind of check passes and when it fails |
| Acceptance.EvaluateAcceptance | docs/playground/acceptance.js:220-274 | the verdict over all checks, and the disposition it applies to the ledger; no budget check fails |
| Acceptance.DispositionMovesAll | docs/playground/acceptance.js:240-254 | acceptance releases all that is held, rejection refunds all, and unknown leaves all locked |
| Acceptance.JudgmentNeverAccepted | docs/playground/acceptance.js:202-207 | a spec with a human-judgement check is never accepted |
| Acceptance.BuildAcceptanceSpec | docs/playground/acceptance.js:92-138 | the exact condition of every refusal, in order, and the basis that is declared |
| Merkle.ComputeLayerUp | packages/selective-disclosure/index.js:28-36 | the layer above, with an odd last hash paired with itself |
| Merkle.Commit | packages/selective-disclosure/index.js:40-47 | no root for no fields; otherwise the root and all layers |
| Merkle.Prove | packages/selective-disclosure/index.js:51-65 | nothing for an index outside the fields; otherwise the path of siblings |
| Merkle.Verify | packages/selective-disclosure/index.js:70-90 | the exact verdict in every case and for every claimed index; VERIFIED exactly when the recomputed root is the given one |
| Merkle.PathFolds | packages/selective-disclosure/index.js:51-90 | completeness: folding a field with its path gives the committed root |
| Merkle.Soundness | packages/selective-disclosure/index.js:70-90 | a disclosed value that folds to a committed root, with any siblings on any sides, is one of the fields, and the path has the depth of the tree |
| Merkle.VerifiedField | packages/selective-disclosure/index.js:70-90 | for every claimed index, a value that verifies is one of the fields, and the one at the index when that is in range |
| Merkle.RootDeterminesFields | packages/selective-disclosure/index.js:40-47 | field lists of one length with one root are equal |
| Merkle.RootsEqualIff | packages/selective-disclosure/index.js:28-47 | for all lists, equal roots are equal completions by repeating odd tails |
| Merkle.RepeatedLastField | packages/selective-disclosure/index.js:28-36 | three fields and the same with the last repeated have one root |
| Merkle.CompletionMeans | packages/selective-disclosure/index.js:28-47 | the completed list starts with the fields in order, repeats only fields, and has the least power of two as its length; the root is that of the complete tree over the fields when their number is that power |
| Merkle.TurnsMean | packages/selective-disclosure/index.js:70-90 | on which side the hash goes at each step: by the binary places of the claimed index, rounded towards zero |
| Recovery.RecoveryJournal.Load | packages/recovery/index.js:95-105 | every persisted journal loads again, whole |
| Recovery.RecoveryJournal.Push | packages/recovery/index.js:122-141 | appends exactly one entry, or refuses after a verdict |
| Recovery.RunRecovery | packages/recovery/index.js:423-452 | what an attempt that stops after any number of writes leaves in the journal, and that a finished attempt returns the recorded verdict |
| RecoveryRuns.JournalShape | packages/recovery/index.js:246-275 | over all crashes and restarts: the intent, then the result, then reads of that transaction, then at most one verdict |
| RecoveryRuns.JournalGrows | packages/recovery/index.js:260-275 | later attempts only append, so the recorded transaction hash never changes |
| RecoveryRuns.VerdictIsFinal | packages/recovery/index.js:424-428 | after a verdict every later attempt leaves the journal as it is |
| RecoveryRuns.VerdictIsLast | packages/recovery/index.js:404-416 | there is at most one verdict and it is last |
| RecoveryRuns.VerifiedMeansAgreement | packages/recovery/index.js:309-389 | a VERIFIED journal holds no unsuccessful, errored or disagreeing read, those before crashes included, and at least minProviders reads; if failures are marked and statuses are 0x0 or 0x1, every provider of the deciding attempt was read successfully |
| RecoveryVerdicts.VerdictMeans | packages/recovery/index.js:300-389 | over all crashes and restarts, the exact condition of each of the four verdicts by what the journal holds: a changed intent, a failed receipt, no successful one, the number of reads, absent events, errors and disagreement |
| RecoveryVerdicts.VerifiedHolds | packages/recovery/index.js:325-333 | VERIFIED implies that the recorded intent is the calldata hash of the attempt that decided and that every successful receipt has the expected events |
| RecoveryVerdicts.OtherCalldata | packages/recovery/index.js:325-333 | a complete restart with other calldata, after a sent transaction, is CONTRADICTED whatever the providers answer |
| RecoveryVerdicts.EntriesSourced | packages/recovery/index.js:246-298 | every entry of every reachable journal comes from an attempt: its calldata, its broadcast, or the answer of one of its providers about the recorded transaction |
| RecoveryVerdicts.EveryAnswerRecorded | packages/recovery/index.js:423-452 | before a verdict every provider of the deciding attempt is asked and its answer recorded as it was given |
| RecoveryRuns.IndependenceIff | packages/recovery/index.js:346-353 | over all runs of a configuration, VERIFIED rests on at least minProviders different providers exactly when minProviders is at most 1 |
| RecoveryRuns.OneProviderSuffices | packages/recovery/index.js:281-298 | for every list and every minimum above one, a run that is VERIFIED on one provider while all others fail unmarked or answer without a status |
| RecoveryRuns.IndependenceOfMarkedIff | packages/recovery/index.js:346-353 | where statuses are 0x0 or 0x1 and every failed read is marked, it does exactly when that many different providers are configured |
| RecoveryRuns.UnmarkedFailureCounts | packages/recovery/index.js:281-298 | one attempt with two providers, one of which rejects without a reason, is VERIFIED on the other alone |
| RecoveryRuns.StatuslessReceiptCounts | packages/recovery/index.js:320-324 | the same when one answers with a receipt that has neither status |
| RecoveryRuns.RestartsReachVerified | packages/recovery/index.js:346-353 | with any non-empty provider list, restarting often enough reaches VERIFIED, and on the first provider alone if the others give quiet answers |
| RateLimiter.CreateRateLimiter | packages/delivery/http.js:195-204 | refused exactly when an option is out of range |
| RateLimiter.RateLimiter.Sweep | packages/delivery/http.js:205 | deletes exactly the expired buckets |
| RateLimiter.RateLimiter.Check | packages/delivery/http.js:215-229 | the answer and the new buckets |
| RateLimiter.AnswerMeans | packages/delivery/http.js:223-229 | when a request is admitted, what remains after it, and the seconds until the window ends, rounded up |
| RateLimiter.WindowMeans | packages/delivery/http.js:216-228 | a window starts with the request that opens it, lasts for the configured time and counts what it admits; other keys are not touched |
| RateLimiter.PruningInvisibleIff | packages/delivery/http.js:215-229 | all runs at given times get the answers of a limiter that never forgets exactly when no time comes back into a window that was over at an earlier time at which a sweep was possible |
| RateLimiter.PruningInvisible | packages/delivery/http.js:215-229 | so they do with a clock that does not run backwards |
| RateLimiter.PruningVisibleWhenClockRunsBack | packages/delivery/http.js:217-222 | a run with a clock that runs backwards in which the answers differ |
| RateLimiter.MemoryBound | packages/delivery/http.js:185-186 | after a request there are at most pruneAt buckets, or only live ones |
| RateLimiter.SlidingBound | packages/delivery/http.js:215-229 | in every half-open interval of the window length a key is admitted at most 2*max - 1 times |
| RateLimiter.SlidingBoundReached | packages/delivery/http.js:215-229 | for every configuration that bound is reached |
| RateLimiter.RefusedIffWindowFull | packages/delivery/http.js:224-226 | a request is refused exactly when max requests were admitted since the start of a window that is still open |
| Forest.FlatLegal | packages/trace/index.js:63-79 | flattened forests obey the depth rule |
| Forest.FlatOfBuild | packages/replay/index.js:82-114 | every list that obeys the depth rule is the preorder of the forest read from it |
| Forest.BuildOfFlat | packages/trace/index.js:63-79 | reading back a flattened forest gives that forest |
| Forest.LegalIffPreorder | packages/replay/index.js:82-114 | a list obeys the depth rule exactly when it is the preorder of one forest |
| Trace.Normalizer.Flatten | packages/trace/index.js:63-79 | pushes the preorder of a frame, or stops at a malformed integer |
| Trace.NormalizeCalls | packages/trace/index.js:59-88 | the preorder of all frames with depths, or failure exactly when an integer is malformed |
| Trace.FlattenedIffLegal | packages/trace/index.js:59-88 | the lists that flattening produces are exactly the lists of normalized calls that obey the depth rule |
| Trace.CallMeans | packages/trace/index.js:59-88 | what each field of a normalized call is taken from; REVERT exactly for a frame with an error |
| Replay.PlanTraceReplay | packages/replay/index.js:62-133 | the exact list of errors; valid exactly when the claim is coherent |
| Replay.ErrorFreeIffCoherent | packages/replay/index.js:75-133 | no errors exactly when integers are canonical, depths are legal, root frames match and gas fits |
| Replay.ErrorMeans | packages/replay/index.js:75-131 | each error is reported exactly when what it says is so |
| Replay.PrevMeans | packages/replay/index.js:91-106 | the depth a frame is compared with is that of the last frame before it that can be read |
| Replay.CoherentIsOneForest | packages/replay/index.js:82-114 | the frames of a valid plan are the preorder of exactly one call forest |
| Replay.FlattenedValidIff | packages/replay/index.js:116-131 | a flattened trace is valid exactly when its outermost frames match, no frame exceeds the transaction gas, and that is within any limit |
| Replay.NestedGasIff | packages/replay/index.js:17-19 | all valid plans of a transaction keep nested gas within the caller exactly when it used no gas or has no valid plan |
| Replay.ChildAboveParentAccepted | packages/replay/index.js:127-131 | a valid plan in which a child reports more gas than its parent |
| StateDelta.ComputeCanonicalStateDelta | packages/trace/index.js:198-246 | per account the last balance change and all storage changes, with deltas, sorted |
| StateDelta.AccountsAscending | packages/trace/index.js:234 | accounts are strictly sorted and are exactly the addresses mentioned |
| StateDelta.SlotsAscending | packages/trace/index.js:235-237 | slots are strictly sorted and are exactly the changes of the account, when each slot changes once |
| StateDelta.OrderOfNames | packages/trace/index.js:234-237 | accounts and slots are in ascending order character by character |
| StateDelta.AccountMeans | packages/trace/index.js:198-237 | an account lists exactly its storage changes, each with the value before, the value after and after minus before, and its last balance change likewise |
| StateDelta.DeltasAddUp | packages/trace/index.js:217-230 | before plus delta is after, everywhere |
| StateDelta.OrderDoesNotMatter | packages/trace/index.js:190-197 | every permutation of the changes gives the same delta, when each account and slot changes once |
| TraceClaim.ValidPlanIsOneForest | packages/replay/index.js:62-133 | a trace in JSON with a valid plan describes exactly one call forest |
| TraceClaim.ClaimMeans | packages/replay/index.js:62-115 | which field of the trace and of its calls each part of the claim is taken from |
| Verifier.EvaluateCheckVerdict | packages/verifier/index.js:107-165 | when each verdict is given: failures dominate, then unknown levels, then gaps |
| Verifier.VerifyIntentExecutionBinding | packages/verifier/index.js:403-526 | valid exactly when no comparison disagrees, with the names of those that do; throws exactly when a side cannot be read |
| Verifier.NonceBinds | packages/verifier/index.js:469-482 | numeric nonces are compared: another number is not bound |
| Verifier.ChainBinds | packages/verifier/index.js:507-516 | numeric chain ids are compared: another number is not bound |
| Fields.FieldIff | packages/verifier-c/verifier_c/_json.py:27-31 | a field is the member under its name |
| Fields.IntegerOf | packages/verifier/index.js:442 | which integer a safe number, a boolean or a text denotes |
| IntentBinding.SpendingCap | packages/verifier/index.js:440-449 | value is a violation exactly when both sides are given and the trace moves more than the amount; throws exactly when a given side is not an integer |
| IntentBinding.Target | packages/verifier/index.js:406-415 | target is a violation exactly when both sides are texts that differ after lower-casing; throws exactly when a given side is not a text |
| IntentBinding.Signer | packages/verifier/index.js:417-426 | the same of the signer and the sender |
| IntentBinding.Selector | packages/verifier/index.js:428-438 | selector is a violation exactly when it differs, after lower-casing, from the first ten characters of the call data |
| IntentBinding.Recipient | packages/verifier/index.js:451-467 | of a transfer, the recipient is compared with characters 34 to 74 or 98 to 138 of the call data, by its selector |
| IntentBinding.RecipientOpen | packages/verifier/index.js:451-467 | without a recipient, without a transfer, or without such call data nothing is compared |
| IntentBinding.RecipientThrows | packages/verifier/index.js:558-574 | call data of which no part can be taken makes the comparison throw |
| IntentBinding.Nonce | packages/verifier/index.js:469-482 | nonce is a violation exactly when both are given and their texts differ after lower-casing |
| IntentBinding.ValidAfter | packages/verifier/index.js:484-495 | validAfter is a violation exactly when the block is before it |
| IntentBinding.ValidUntil | packages/verifier/index.js:496-505 | validUntil is a violation exactly when the block is after it |
| IntentBinding.WindowThrows | packages/verifier/index.js:484-505 | when the comparison of times throws, and that nothing is compared without a block time |
| IntentBinding.Chain | packages/verifier/index.js:507-516 | chainId is a violation exactly when both are given and their texts differ |
| IntentBinding.BoundIff | packages/verifier/index.js:518-526 | an execution is bound exactly when nothing throws and nothing is violated |
| IntentBinding.BoundMeans | packages/verifier/index.js:403-526 | a bound execution moves at most the amount, to the committed target, from the committed signer, on the committed chain, wherever both sides say something |
| Verifier.VerifyReceipt | packages/verifier/index.js:170-393 | the checks that run, in order, and the verdict over them; throws exactly when something cannot be canonicalized or read |
| Verifier.VerifiedAtL2Iff | packages/verifier/index.js:170-393 | VERIFIED at L2 exactly when all evidence is there, all hashes match, and policy, replay plan, binding, pinning and every optional claim hold |
| ReceiptMeaning.VerdictIff | packages/verifier/index.js:107-165 | at every level: INVALID exactly when something shown or declared does not hold, VERIFIED exactly when nothing does and the level has what it needs, INCONCLUSIVE for the levels that cannot be claimed |
| ReceiptMeaning.CommitsIff | packages/verifier/index.js:175-240 | a hash matches exactly when the field is the hash of the tag and the canonical text |
| ReceiptMeaning.PayloadIff | packages/verifier/index.js:174-176 | the identity of a receipt covers all its fields but the identity itself |
| ReceiptMeaning.OptionalChecksIff | packages/verifier/index.js:257-300 | when the state delta, the signature and the policy are checked, and when they hold |
| ReceiptMeaning.ThrowsIff | packages/verifier/index.js:170-393 | verification throws exactly when something hashed has no canonical text, or something read cannot be read |
| ReceiptMeaning.PinnedIff | packages/verifier/index.js:579-588 | pinned exactly when both states name the number and the hash of a block |
| ReceiptMeaning.AvailabilityIff | packages/verifier/index.js:318-350 | a trace is declared available with a provider and a positive number of frames, or unavailable with a reason |
| ReceiptMeaning.ContextIs | packages/verifier/index.js:532-553 | which fields the policy sees, and where the intent stands in for the trace |
| Verifier.VerifiedIsOneForest | packages/verifier/index.js:300-316 | a trace VERIFIED at L2 describes one call forest and no other |
| Verifier.OneReceiptOneExecution | packages/verifier/index.js:170-240 | two L2 VERIFIED results with one receipt id have canonically equal intent, policy and trace |
| Verifier.SubstitutionIsInvalid | packages/verifier/index.js:186-240 | a VERIFIED receipt shown with any canonically different intent, policy or trace is INVALID |
| Eip712.Collect | packages/evm/signer/eip712.js:56-69 | terminates on every type graph with exactly the reachable types, each once |
| Eip712.EncodeType | packages/evm/signer/eip712.js:55-81 | the text of the primary type, then those of exactly the other reachable types in strictly ascending order |
| Eip712.DependenciesUnique | packages/evm/signer/eip712.js:70-72 | the list of dependencies is determined |
| Eip712.DependenciesPrecede | packages/evm/signer/eip712.js:70-72 | the dependencies come in ascending order character by character |
| Eip712.EdgeIff | packages/evm/signer/eip712.js:58-69 | what is followed: from a struct other than the domain to the struct that is the type of a field, or of its elements |
| Eip712.SignaturesJoin | packages/evm/signer/eip712.js:73-79 | each struct stands as its name and its fields in parentheses, in the order of the list |
| Eip712.ParamsJoin | packages/evm/signer/eip712.js:73-79 | fields are separated by commas |
| Eip712.StandardIff | packages/evm/signer/eip712.js:58-69 | the types found are those that the standard asks for exactly when every reference that is skipped leads to a type found anyway |
| Eip712.FixedArrayMissed | packages/evm/signer/eip712.js:63-64 | a fixed-size array of structs whose struct is not found |
| Keccak.Tables | packages/independent-verifier/rust/src/keccak.rs:34-40 | the rotation and lane tables follow the walk of section 3.2.2 of FIPS 202 and visit every lane but one |
| Keccak.RhoFollowsWalk | packages/independent-verifier/rust/src/keccak.rs:103-110 | the offsets are those of section 3.2.2: (t+1)(t+2)/2 for the lane reached after t steps |
| Keccak.RoundConstants | packages/independent-verifier/rust/src/keccak.rs:7-32 | all 24 round constants are the outputs of the shift register of section 3.2.5 |
| KeccakRounds.ThetaInPlace | packages/independent-verifier/rust/src/keccak.rs:93-102 | theta on the old lanes |
| KeccakRounds.WalkEnds | packages/independent-verifier/rust/src/keccak.rs:103-110 | after 24 steps the walk has carried out rho and pi |
| KeccakRounds.RhoPiInPlace | packages/independent-verifier/rust/src/keccak.rs:103-110 | pi after rho on the old lanes, by carrying one lane along the walk |
| KeccakRounds.ChiInPlace | packages/independent-verifier/rust/src/keccak.rs:111-119 | chi on the old lanes, row by row through a buffer |
| KeccakRounds.KeccakFInPlace | packages/independent-verifier/rust/src/keccak.rs:90-123 | 24 rounds of iota, chi, pi, rho and theta |
| KeccakWords.RotatedBit | packages/independent-verifier/rust/src/keccak.rs:98-108 | rotating by n moves bit i of a word to place i + n modulo 64 |
| KeccakWords.XorBit | packages/independent-verifier/rust/src/keccak.rs:96-101 | exclusive-or is taken bit by bit |
| KeccakWords.AndNotBit | packages/independent-verifier/rust/src/keccak.rs:117 | so is the product with the complement |
| KeccakBits.ThetaBits | packages/independent-verifier/rust/src/keccak.rs:93-102 | theta on lanes is theta on the bits A[x, y, z] of section 3.2.1 of FIPS 202 |
| KeccakBits.RhoBits | packages/independent-verifier/rust/src/keccak.rs:103-110 | rho on lanes is rho on bits (section 3.2.2) |
| KeccakBits.PiBits | packages/independent-verifier/rust/src/keccak.rs:103-110 | pi on lanes is pi on bits (section 3.2.3) |
| KeccakBits.ChiBits | packages/independent-verifier/rust/src/keccak.rs:111-119 | chi on lanes is chi on bits (section 3.2.4) |
| KeccakBits.IotaBits | packages/independent-verifier/rust/src/keccak.rs:121 | iota on lanes is iota on bits (section 3.2.5) |
| KeccakWords.ConstantBits | packages/independent-verifier/rust/src/keccak.rs:7-32 | bit 2^j - 1 of the constant of round t is output j + 7t of the shift register, and all other bits are zero |
| KeccakWords.OffsetsFollowWalk | packages/independent-verifier/rust/src/keccak.rs:34-40 | the offset of the lane reached after t steps is (t+1)(t+2)/2 modulo 64 |
| KeccakWords.KeccakFBits | packages/independent-verifier/rust/src/keccak.rs:90-123 | the permutation of words is the 24 rounds of FIPS 202 on bits |
| KeccakSponge.Absorb | packages/independent-verifier/rust/src/keccak.rs:79-88 | exclusive-or of the block into 17 lanes, then the permutation |
| KeccakSponge.ExtractPacked | packages/independent-verifier/rust/src/keccak.rs:80-86 | packing bytes into a lane loses nothing |
| KeccakSponge.FeedAll | packages/independent-verifier/rust/src/keccak.rs:46-56 | after any number of bytes the state has absorbed all full blocks and the buffer holds the rest |
| KeccakSponge.FoldLast | packages/independent-verifier/rust/src/keccak.rs:48-59 | over the padded message, folding blocks is folding the full ones and then the padded rest |
| KeccakSponge.PaddedInjective | packages/independent-verifier/rust/src/keccak.rs:57-58 | the padded message determines the message |
| KeccakSponge.SqueezeLanes | packages/independent-verifier/rust/src/keccak.rs:61-76 | the 32 bytes are those of the first four lanes, least significant first |
| KeccakSponge.Keccak256 | packages/independent-verifier/rust/src/keccak.rs:42-77 | byte-at-a-time hashing is the fold of absorbing over the padded message, for every length |
| KeccakBytes.BlockBytes | packages/independent-verifier/rust/src/keccak.rs:79-88 | the first 136 bytes of the state are exclusive-ored with the block, and the others are kept |
| KeccakBytes.ExtractBit | packages/independent-verifier/rust/src/keccak.rs:64-70 | byte i of a lane is its bits 8i to 8i + 7 |
| KeccakBytes.PaddingBits | packages/independent-verifier/rust/src/keccak.rs:57-58 | the padded message is the message, a one, zeros and a one, up to the next multiple of the rate |
| KeccakBytes.HashBits | packages/independent-verifier/rust/src/keccak.rs:42-77 | for every message, each bit of the hash is that of the sponge of FIPS 202, defined on bits, over the padded message |

## Left out

- Primality of the field prime and of the group order is a hypothesis of the members that need it.
- Associativity of the group law, and that recovery returns the signer of a valid signature.
- Conversion of 32-byte strings to limbs, and the address as the last 20 bytes of the hash of the key.
- Json.FmtF64: doubles that are not safe integers go to an uninterpreted host function, because the canonicalizer refuses them.
- The double nearest to a token, base-16 reading, lower-casing and shortest digits are host functions with the few assumptions that the proofs use.
- JsonParse.Parser.ParseString: texts are sequences of characters without surrogates, so an escape for half of a surrogate pair reads as the replacement character.
- The grammar of `JsonGrammar` is that of RFC 8259 except that leading zeros in numbers are let through, as the parser does, and that half of a surrogate pair stands for U+FFFD.
- Cents are unbounded integers; the limit of safe integers and of a Number's precision is not modelled.
- Reservation identifiers are sequence numbers; the truncated hash that the program uses is taken to be injective. Scopes are keyed by job and scope, not by a joined string.
- Held money is not subtracted from what may be reserved, and a second hold may follow a release; no bound on their sum is claimed.
- The text of challenges and signatures, quotes, the counts of challenges and of settled cents, and a harness without a budget.
- Merkle.Verify: hexadecimal text is a datatype of well-formed and malformed strings.
- Recovery.RunRecovery: a write and its persistence are one step, timestamps are given from outside, and metadata, digests of the journal and the reconstruction marker are left out. Matching of expected events is a parameter.
- Broadcasting at most once: a crash between broadcast and recording repeats it.
- RateLimiter.CreateRateLimiter: options that are not numbers.
- Trace.NormalizeCalls: integers are numbers or malformed, not texts; lower-casing covers the letters A to Z.
- Replay.PlanTraceReplay: the digest of the plan is left out, and with it the exceptions that hashing a malformed depth or a null frame raises.
- StateDelta.ComputeCanonicalStateDelta: sorting is by code point; for addresses and slots in lower-case hexadecimal of one length this is the order of the locale comparison.
- Verifier.VerifyReceipt: policy evaluation, signature verification and the hash of the recomputed state delta are functions of their inputs that never throw; a plan whose digest the program cannot hash counts as invalid; a level that is not a text counts as unknown, and an unknown level is not listed among what is missing.
- Eip712.EncodeType: names that every object inherits, and the encoding of values.
- KeccakSponge.SqueezeLanes: the outer loop of squeezing runs once, so the permutation after it is not modelled.
- KeccakRounds.KeccakFInPlace: lane operations are parameters of the step mappings, instantiated with 64-bit words.
- Adapters, servers, command lines, file formats, anchoring, policies one by one, and the consensus combiner.
