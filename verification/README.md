# A model of FlowSpace's digests, queues and control plane

This project models the parts of FlowSpace in which a wrong order, a lost update or a retry would
go unnoticed, and proves what they are relied on for.

- **Mobile-v2 digests** (`Text`, `Utf8`, `Sorting`, `Jcs`, `JsonParse`, `JsonSpelling`, `JsonGrammar`,
  `CanonicalText`, `Digest`, `DigestSets`, `Sha256`, `Sha256Standard`, `Bits`, `Bignum`, `Trimming`,
  `ServerDigest`). The client prints canonical JSON, sorts three semantic sets, encodes the text and
  hashes it with its own SHA-256. The printed text is the one RFC 8785 prescribes; a digest text
  covers the contents of an envelope and nothing of their order, exactly when set elements that tie
  agree; the server computes the same digest from the message; the encoder and the hash meet RFC 3629
  and FIPS 180-4. Strings are sequences of UTF-16 units, numbers are safe integers, words are naturals
  below 2^32, and bit operations are defined bit by bit.
- **Generation claims** (`GenerationClaims`, `GenerationLoop`, `GenerationRuns`,
  `GenerationCalls`, `TimeText`, `TimeTextForm`). A
  durable queue with one row a workspace, leases and acknowledgements. Every SQL statement is one
  step, a completion's read and its compare-and-swap are two, and all properties of runs hold for
  every interleaving. Instants are nanoseconds since January 1 of year 1, Go's zero time.
- **Control plane** (`ControlStore`, `ControlRuns`, `ControlDefaults`, `ControlOutcomes`,
  `ControlSettings`, `Resolver`, `CodexPoll`, `CodexChat`). Immutable profile versions, the system
  defaults a server reconciles when it starts, endpoints, bindings under two revision counters, the resolver that trusts them, and the device-flow
  poll that may stop between any two of its writes. In every run each endpoint is usable and its name
  tells its source: `ReconcileSystemDefaults` verifies what is provisioned, and all names are made from
  `custom-` or `system-` and a version. `CreateSystemEndpoint` and `RetireWorkspaceVersion` have no
  caller outside tests; the second is a step of runs all the same.
- **Note sync** (`SyncBindings`, `SyncRuns`, `SyncLegacy`, `SyncTargets`). Bindings, external claims, tombstones,
  suppressions and the identity lock of targets.
- **Resumable transcription** (`Transcription`). A chunk cache that no transcript can show.

Operations that change state are methods of classes, proved against functions from store to store;
the properties of runs are lemmas about those functions.

## Where the code does not do what is expected of it

Each of these is stated with the exact condition under which the expectation holds.

- A lease shorter than a microsecond is accepted, but truncation ends it where it starts, and one
  call then claims the same job again and again (`GenerationLoop.DistinctIffLeaseLasts`).
- `compareDecimalString` places "-0" below "0" (`Bignum.SignOfDifference`).
- The comparator of `field_paths` never returns 0, and different paths with one string form keep
  the order they were listed in, so that order reaches the digest (`Digest.OrderBlindIffSettled`).
- With lone surrogates, code point order is not byte order (`Utf8.ByteOrderIffWellFormed`).
- Client and server sort `field_paths` by different texts: a null is "null" to one and "<nil>" to the
  other, an object "[object Object]" to one and its entries to the other. Where that changes an order
  the server refuses the digest (`ServerDigest.TextsAgreeIff`).
- A verification that stops after marking the version cannot be completed
  (`ControlSettings.VerifyProfileOutcome`, `ControlSettings.InterruptedVerificationNeverSucceeds`).
- A poll of a flow whose version was retired before its endpoint was stored does not connect
  (`CodexPoll.PollConnectsIff`, `CodexPoll.RetiredFlowIsReached`).
- A blank `token_env` sent to clear the stored one is dropped before the merge that would clear it
  (`SyncRuns.TokenEnvAsSentIff`).
- Pulls, imports and the older default-target routes bind a note without deleting what an unbinding
  left between it and the target (`SyncRuns.StepInv`, `SyncLegacy.LegacyRebindsSuppressed`).
- A synchroniser that moves a note's claim to another key leaves no tombstone for the first
  (`SyncRuns.LostClaimLeavesTombstone`), and deleting a target removes its tombstones
  (`SyncRuns.TombstoneLost`).
- Deleting a claimed note writes a tombstone and leaves its claim and its binding
  (`SyncRuns.DeleteNoteInv`, `SyncLegacy.DeletedNoteStaysBound`).

## Model

| member | source | states |
|---|---|---|
| Text.LessUTF16 | miniprogram/lib/jcs.ts:21-31 | the index loop decides dictionary order of the UTF-16 units |
| Text.Trichotomy | miniprogram/lib/jcs.ts:21-31 | of two strings exactly one is smaller, or they are equal |
| Text.Transitive | miniprogram/lib/jcs.ts:21-31 | the unit order is transitive |
| Text.Runes | miniprogram/lib/jcs.ts:35-36 | iterating a string yields its code points, a lone surrogate standing for itself |
| Text.LessCodePoint | miniprogram/lib/jcs.ts:34-46 | the index loop decides dictionary order of the code points |
| Text.CodePointOrder | miniprogram/lib/jcs.ts:34-46 | the code point order is total, asymmetric and transitive on all strings |
| Text.CodePointsInverse | miniprogram/lib/jcs.ts:35-36 | a string is recovered from its code points, so splitting it into them loses nothing |
| Text.FromCodePointsInverse | miniprogram/lib/jcs.ts:35-36 | code points without surrogates are recovered from the string they make |
| Text.NoSurrogates | miniprogram/lib/jcs.ts:1-16 | the two string orders agree on strings without surrogates |
| Text.OrdersDisagree | miniprogram/lib/jcs.ts:10-15 | U+E000 and U+1F600 are ordered one way by units and the other way by code points |
| Utf8.Utf8Encode | miniprogram/lib/sha256.ts:38-70 | the loop pushes the UTF-8 form of each code point, and U+FFFD for a lone surrogate |
| Utf8.PushedBytesAreUtf8 | miniprogram/lib/sha256.ts:47-67 | the shifts and masks of the pushed bytes compute the bytes RFC 3629 section 3 prescribes |
| Utf8.Utf8IsValid | miniprogram/lib/sha256.ts:38-70 | the output satisfies the grammar of RFC 3629 section 4 for every input |
| Utf8.Utf8LeftInverse | miniprogram/lib/sha256.ts:38-70 | decoding the output gives back the code points, with U+FFFD for lone surrogates |
| Utf8.SameBytes | miniprogram/lib/sha256.ts:38-70 | two strings have the same bytes exactly when they are equal after that replacement |
| Utf8.ByteOrderIffWellFormed | miniprogram/lib/jcs.ts:34-46 | `lessCodePoint` orders a string against every well-formed string as their bytes are ordered exactly when the string is well formed itself |
| Utf8.ByteOrderIsCodePointOrder | miniprogram/lib/jcs.ts:34-46 | for well-formed strings `lessCodePoint` is the order of the bytes, both ways round |
| Utf8.LoneSurrogateBreaksByteOrder | miniprogram/lib/sha256.ts:59-63 | a string with a lone surrogate on which the two orders differ |
| Sorting.SortInPlace | miniprogram/lib/digest.ts:52-63 | an array sorted in place holds the stable sort of what it held |
| Sorting.SortPermutes | miniprogram/lib/digest.ts:52-63 | the sorted array is a permutation |
| Sorting.SortSorted | miniprogram/lib/digest.ts:52-63 | under a consistent comparator no element is smaller than one before it |
| Sorting.SortUnique | miniprogram/lib/digest.ts:52-63 | any two sorted permutations are equal if only equal elements tie, whatever algorithm made them |
| Sorting.SortPermuted | miniprogram/lib/digest.ts:52-63 | sorting two permutations gives one result if only equal elements tie |
| Jcs.WriteJCSString | miniprogram/lib/jcs.ts:69-105 | the loop over characters writes the escaped string; a surrogate pair is copied as it is |
| Jcs.CanonicalIsPrintedNormalForm | miniprogram/lib/jcs.ts:108-134 | sorting the keys while printing is printing the value with sorted keys |
| Jcs.KeyLessIsOrder | miniprogram/lib/jcs.ts:126 | the key comparator is a consistent order |
| Jcs.SameNormalForm | miniprogram/lib/jcs.ts:126-134 | two values are equal up to key order at every depth exactly when their sorted forms are equal |
| Jcs.SortKeysIdempotent | miniprogram/lib/jcs.ts:126-134 | sorting keys twice changes nothing more |
| JsonParse.ParsePrintedNumber | miniprogram/lib/jcs.ts:54-66 | a printed safe integer is parsed back, whatever follows it |
| JsonParse.ParsePrintedString | miniprogram/lib/jcs.ts:69-105 | every string is recovered from its escaped form, whatever follows it |
| JsonParse.CanonicalRoundTrip | miniprogram/lib/jcs.ts:108-139 | parsing the canonical text gives the value back, up to key order (RFC 8785 section 3.2.3) |
| JsonParse.CanonicalInjective | miniprogram/lib/jcs.ts:108-134 | two values have one canonical text exactly when they are equal up to key order |
| JsonParse.CanonicalUniquelyDecodable | miniprogram/lib/jcs.ts:108-134 | no canonical text is a proper prefix of another at a value boundary |
| JsonParse.ParsedIsValid | miniprogram/lib/jcs.ts:137-139 | everything the parser returns is a value with distinct keys and safe integers |
| JsonParse.CanonicalizeJSONIdempotent | miniprogram/lib/jcs.ts:137-139 | `canonicalizeJSON` gives its own output back |
| CanonicalText.CanonicalIff | miniprogram/lib/jcs.ts:108-134 | a value has exactly one canonical text by RFC 8785 sections 3.2.2 and 3.2.3, written down from the characters up, and it is the one printed |
| CanonicalText.EscapeIs | miniprogram/lib/jcs.ts:69-105 | every unit is escaped as section 3.2.2.2 says |
| CanonicalText.SafeNumbers | miniprogram/lib/jcs.ts:54-66 | numbers are valid up to 2^53 - 1 either way |
| JsonSpelling.SpellingsAreRead | miniprogram/lib/jcs.ts:137-139 | every spelling of a value (RFC 8259), with any white space, any escapes and repeated keys, is read as that value, and `canonicalizeJSON` gives its canonical text |
| JsonGrammar.ReadIffSpelled | miniprogram/lib/jcs.ts:137-139 | a text is read as a value exactly if it spells it: nothing outside the grammar of RFC 8259, restricted to safe integers, is accepted |
| JsonGrammar.RefusedIffNotSpelled | miniprogram/lib/jcs.ts:137-139 | `canonicalizeJSON` refuses exactly the texts that spell nothing |
| JsonSpelling.PutRepeated | miniprogram/lib/jcs.ts:137-139 | a repeated key has its last value in its first place |
| JsonSpelling.OneTextForAllSpellings | miniprogram/lib/jcs.ts:137-139 | two spellings have one canonical text exactly when their values are equal up to key order |
| Digest.CompareEntities | miniprogram/lib/digest.ts:52-63 | the entity comparator is negative, zero or positive as the type and identity keys are ordered |
| Digest.CompareMappings | miniprogram/lib/digest.ts:67-86 | the loop of the mapping comparator decides the order of the three keys |
| Digest.LessKeyOrder | miniprogram/lib/digest.ts:56-86 | the order of key lists is total, asymmetric and transitive |
| Digest.ComparePaths | miniprogram/lib/digest.ts:112 | the comparator of `field_paths` is negative exactly for a smaller string form, positive for a larger or an equal one, and never 0 |
| Digest.SetLessIsOrder | miniprogram/lib/digest.ts:51-114 | the negative answers of each comparator form a consistent order, and two elements tie under it exactly when their keys are equal |
| Digest.SortEntityValues | miniprogram/lib/digest.ts:51-64 | the array is sorted in place by type and canonical identity |
| Digest.SortIdentityMappings | miniprogram/lib/digest.ts:66-87 | the array is sorted in place by type, client id and entity id |
| Digest.SortFieldPaths | miniprogram/lib/digest.ts:111-113 | the array is sorted in place by string form, equal forms keeping their places |
| Digest.AnyHostSorts | miniprogram/lib/digest.ts:51-114 | any algorithm that returns a sorted permutation returns this one, if elements that tie are equal |
| Digest.KeyKept | miniprogram/lib/digest.ts:33-49 | neither sorting keys nor normalising inside an element changes the key it is sorted by |
| Digest.SortSetSorts | miniprogram/lib/digest.ts:106-114 | normalising a set leaves a sorted permutation of its elements |
| Digest.NormalizeValid | miniprogram/lib/digest.ts:90-116 | normalising keeps keys distinct and numbers safe |
| Digest.NormalizeIdempotent | miniprogram/lib/digest.ts:90-116 | normalising a normalised value changes nothing |
| Digest.RearrangedIsNormal | miniprogram/lib/digest.ts:90-134 | values equal up to the order of keys and set elements at every depth have one normal form, if tied elements agree |
| Digest.NormalIsRearranged | miniprogram/lib/digest.ts:90-134 | values with one normal form are equal up to those orders: nothing else is lost |
| Digest.SortKeepsTies | miniprogram/lib/digest.ts:52-63 | elements with one sort key keep their order |
| Digest.RequestTextIgnoresOrder | miniprogram/lib/digest.ts:124-134 | two envelopes give one canonical text exactly when their contents are rearrangements of each other, if tied elements agree |
| Digest.OrderBlindIffSettled | miniprogram/lib/digest.ts:124-134 | the text ignores every reordering exactly when set elements that tie agree at every depth |
| DigestSets.NormalizeDescribes | miniprogram/lib/digest.ts:90-116 | normalising sorts exactly the lists under `entities` (by type and identity), `identity_mappings` (by type, client id and entity id) and `field_paths` (by string form), at every depth, and changes nothing else |
| DigestSets.SetInAnyOrder | miniprogram/lib/digest.ts:106-114 | such a list of an envelope can be listed in any order without changing the digest, if no two elements agree in all they are sorted by |
| DigestSets.OtherListShowsItsOrder | miniprogram/lib/digest.ts:100-105 | any other list shows its order in the text |
| DigestSets.RequestTextDescribed | miniprogram/lib/digest.ts:124-134 | what is hashed is the canonical text of the contents so normalised |
| DigestSets.ContentsAre | miniprogram/lib/digest.ts:130-131 | the contents are all members but `request_digest` and `forwarded_by_device_client_id` |
| DigestSets.StringForms | miniprogram/lib/digest.ts:112 | the string form of every path |
| DigestSets.PageTextIs | miniprogram/lib/digest.ts:137-154 | the text of a page, member by member |
| ServerDigest.NormalOfSame | miniprogram/lib/digest.ts:90-134 | the text never depends on the order of object members, whatever ties |
| ServerDigest.PathSortsAgreeIff | backend/internal/mobilev2contract/digest.go:82-85 | client and server sort a list of paths alike exactly when they agree on its pairs |
| ServerDigest.TextsAgreeIff | backend/internal/mobilev2contract/digest.go:13-26 | client and server hash one text for a message exactly when the two sides agree on the order of every pair of its paths, at every depth and whatever the paths are |
| ServerDigest.PrintedAlikeIff | backend/internal/mobilev2contract/digest.go:68-93 | the two normalisations print a value alike exactly when they agree on the order of the normal forms in each list of paths |
| ServerDigest.PrintedOfSame | backend/internal/mobilev2contract/digest.go:68-93 | neither text depends on the order of object members |
| ServerDigest.PrintedTwice | backend/internal/mobilev2contract/digest.go:68-93 | each side prints its own output back |
| ServerDigest.ServerMatchesClient | backend/internal/mobilev2contract/digest.go:13-26 | the server's text is the client's exactly then, whatever order its maps list members in, and the digests are equal so that the command is accepted |
| ServerDigest.LeafPathsAgreeIff | backend/internal/mobilev2contract/digest.go:82-85 | for paths that are strings, numbers, booleans or null the condition is that every null stays on one side of every other path, read as "null" or as "<nil>" |
| ServerDigest.ObjectPathsAgreeIff | backend/internal/mobilev2contract/digest.go:82-85 | for paths that are objects, which the client cannot tell apart, the condition is that they are listed in the order the server sorts them into |
| ServerDigest.AgreeIffNulls | backend/internal/mobilev2contract/digest.go:82-85 | on one list of such paths the two orders differ about nulls alone |
| ServerDigest.NullFreeAgrees | backend/internal/mobilev2contract/digest.go:82-85 | they agree on all paths that are strings, numbers or booleans |
| ServerDigest.NullPathsDisagree | backend/internal/mobilev2contract/digest.go:82-85 | the paths null and "a" are sorted one way by the client and the other way by the server |
| ServerDigest.ReceivedIsSent | backend/internal/mobilev2contract/jcs.go:30-47 | a message whose strings are well formed arrives as it was sent |
| ServerDigest.ReceivedIsWellFormed | backend/internal/mobilev2contract/jcs.go:30-47 | whatever is sent, what arrives has the same shape and only well-formed strings |
| ServerDigest.SprintScalar | backend/internal/mobilev2contract/digest.go:82-85 | the text a scalar path is sorted by on the server |
| ServerDigest.SprintList | backend/internal/mobilev2contract/digest.go:82-85 | the same for a list |
| ServerDigest.MapLines | backend/internal/mobilev2contract/digest.go:82-85 | and for an object, entry by entry in the order of the keys |
| Digest.TiedPathsShowTheirOrder | miniprogram/lib/digest.ts:111-113 | the order of the paths 1 and "1" reaches the text |
| Digest.DroppedMemberUnseen | miniprogram/lib/digest.ts:130-131 | `request_digest` and `forwarded_by_device_client_id` do not enter the digest, wherever they stand |
| Digest.PageTextIgnoresOrder | miniprogram/lib/digest.ts:137-154 | if entities that tie print alike, a page text covers exactly the snapshot, the index, the sequence and the multiset of entities |
| Digest.PageOrderBlindIff | miniprogram/lib/digest.ts:137-154 | a page text ignores every reordering of the entities exactly when entities that tie print alike |
| DigestSets.HexDigits | miniprogram/lib/sha256.ts:149-157 | each byte of a digest is two lower-case digits, the high half first |
| DigestSets.Sha256TextIs | miniprogram/lib/digest.ts:133 | a digest is the prefix and 64 digits of the SHA-256 of the UTF-8 form of the text |
| Sha256.RotrMovesEveryBit | miniprogram/lib/sha256.ts:29-31 | a right rotation moves bit i + n (mod 32) to bit i |
| Sha256.RotrUndone | miniprogram/lib/sha256.ts:29-31 | rotating by 32 - n more restores the word |
| Sha256.OneReductionOf4 | miniprogram/lib/sha256.ts:87 | one `>>> 0` of a sum of four words, which stays below 2^53, is addition modulo 2^32 at every step |
| Sha256.OneReductionOf5 | miniprogram/lib/sha256.ts:94 | the same for a sum of five words |
| Sha256.PaddedLengthIsLeast | miniprogram/lib/sha256.ts:127-131 | the padded length is the least multiple of 64 with room for the marker and the length |
| Sha256.PaddedInjective | miniprogram/lib/sha256.ts:127-146 | no two messages have one padded form |
| Sha256Standard.RoundConstantsAreCubeRoots | miniprogram/lib/sha256.ts:14-23 | round constant i is the first 32 bits of the fraction of the cube root of the i-th prime (FIPS 180-4 section 4.2.2) |
| Sha256Standard.InitialStateIsSquareRoots | miniprogram/lib/sha256.ts:25-27 | the initial state is made so of the square roots of the first eight primes (section 5.3.3) |
| Sha256Standard.ChBits | miniprogram/lib/sha256.ts:93 | each bit of Ch is chosen by the first word from the other two (section 4.1.2) |
| Sha256Standard.MajBits | miniprogram/lib/sha256.ts:96 | each bit of Maj is that of the majority |
| Sha256Standard.BigSigmaBits | miniprogram/lib/sha256.ts:92-95 | each bit of the two functions of the round is the parity of three rotated bits |
| Sha256Standard.SmallSigmaBits | miniprogram/lib/sha256.ts:85-86 | each bit of the two functions of the schedule is the parity of two rotated bits and a shifted one |
| Sha256.Pad | miniprogram/lib/sha256.ts:127-146 | the buffer holds the padding of FIPS 180-4 section 5.1.1 |
| Sha256.LoadBlock | miniprogram/lib/sha256.ts:79-83 | the first sixteen schedule words are the big-endian words of the block |
| Sha256.ExpandSchedule | miniprogram/lib/sha256.ts:84-88 | the in-place expansion fills the schedule with the recursively defined words |
| Sha256.RoundStep | miniprogram/lib/sha256.ts:91-108 | the eight rotated variables after one turn are one round of section 6.2.2 |
| Sha256.RunRounds | miniprogram/lib/sha256.ts:90-108 | sixty-four turns are sixty-four rounds of the definition |
| Sha256.CompressBlock | miniprogram/lib/sha256.ts:78-115 | one block updates the state as the compression function does |
| Sha256.EmitDigest | miniprogram/lib/sha256.ts:117-124 | the 32 bytes are the state words, most significant byte first |
| Sha256.Sha256Bytes | miniprogram/lib/sha256.ts:73-125 | the digest is SHA-256 of the data by FIPS 180-4 section 6.2.2 |
| Trimming.TrimSurrounded | miniprogram/lib/bignum.ts:39 | trimming removes exactly the blanks around a text |
| Trimming.SpaceUnits | backend/internal/service/obsidian_sync.go:382-411 | what counts as white space in Go |
| Bignum.BlankUnits | miniprogram/lib/bignum.ts:39 | what counts as white space in a counter |
| Bignum.TextValues | miniprogram/lib/bignum.ts:39 | digits between white space stand for their number, and behind a minus sign for its opposite |
| Bignum.SignOfDifference | miniprogram/lib/bignum.ts:14-36 | the comparison is the sign of the integer difference of two decimal texts exactly when they are not zeros of different sign |
| Bignum.NegativeZero | miniprogram/lib/bignum.ts:17-21 | "-0" is placed below "0" |
| Bignum.MagnitudeIsSign | miniprogram/lib/bignum.ts:26-36 | stripping zeros, then length, then string order is numeric comparison, with no bound on length |
| Bignum.AtLeastIsPreorder | miniprogram/lib/bignum.ts:48-50 | `atLeast` is a total preorder on all strings, and says which strings tie |
| Bignum.CountersInOrder | miniprogram/lib/bignum.ts:43-50 | on counters `atLeast` is numeric order, and only texts equal after trimming tie |
| Bignum.CountersAreDigits | miniprogram/lib/bignum.ts:43-45 | a counter is the decimal form of its value |
| Bignum.DigitsAreCounters | miniprogram/lib/bignum.ts:43-45 | every decimal form is a counter |
| GenerationClaims.Repository.constructor | backend/internal/generationclaims/repository.go:45-52 | a repository starts with an empty table and a positive lease |
| GenerationClaims.Repository.Get | backend/internal/generationclaims/repository.go:208-225 | the row of the trimmed workspace, or the error |
| GenerationClaims.Repository.Enqueue | backend/internal/generationclaims/repository.go:106-137 | a job is inserted once; a repeated waiting request succeeds and everything else is a conflict, both without a write |
| GenerationClaims.Repository.EnsureScheduled | backend/internal/generationclaims/repository.go:139-170 | a pending or leased row is left alone, a job id of another workspace is an error, and otherwise the row is a fresh cycle, one revision on |
| GenerationClaims.Repository.Reschedule | backend/internal/generationclaims/repository.go:172-206 | a row that is not leased starts a new cycle; a leased one is refused unchanged |
| GenerationClaims.Repository.ClaimNext | backend/internal/generationclaims/repository.go:248-276 | the first eligible job is leased to the claim, or nothing happens |
| GenerationClaims.Repository.ClaimGenerationWorkspaces | backend/internal/generationclaims/repository.go:227-246 | the loop makes the claims of the recursive definition, or refuses a bad limit or instant |
| GenerationClaims.Repository.CompleteGenerationClaim | backend/internal/generationclaims/repository.go:291-344 | an uninterrupted completion does what the definition of a completion says |
| GenerationClaims.WholeMicroseconds | backend/internal/generationclaims/repository.go:448-453 | a stored time is the last whole microsecond |
| GenerationClaims.RequestRefusedIff | backend/internal/generationclaims/repository.go:106-137 | exactly which requests are refused |
| GenerationClaims.OutcomeRefusedIff | backend/internal/generationclaims/repository.go:346-370 | exactly which outcomes are refused |
| GenerationClaims.FirstExists | backend/internal/generationclaims/repository.go:262-264 | among eligible jobs there is a first by (available_at, workspace_id) |
| GenerationClaims.FirstIsUnique | backend/internal/generationclaims/repository.go:262-264 | and only one |
| GenerationLoop.ClaimsFirstJobs | backend/internal/generationclaims/repository.go:227-276 | with a lease that outlasts the instant, the claims are the first eligible jobs in order, none is skipped unless the limit is reached, the claimed rows are leased and every other row is untouched |
| GenerationLoop.AfterOneClaim | backend/internal/generationclaims/repository.go:255-264 | a claim makes exactly its own job ineligible and keeps the order of all jobs |
| GenerationLoop.LeaseOutlastsStart | backend/internal/generationclaims/repository.go:448-453 | the truncated end of a lease is after its start exactly for leases of at least a microsecond |
| GenerationLoop.EmptyLeaseReclaims | backend/internal/generationclaims/repository.go:235-244 | a lease that ends where it starts lets every turn claim the same job |
| GenerationLoop.DistinctIffLeaseLasts | backend/internal/generationclaims/repository.go:45-52 | no call claims a job twice, on any table, exactly when the lease is at least a microsecond |
| GenerationRuns.StepInv | backend/internal/generationclaims/repository.go:106-344 | every SQL statement keeps the CHECK clauses, the unique keys and the claim history |
| GenerationRuns.ReachableRows | backend/db/migrations/control/sqlite/0004_task_domain_generation_jobs.sql:1-30 | in every run every row satisfies the CHECK clauses, `attempt` counts the claims of the cycle, the claim id is its last, and keys are unique |
| GenerationRuns.SuccessesAgree | backend/internal/generationclaims/repository.go:291-344 | all completions that succeed for one claim carry one normalised outcome, however reads and compare-and-swaps interleave |
| GenerationRuns.SuccessMeansHeld | backend/internal/generationclaims/repository.go:303-344 | at the step that makes a call succeed the row holds exactly its outcome |
| GenerationRuns.RetiredForever | backend/internal/generationclaims/repository.go:291-344 | a claim no row carries any more is never carried again, and no call for it succeeds from then on |
| GenerationRuns.RetiredWritesNothing | backend/internal/generationclaims/repository.go:321-327 | a compare-and-swap for such a claim writes nothing |
| GenerationRuns.WritesRaiseRevision | backend/internal/generationclaims/repository.go:150-160 | every write raises the revision of its row by one, and a new row has revision 1 |
| GenerationRuns.RowStep | backend/internal/generationclaims/repository.go:106-344 | the four things a statement can do to a row |
| GenerationRuns.LiveClaimStep | backend/internal/generationclaims/repository.go:321-327 | one step ends a live claim only by a completion naming its claim and epoch or by a claim not before the lease end |
| GenerationRuns.LiveClaimSurvives | backend/internal/generationclaims/repository.go:139-206 | a live claim survives every run without those, whatever is scheduled |
| GenerationRuns.CompletionIsIdempotent | backend/internal/generationclaims/repository.go:291-344 | exactly when a completion succeeds; it then holds, touches no other row, and repeating it succeeds and changes nothing |
| GenerationRuns.CompletionMeans | backend/internal/generationclaims/repository.go:380-385 | after a success a retry can be claimed from the instant asked for, and an idle or given-up job is over and never claimed; the row says what was reported |
| GenerationRuns.SuccessIsReported | backend/internal/generationclaims/repository.go:303-344 | the same at the step that makes a call succeed, whatever runs between its two statements |
| GenerationRuns.OutcomeStays | backend/internal/generationclaims/repository.go:303-319 | a recorded outcome does not change while the row carries its claim |
| GenerationRuns.RepeatSucceeds | backend/internal/generationclaims/repository.go:303-319 | repeating a recorded completion succeeds at the read and changes no row |
| GenerationRuns.HoldsOne | backend/internal/generationclaims/repository.go:387-400 | a row holds at most one normalised outcome |
| GenerationCalls.UninterruptedCompletion | backend/internal/generationclaims/repository.go:291-344 | undisturbed, the four statements of a completion do together what it does as one call |
| GenerationCalls.SwapOutcome | backend/internal/generationclaims/repository.go:321-337 | the compare-and-swap records the outcome exactly if the lease is still held under the claim and nothing was written to the row since the read; otherwise it writes nothing |
| GenerationCalls.LoserIsTold | backend/internal/generationclaims/repository.go:338-343 | a call whose swap found the row changed is told success exactly if the row reports its outcome by then |
| GenerationCalls.EveryCallIsAnswered | backend/internal/generationclaims/repository.go:291-344 | a call that has made its three statements has its answer, whatever ran between them |
| GenerationCalls.RescheduleOutcome | backend/internal/generationclaims/repository.go:174-206 | exactly which jobs are queued anew, from when on they can be claimed and what is forgotten; nothing else changes |
| TimeText.DayNumberAscends | backend/internal/generationclaims/repository.go:446-461 | the Gregorian day count is strictly monotone in year, month and day |
| TimeText.DayOfDate | backend/internal/generationclaims/repository.go:446-461 | dates and day numbers correspond one to one |
| TimeText.FieldsAscend | backend/internal/generationclaims/repository.go:446-461 | the seven fields of instants are ordered as the instants |
| TimeText.TimeRoundTrip | backend/internal/generationclaims/repository.go:455-473 | for years 1 to 9999 the text is parsed back as the instant in whole microseconds |
| TimeText.TextOrderIsTimeOrder | backend/internal/generationclaims/repository.go:446-461 | for those years comparing texts is comparing times |
| TimeTextForm.TextIsRead | backend/internal/generationclaims/repository.go:446-473 | a text in the layout is read exactly if it names a calendar date and a time of day, as the instant it names; the layout and the limits are spelled position by position |
| TimeTextForm.TextSays | backend/internal/generationclaims/repository.go:446-453 | the text written for an instant has that form and names it in whole microseconds |
| GenerationRuns.StoredTimesAreWhole | backend/internal/generationclaims/repository.go:446-453 | in every run all stored times are whole microseconds |
| TimeText.EligibleOnText | backend/internal/generationclaims/repository.go:259-264 | for whole-microsecond times, eligibility decided on the stored texts is eligibility decided on the times |
| TimeText.ReachableEligibleOnText | backend/internal/generationclaims/repository.go:259-264 | so it is in every run, for times in the years 1 to 9999 |
| ControlStore.Repository.SetBinding | backend/internal/controlprofile/binding.go:60-124 | the two writes of the transaction happen together or not at all, under both revisions, the keys and the CHECK clauses |
| ControlStore.Repository.CreateWorkspaceEndpoint | backend/internal/controlprofile/binding.go:34-45 | an endpoint is stored for a verified version of the workspace, or nothing is |
| ControlStore.Repository.CreateSystemEndpoint | backend/internal/controlprofile/binding.go:47-58 | the same for system versions |
| ControlStore.Repository.RetireWorkspaceVersion | backend/internal/controlprofile/binding.go:147-160 | a draft or verified version is retired, once |
| ControlStore.Repository.CreateVersion | backend/internal/controlprofile/repository.go:93-146 | a draft with the next number of its family and its own or the preserved secret is stored under a free name, or nothing is |
| ControlStore.Repository.MarkVerified | backend/internal/controlprofile/repository.go:148-161 | a draft becomes verified, once |
| ControlStore.Repository.ReconcileSystemCandidate | backend/internal/controlprofile/repository.go:175-240 | the latest version of the family is reused if provider, configuration and secret are the same, and otherwise a draft with the next number is stored |
| ControlStore.Repository.MarkSystemVerified | backend/internal/controlprofile/repository.go:242-255 | a system draft becomes verified, once |
| ControlStore.Repository.ReconcileSystemDefaults | backend/internal/controlsettings/system_defaults.go:25-61 | the loop reconciles and verifies the specifications in turn, keeps what earlier turns stored when one fails, and returns a default for each |
| ControlStore.Repository.ProvisionWorkspaceIdentity | backend/internal/controlsettings/provision.go:41-92 | the loop of inserts stores the runtime row, the endpoints and the missing bindings, or nothing |
| ControlStore.NextNumber | backend/internal/controlprofile/repository.go:108-111 | one more than the largest version number of the family |
| ControlRuns.SetBindingAdvances | backend/internal/controlprofile/binding.go:60-124 | a success moves one binding and the runtime counter on by one, from exactly the revisions given |
| ControlRuns.ActivationAdvances | backend/internal/runtimecontrol/repository.go:112-151 | so does the activation that ends a storage operation |
| ControlRuns.ProvisionBinds | backend/internal/controlsettings/provision.go:57-92 | provisioning binds the four services of a new workspace and changes no binding of an existing one |
| ControlRuns.BindingsStep | backend/db/migrations/control/sqlite/0001_control_baseline.sql:180-212 | every step keeps the CHECK clauses and foreign key of every binding, and the counter balance |
| ControlRuns.CountersBalance | backend/internal/controlprofile/binding.go:60-124 | in every run the runtime counter less the sum of the binding counters is -3 |
| ControlRuns.CounterStep | backend/internal/controlprofile/binding.go:60-124 | a step leaves the bindings of a workspace alone or is conditioned on its counter and raises it by one |
| ControlRuns.RevisionDeterminesBindings | backend/internal/controlprofile/binding.go:102-113 | the counter never falls, and while it stands still the whole binding map does |
| ControlRuns.NoTwoSuccessesShareARevision | backend/internal/controlprofile/binding.go:102-113 | two successes of a run for one workspace were conditioned on different runtime revisions |
| ControlRuns.EndpointsStep | backend/internal/controlprofile/binding.go:34-58 | however SELECT and INSERT interleave with verification and retirement, endpoints stay right |
| ControlRuns.EndpointsAreUsable | backend/internal/airuntime/control_source.go:77-79 | in every run every endpoint, custom or system, stands for a verified or retired version and is named after it |
| ControlRuns.NoNameIsShared | backend/internal/airuntime/control_source.go:49-55 | no name is used by both a custom and a system endpoint |
| ControlRuns.ProvisionUsableIff | backend/internal/controlsettings/provision.go:67-75 | the provisioning call keeps all endpoints usable exactly when it stores none for a draft |
| ControlRuns.ReconciledIsNoDraft | backend/internal/controlsettings/system_defaults.go:47-58 | defaults that were reconciled are never drafts |
| ControlRuns.ProvisionSucceedsIff | backend/internal/controlsettings/provision.go:41-92 | provisioning succeeds exactly for complete defaults of the four kinds whose endpoints or versions are stored |
| ControlRuns.SetBindingSucceedsIff | backend/internal/controlprofile/binding.go:60-124 | a binding is set exactly for an idle, active workspace under both revisions with a stored endpoint that fits the mode |
| ControlOutcomes.BindingRow | backend/internal/controlprofile/binding.go:60-124 | the row stored, with empty settings where none are sent |
| ControlOutcomes.FamilyOutcome | backend/internal/controlprofile/queries.go:17-30 | a family is there after the call exactly if no other kind has its name, and is new only under a complete name |
| ControlOutcomes.VersionOutcome | backend/internal/controlprofile/repository.go:93-146 | exactly when a version is created, and the draft that is stored |
| ControlOutcomes.CompleteIsValid | backend/internal/controlprofile/repository.go:175-178 | which specifications are taken |
| ControlOutcomes.EndpointNames | backend/internal/controlsettings/system_defaults.go:25-61 | the names of endpoints, by kind |
| ControlOutcomes.RuntimeStep | backend/internal/runtimecontrol/repository.go:67-160 | what a step may do to the runtime row of a workspace, and which call does it |
| ControlOutcomes.OperationOutcome | backend/internal/runtimecontrol/repository.go:67-110 | the calls of a storage operation succeed exactly where they move the row so |
| ControlOutcomes.ActivationOutcome | backend/internal/runtimecontrol/repository.go:112-160 | an operation is activated exactly by its own name in its own epoch under both revisions |
| ControlOutcomes.OperationHolds | backend/internal/runtimecontrol/repository.go:81-160 | until it is activated, in every run, an operation keeps the workspace in it and in its epoch |
| ControlOutcomes.OperationIsExclusive | backend/internal/runtimecontrol/repository.go:81-160 | and no service of the workspace is bound meanwhile |
| ControlOutcomes.ProvisionAccepts | backend/internal/controlsettings/provision.go:34-104 | a workspace is provisioned exactly with a storable default for each of the four services, where only language models may be off |
| ControlOutcomes.NewWorkspaceIsBound | backend/internal/controlsettings/provision.go:67-90 | a new workspace is bound to what the defaults say |
| ControlOutcomes.NewWorkspaceChats | backend/cmd/server/main.go:358-375 | at any time after the start a new workspace resolves chat to the provider, model, configuration and secret of the specification the server started with, or has it off |
| ControlDefaults.ReconcileSucceedsIff | backend/internal/controlsettings/system_defaults.go:25-61 | reconciling succeeds exactly for four different kinds with valid modes, each settled already or with an unused candidate identifier |
| ControlDefaults.ReconcileReturns | backend/internal/controlsettings/system_defaults.go:25-61 | it returns four complete defaults behind endpoints named after stored versions that are no drafts and say what was specified |
| ControlDefaults.ProvisionedIsReached | backend/internal/controlsettings/system_defaults.go:25-61 | from every reachable store, reconciling and then provisioning is a run that provisions the workspace |
| ControlDefaults.DefaultsLast | backend/internal/controlsettings/provision.go:25-37 | defaults that were reconciled once stay so in every run |
| ControlDefaults.ServersRun | backend/cmd/server/main.go:358-375 | whatever servers call that provision with the lists they reconciled when they started, each provisioning meets reconciled defaults |
| ControlDefaults.LaterProvisioning | backend/cmd/server/main.go:358-375 | at any time after the start every further workspace can be provisioned with the defaults of the start, and all endpoints are usable then |
| ControlDefaults.FirstStart | backend/internal/controlsettings/system_defaults.go:25-61 | so is the first start with any four complete specifications |
| ControlDefaults.RestartStoresNothing | backend/internal/controlprofile/repository.go:201-218 | a restart with unchanged specifications stores nothing and returns the same defaults, whatever candidates it brings |
| ControlDefaults.DraftsAreProvisioned | backend/internal/controlsettings/provision.go:67-75 | without the reconciliation the provisioning call accepts drafts: a reachable store in which it stores endpoints that cannot be used |
| ControlRuns.VersionsAreNumbered | backend/internal/controlprofile/repository.go:108-111 | in every run the versions of a family are numbered from one without gaps or repetitions |
| Resolver.BoundEndpointResolves | backend/internal/airuntime/resolver.go:116-131 | a bound endpoint resolves to exactly what its version says, whatever row the database prefers, and fails only if the model cannot be read |
| Resolver.ResolutionIsTotal | backend/internal/airuntime/resolver.go:64-131 | in every run a provisioned workspace never meets a missing binding, an invalid mode, a missing endpoint or an identity mismatch |
| Resolver.ChatResolves | backend/internal/airuntime/resolver.go:102-131 | a provisioned workspace has chat off exactly if its binding says so, and otherwise gets what the version behind the binding says |
| Resolver.TranscriptionResolves | backend/internal/airuntime/resolver.go:68-93 | the same for transcription, through chat where it reuses it |
| Resolver.ReuseIsChat | backend/internal/airuntime/resolver.go:77-85 | reuse is the chat result with mode and flag changed, and fails exactly as chat fails |
| Resolver.SelectionIsUnambiguous | backend/internal/airuntime/control_source.go:49-55 | the SELECT without a source finds one row for every name, whatever row the database prefers |
| Resolver.SelectsBoundEndpoint | backend/internal/airuntime/control_source.go:49-55 | the endpoint loaded for a binding is the bound one |
| Resolver.ResolutionIsStable | backend/internal/airuntime/resolver.go:116-131 | while the binding revision stays, a service resolves to the same result, whatever rows the database prefers |
| CodexPoll.Service.Poll | backend/internal/codexsubscription/service.go:77-150 | the poll makes the writes of the definition and keeps them where it stops |
| CodexPoll.Service.EnsureEndpoint | backend/internal/codexsubscription/service.go:152-164 | an endpoint of the flow is reused, a foreign one refused, a missing one created |
| CodexPoll.PrepareExtends | backend/internal/codexsubscription/service.go:113-145 | wherever a poll stops it has added at most the family, the version, the endpoint and one move of the binding |
| CodexPoll.PollKeepsReady | backend/internal/codexsubscription/service.go:77-150 | any poll before the flow expires leaves it ready for the next |
| CodexPoll.PollsConverge | backend/internal/codexsubscription/service.go:77-150 | after any stopped attempts a granted poll with current revisions connects the flow; together they added one version and one endpoint at most and raised the binding revision once |
| CodexPoll.PrepareKeepsInv | backend/internal/codexsubscription/service.go:113-145 | a poll keeps the invariant of the control store wherever it stops and whatever other calls are open |
| CodexPoll.PollsConvergeAmongOthers | backend/internal/codexsubscription/service.go:77-150 | so it does when any other calls run in between that neither retire the version nor take its family name |
| CodexPoll.PollConnectsIff | backend/internal/codexsubscription/service.go:113-150 | an undisturbed granted poll connects exactly when no other kind has its family name, its version was not retired before it had an endpoint, and the workspace takes bindings |
| CodexChat.ConnectedResolves | backend/internal/codexsubscription/service.go:77-160 | once a poll connects, chat resolves to the version of the flow: for a flow without one, to the Codex subscription with the tokens granted |
| CodexPoll.BlockedPollFails | backend/internal/codexsubscription/service.go:137-139 | no poll of a flow whose version was retired before it had an endpoint connects |
| CodexPoll.RetiredFlowIsReached | backend/internal/codexsubscription/service.go:116-139 | every store in which the names of a flow are unused can be brought there |
| ControlSettings.VerifyProfileOutcome | backend/internal/controlsettings/service.go:181-208 | verification succeeds exactly for a draft with a free endpoint name |
| ControlSettings.InterruptedVerificationNeverSucceeds | backend/internal/controlsettings/service.go:200-206 | stopped between its two writes it leaves a version no later verification succeeds on |
| ControlSettings.ServiceBindingSucceedsIff | backend/internal/controlsettings/service.go:210-241 | exactly when the service binds |
| ControlSettings.BindingIgnoresPreference | backend/internal/controlsettings/service.go:210-241 | the row the database prefers decides nothing about a binding |
| ControlSettings.ServiceBindsStoredEndpoints | backend/internal/controlsettings/service.go:210-241 | the service never moves the data store and binds only stored endpoints of the source the mode asks for |
| SyncBindings.SyncStore.PutNoteSyncBinding | backend/internal/handler/sync_binding.go:38-105 | the transaction releases, clears and binds as the definition says, or writes nothing |
| SyncBindings.SyncStore.DeleteNoteSyncBinding | backend/internal/handler/sync_binding.go:142-178 | the transaction releases, suppresses and unbinds as the definition says, or writes nothing |
| SyncBindings.SyncStore.PutImportTombstone | backend/internal/storage/sqlite/sync.go:511-541 | the tombstone is stored, and the one at its key and those for its target, note and type go |
| SyncBindings.SyncStore.TombstoneAndReleaseClaim | backend/internal/handler/sync_binding.go:256-276 | the claim of the note is replaced by a tombstone for its key |
| SyncBindings.SyncStore.UpdateSyncTargetGuarded | backend/internal/handler/sync.go:590-621 | a target in use is saved only with an unchanged identity |
| SyncBindings.SyncStore.DeleteSyncTargetGuarded | backend/internal/handler/sync.go:623-637 | a target is deleted only when nothing uses it; its suppressions and tombstones go with it |
| SyncRuns.Released | backend/internal/handler/sync_binding.go:256-276 | what is released and what is buried, key by key |
| SyncRuns.StepInv | backend/internal/handler/sync_binding.go:60-112 | a step keeps the invariant of the tables exactly when it neither binds a note without a request over a suppression or tombstone nor deletes a note that stays bound with its claim |
| SyncRuns.CoreStep | backend/internal/service/sync_dispatch.go:169-220 | every step, those included, keeps claims on bound targets and references to targets that exist |
| SyncRuns.CoreHolds | backend/internal/service/sync_dispatch.go:169-220 | and so does every run |
| SyncRuns.ReachableStores | backend/internal/handler/sync_binding.go:60-179 | in every run without such steps claims are on bound targets, nothing keeps a bound note and its target apart, and nothing refers to a target that is gone |
| SyncRuns.LegacyInv | backend/internal/service/obsidian_sync.go:382-411 | the older routes keep all of it exactly when they do not bind that way |
| SyncRuns.DeleteNoteInv | backend/internal/service/notes.go:48-70 | deleting a note keeps the invariant exactly when the note has no claim |
| SyncRuns.ConfirmInv | backend/internal/service/obsidian_bidirectional.go:748-795 | confirming an external deletion keeps it exactly when the note has no claim and is not bound to the target |
| SyncLegacy.DeletedNoteStaysBound | backend/internal/service/notes.go:48-70 | deleting a claimed note at a reachable store leaves its claim and its binding next to its tombstone |
| SyncLegacy.LegacyRebindsSuppressed | backend/internal/service/obsidian_sync.go:215-223 | whoever unbinds a note can see it bound again by an older route, with the suppression still there |
| SyncLegacy.LegacyBreaksReachable | backend/internal/service/obsidian_sync.go:215-223 | this happens at a reachable store |
| SyncRuns.ReserveInv | backend/internal/service/obsidian_sync.go:393-411 | reserving a claim for a bound note keeps all of it |
| SyncRuns.LostClaimLeavesTombstone | backend/internal/handler/sync_binding.go:256-276 | in every run a claim stays or leaves a tombstone for its key exactly when no synchroniser moves its note to a free key, or that tombstone was there before; a move writes none |
| SyncLegacy.MoveLeavesNoTombstone | backend/internal/storage/sqlite/sync.go:420-437 | a synchroniser does so at a reachable store |
| SyncRuns.TombstoneLost | backend/internal/storage/sqlite/sync.go:554-563 | in every run a key loses its tombstone exactly by binding the former note to the target again, with the target itself, or to another tombstone in its place |
| SyncRuns.TombstonePersists | backend/internal/storage/sqlite/sync.go:511-541 | a tombstone stays through every run without those steps |
| SyncRuns.PutOutcome | backend/internal/handler/sync_binding.go:60-105 | exactly when binding succeeds, and that the note is then bound with nothing in the way and no other binding changed |
| SyncRuns.DeleteOutcome | backend/internal/handler/sync_binding.go:156-178 | exactly when unbinding succeeds, and what it leaves |
| SyncRuns.RebindingUndoesUnbinding | backend/internal/handler/sync_binding.go:60-179 | unbinding and binding again restores everything but the claim and a suppression that was there before, which the invariant rules out |
| SyncTargets.ChangedIff | backend/internal/handler/sync.go:661-730 | the guard finds a change exactly where the target stands for another place, and fails exactly on names it cannot read |
| SyncTargets.PathSays | backend/internal/handler/sync.go:688-710 | what a path counts as |
| SyncTargets.UpdateOutcome | backend/internal/handler/sync.go:61-101 | exactly when an update succeeds, and the row it stores, secrets included |
| SyncTargets.CreateOutcome | backend/internal/handler/sync.go:34-59 | exactly when a target is created, and its row |
| SyncTargets.DeleteTargetOutcome | backend/internal/handler/sync.go:623-637 | exactly when a target is deleted, and what goes with it |
| SyncTargets.ReserveOutcome | backend/internal/service/obsidian_sync.go:393-411 | exactly when a claim is reserved, and what becomes of the other claims |
| SyncTargets.TombstonePut | backend/internal/storage/sqlite/sync.go:511-541 | which tombstones a new one takes the place of |
| SyncTargets.StateSteps | backend/internal/storage/sqlite/sync.go:218-290 | when a state is recorded or forgotten |
| SyncRuns.UnchangedIsSame | backend/internal/handler/sync.go:661-681 | the guard passes exactly equal and readable identities |
| SyncRuns.UsedTargetKept | backend/internal/handler/sync.go:590-659 | a step neither removes a used target nor changes its identity |
| SyncRuns.IdentityConstantWhileUsed | backend/internal/handler/sync.go:590-681 | a target keeps its identity for as long as anything refers to it |
| SyncRuns.UsedTargetExists | backend/internal/handler/sync.go:623-659 | what a binding, a claim or a state refers to exists |
| SyncRuns.OneDefaultKept | backend/internal/storage/sqlite/sync.go:73-82 | at most one target of each type is the default, after every step |
| SyncRuns.MergeKeepsIdentity | backend/internal/handler/sync.go:452-490 | merging stored secrets into an update does not change what identifies the target |
| SyncRuns.BlankTokenEnvIsKept | backend/internal/handler/sync.go:439-490 | a blank `token_env` in an update keeps the stored one, although the merge alone would clear it |
| SyncRuns.TokenEnvAsSentIff | backend/internal/handler/sync.go:439-490 | update and merge disagree about `token_env` exactly when a blank one is sent without a token and one is stored |
| Transcription.Worker.TranscribePublicAudio | backend/internal/contentimport/worker.go:293-341 | the loop returns the transcript, stores the artifacts and reports the progress of the definition |
| Transcription.Worker.ChunkTextOf | backend/internal/contentimport/worker.go:294-331 | a chunk is taken from its artifact or transcribed and stored |
| Transcription.KindInjective | backend/internal/contentimport/worker.go:295 | different chunks have differently named artifacts |
| Transcription.ChunkFaithful | backend/internal/contentimport/worker.go:301-331 | every artifact stays the transcript of the audio with its hash |
| Transcription.TranscriptSays | backend/internal/contentimport/worker.go:293-341 | a transcript is, chunk by chunk in order, a header with the hours, minutes and seconds of the offset and what is spoken in the chunk, two line feeds apart and nothing else; an undisturbed attempt has one exactly when every chunk has speech |
| Transcription.KindSays | backend/internal/contentimport/worker.go:295 | the name of an artifact is its number in at least four digits behind the prefix |
| Transcription.CacheIsInvisible | backend/internal/contentimport/worker.go:293-341 | after any attempts with any chunk lists the transcript is that of a run with an empty cache |
| Transcription.ReportedChunksAreKept | backend/internal/contentimport/worker.go:301-338 | every chunk whose progress was reported is not transcribed again |
| Transcription.ProgressNeverFalls | backend/internal/contentimport/worker.go:333-338 | progress never falls, stays in 42..65 and ends at 65 |

## Left out

- Fractions, exponents and unsafe integers in JSON: `formatJCSNumber` prints them with the engine's shortest double, which is not part of this model; the parser refuses them.
- JsonGrammar.RefusedIffNotSpelled: so the texts refused here include JSON texts with such numbers.
- The host's sort algorithm: insertion sort stands in for it, and `Digest.AnyHostSorts` shows that any sorted permutation is the same one where elements that tie are equal.
- Digest.SortFieldPaths: the order of paths with one string form is left to the host by the language, because the comparator answers 1 for them both ways round; they keep their places here, as in hosts that ask only whether an answer is negative.
- Digest.SetLessIsOrder: speaks of the negative answers of the comparators; that of `field_paths` is no consistent comparator where it answers 1 for equal string forms (`Digest.ComparePaths`).
- ServerDigest.TextsAgreeIff: assumes that strings are well formed and that numbers are sent as the client prints them. With lone surrogates two elements of a list can each be printed by one side as the other side prints the other element, so that the whole agrees although neither element does; no condition on pairs or elements is exact there.
- ServerDigest.ServerMatchesClient: assumes the same of the message.
- Normalising an envelope in place: `normalizeMobileV2SemanticSets` is a function on values here, since the tree it walks was just copied; aliasing inside the copy cannot occur. The sorts it ends in are in place.
- The copy through `JSON.stringify` and `JSON.parse` in `requestDigest` and `pageChecksum` is the identity on the values modelled; path elements with their own `toString` make the source throw and are left out.
- `manifestChecksum` and `sha256Hex` add nothing to the printer and the hash.
- The nested loops of `sha256Bytes` are one method each, with the working variables as a record between them.
- Sha256.Sha256Bytes: asks that the padded buffer be shorter than 2^53 bytes, which is more than a typed array can hold.
- JavaScript and Go integer widths beyond SHA-256: counters, revisions and instants do not wrap.
- SQL text, dialects, placeholder rewriting and row locking: a statement is its effect on the tables; `SKIP LOCKED` never skips where statements are atomic.
- Users, workspaces, members, feature settings and storage jobs as rows: their foreign keys and what deleting a workspace cascades to are not part of this model. Deleting a note only marks it, as in the source; that note rows are purged later is left out.
- A taken job id in `EnsureScheduled` is reported after the workspace conflict is resolved, as the conflict target of the statement asks.
- GenerationClaims.Repository.ClaimGenerationWorkspaces: the identifiers `uuid.NewString` will return are an argument; that they never repeat is a condition on runs.
- TimeText.TimeRoundTrip: parses texts in the layout written by the repository; the more lenient `time.Parse` and its RFC 3339 fallback accept other texts too, and years beyond 9999 have no fixed-width form.
- TimeTextForm.TextIsRead: the same; a text outside the layout is refused by the model even where the fallback reads it.
- Encryption, authorization and probing: a stored secret is its plain text, and lost keys are not part of this model.
- ControlStore.Repository.CreateVersion: the next version number is an argument equal to the number the SELECT computes.
- ControlStore.Repository.ReconcileSystemCandidate: the row of the system family, which the call stores with the first version and nothing reads, is left out; configurations are compact texts.
- ControlOutcomes.OperationOutcome: the kind of a storage operation, which `BeginOperation` checks and stores beside its identifier, is not part of this model.
- `RefreshCodexCredentials` repeats the steps of a poll under a fresh name.
- CodexPoll.PollsConverge: counts what the attempts add, so nobody else writes in between; `CodexPoll.PollsConvergeAmongOthers` allows that, and both assume that no family of another kind has the flow's family name.
- The synchronisers' own logic: a synchroniser is a step that binds without a request, reserves a claim for the bound target, or records or forgets a state.
- SyncRuns.ReserveInv: is about routes that ask for a binding; those that make one in the same transaction are `SyncRuns.LegacyInv`.
- `path.Clean` and `strings.ToLower` are arguments; `config_json` is reduced to the parts the handlers read.
- SyncBindings.SyncStore.PutNoteSyncBinding: relies on the unique index on the notes of claims, which the schema enforces and every step keeps.
- Transcription.CacheIsInvisible: assumes a deterministic transcriber and hashes without collisions; heartbeats, downloads and splitting are left out.
- HTTP handlers, cookies, OAuth and AI clients, object storage, the frontend and task-domain services.
