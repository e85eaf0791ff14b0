# Threshold decryption, verified

A Dafny model of a client-server system for Shamir threshold decryption. Usersets have owners and regular members.
Two private keys, one per layer, are shared among them; a ciphertext opens only when as many owners and regular
members as the userset's thresholds say help an owner who asks for it. The model covers the three parts that have to
agree for that to work, and the theorem that joins them:

- **The algebra** (`Numbers`, `Ranges`, `ModInt`, `Poly`, `Interpolation`, `Shamir`, `Secrecy`, `Fraction`, `ElGamal`).
  Square-and-multiply, Fermat and Euclid inverses, Lagrange coefficients, restoring of secrets modulo a prime and over
  exact fractions, two-layer hybrid El-Gamal and its decryption by parts. One interpolation theorem over an integral
  domain Z/mZ, stated without division, serves both the prime field (m prime) and the rationals (m = 0).
- **The protocol** (`Packets`, `UpdateManager`, `DecryptionsManager`, `OperationRuns`, `OperationView`, `ServerStorage`,
  `ClientHandler`, `Client`). The managers, the storage, the request handlers and the requesting client are classes
  with the fields of the program; runs are arbitrary interleavings of their lock-atomic steps.
- **The codecs** (`ByteCodec`, `PacketCodec`, `PointCodec`, `ProfileStorage`). Packet bodies, compressed points and the
  append-only profile file with its iterator.
- **End to end** (`EndToEnd`). In any run, once the helpers of an operation have enrolled and sent their parts, the
  requester's plaintext is the encrypted one; this includes usersets with one or both thresholds zero. `Instances`
  meets the assumptions below with a concrete group, schema, curve and cipher, and puts the theorem to use on a run
  with one helper. `Creation` leads from a userset's creation through the profile's keys, the queued shards and the
  queued IDs to that theorem, and `Delivery` joins the protocol's updates with the codecs.

`dafny verify dfyconfig.toml` verifies everything.

## Assumptions

- The group is any associative operation with an identity in which every element raised to the prime order gives the
  identity. Key derivation is a function; symmetric decryption undoes encryption under the same key. Sampled values
  (coefficients, private keys, nonces, shard IDs, identifiers) are parameters or arbitrary choices.
- `CryptoPP::Integer` is an unbounded integer; its `%` with a positive modulus is taken to be non-negative, also of a
  negative base in `mod_pow`.
- The curve library's search for y is a function `recover` that finds a y of the given parity whenever the curve has
  one for this x. Both the field and the order of the group fit 32 bytes.
- The profile cipher turns plaintexts below 32 KiB into two blobs whose sizes fit 16 bits and are not both zero.

## Where the code and its descriptions part

The model follows the code.

- The project's README (`README.md:204-210`) has a requester wait for one part less than each threshold. The code shares
  keys by polynomials whose degree is the threshold, collects as many parts as the threshold, and adds the requester's.
- `get_lagrange_coeff` and `restore_secret` are documented to refuse repeated IDs (`senc/utils/Shamir.hpp:157` and
  `:197`); modulo a prime neither checks anything. Two shards with the same ID restore 0 without an error, whatever the
  secret (`SameIdTwice`). With one shard more than the threshold, and no ID divisible by the prime, every secret is
  restored if and only if the IDs are distinct modulo the prime (`RestoresExactly`). With more shards than that,
  distinctness is sufficient but not necessary: the IDs 1, 1, 2 restore every secret of threshold 0
  (`RepeatedIdsCanRestore`). For any IDs and any number of shards the exact condition is one on the IDs' power sums
  (`RestoresBySums`).
- `register_part` files a part by the sender's role, not by the layer the sender was enrolled for. An owner enrolled for
  the regular layer, which happens when the owner layer is full, is filed under the owner layer, and the helpers' parts
  alone do not finish the operation: `OwnersFillBothLayers` is such a run, and a single owner who is looked up twice
  can cause it. When every helper sends once, and nobody else sends, an operation finishes if and only if the regular
  layer has no owner (`OperationCompletesExactly`).
- A part is accepted from every member of the userset, enrolled or not: `handle_request` asks for a shard ID only
  (`senc/server/handlers/ConnectedClientHandler.cpp:344-355`). So a member who never enrolled can finish an operation
  instead of a helper (`OutsiderReplacesHelper`), or one that the helpers alone would not finish
  (`OutsiderFinishesBothLayers`). In general the record is handed out with the first part that makes both kinds enough
  (`PartsRun`), and it holds every part sent (`OperationDecided`). The requester's list of a layer arranges the IDs that
  the helpers were told if and only if the parts are from that layer's helpers, one from each (`ArrangedExactly`).
- The server does not keep the requester from enrolling. Then that layer's helpers are all refused a part, and only
  then (`HelperAccepted`). A member who sends twice spoils the finished record: the requester's own parts are accepted
  if and only if nobody sent twice to a layer and the requester sent to none (`JoinsExactly`).
- Together, over arbitrary senders (`FinishesRightExactly`): all helpers are told the IDs, none is refused, and a record
  is finished whose lists are those of the helpers, if and only if the helpers are members, no owner helps in the
  regular layer, the requester helps in neither, and exactly the helpers send, once each. A member who merely enrols
  twice for the same layer changes nothing.
- Looking up the shard ID of somebody who is not a member throws an exception that the request handlers do not catch, so
  the client gets no reply.
- `find_profile_record_by_userset_id` evaluates `begin()` and `end()` in an unspecified order, and both read from the
  file's one cursor. With the beginning first, the search finds the first record added (`FindRecord`). With the end
  first, the iteration starts with the content of the second record (`BeginAfterEnd`); if the first two entries are of
  one size, the search then never sees the first record (`FindRecordEndFirst`).
- A finished record that arrives before `decrypt` has noted the operation is dropped by the client (`Outcome` is
  `NotPending` exactly then). The server queues such a record before it answers when both thresholds are zero.
- `encrypt` samples its random exponents from 0 on (`senc/utils/Random_impl.hpp:82-86`). A layer's secret can be
  computed from its element of the ciphertext by exactly the exponents congruent to the private key, unless the random
  exponent is a multiple of the order, and then by all (`MatchingKeysOpen`).
- `mod_pow` returns 1 unreduced for exponents that are not positive, so 1 modulo 1 comes out as 1.
- Strings with a zero byte, lists of more than 255 entries and finished records whose ID lists are not one longer than
  their part lists do not survive the wire. The round-trip lemmas state this exactly, as equivalences. What one operation
  sends stays within these bounds (`ToDecryptSurvives`, `FinishedSurvives`); the updates of a user who does not retrieve
  them for long may not (`LookupsSurviveExactly`).

## Model

| member | source | states |
|---|---|---|
| ModInt.ModPow | senc/utils/ModInt_impl.hpp:16-38 | square-and-multiply gives the mathematical power modulo m, for every integer base, every exponent and every modulus from 1 on; 1 for exponents that are not positive |
| ModInt.SquareAndMultiplyRound | senc/utils/ModInt_impl.hpp:16-38 | one round keeps res * base^exp modulo m |
| ModInt.Fermat | senc/utils/ModInt_impl.hpp:40-53 | Fermat's little theorem, on which the exponent p - 2 rests |
| ModInt.MultiplesPermute | senc/utils/ModInt_impl.hpp:40-53 | the multiples of a value that p does not divide are a permutation of 1..p-1 modulo p |
| ModInt.InverseCorrect | senc/utils/ModInt_impl.hpp:176-188 | for a prime and a value it does not divide, the inverse lies in range and multiplies with the value to 1 |
| ModInt.PrimeModularInverse | senc/utils/ModInt_impl.hpp:40-53 | the method gives that inverse, for the modulus 2 as well |
| ModInt.DivisionUndone | senc/utils/ModInt_impl.hpp:381-390 | division is real division: a / b is the one value in range that multiplied by b gives a |
| ModInt.ModularInverse | senc/utils/ModInt_impl.hpp:55-107 | extended Euclid terminates, refuses exactly the values not coprime to the modulus, and otherwise returns the inverse in range |
| Numbers.Bezout | senc/utils/ModInt_impl.hpp:55-107 | the gcd divides both arguments and is an integer combination of them |
| Poly.IntPow | senc/utils/math.hpp:102-116 | square-and-multiply on big integers gives the exact power |
| Poly.Evaluate | senc/utils/poly_impl.hpp:96-103 | evaluation modulo p is the reduced value of the integer polynomial |
| Poly.ValueAtZero | senc/utils/poly_impl.hpp:96-103 | the value at 0 is the constant coefficient, where the secret sits |
| Poly.SampleMissingCoeffs | senc/utils/poly_impl.hpp:105-111 | given coefficients stay in front and are filled up with the sampler's values to degree + 1 in all |
| Interpolation.Interpolates | senc/utils/Shamir_impl.hpp:44-104 | weights over any distinct nodes, of any number, recover the constant term of every polynomial with at most as many coefficients as nodes |
| Interpolation.PowerSums | senc/utils/Shamir_impl.hpp:44-61 | the weighted power sums are the common denominator at exponent 0 and vanish at all others below the node count |
| Interpolation.DropNode | senc/utils/Shamir_impl.hpp:44-61 | removing an end node and scaling the other weights leaves weights for the remaining nodes |
| Shamir.MakeShard | senc/utils/Shamir_impl.hpp:16-23 | ID zero is refused; otherwise the shard is the ID and the polynomial's value there |
| Shamir.MakeShards | senc/utils/Shamir_impl.hpp:25-42 | succeeds exactly for distinct non-zero IDs, with one shard per ID in order; else the error belongs to the first offending ID |
| Shamir.SamplePoly | senc/utils/Shamir_impl.hpp:63-73 | threshold + 1 coefficients with the secret as the constant one |
| Shamir.AccumulatedProduct | senc/utils/ranges_impl.hpp:33-57 | the fold of modular products is the integer product reduced once |
| Shamir.AccumulatedSum | senc/utils/ranges_impl.hpp:59-80 | the fold of modular sums is the integer weighted sum reduced once |
| Shamir.CoeffOrderIndependent | senc/utils/Shamir_impl.hpp:44-61 | a Lagrange coefficient depends on the IDs taking part, not on their order |
| Shamir.CoeffIsWeight | senc/utils/Shamir_impl.hpp:44-61 | Lagrange coefficients of IDs distinct modulo the prime are interpolation weights at 0 |
| Shamir.WeightedValues | senc/utils/Shamir_impl.hpp:75-104 | the polynomial's values weighted by the coefficients sum up to its constant coefficient |
| Shamir.SecretRestored | senc/utils/Shamir_impl.hpp:75-104 | shards over IDs distinct modulo the prime restore the secret when there are more than the threshold, all of them used, and are refused otherwise |
| Secrecy.RestoresExactly | senc/utils/Shamir_impl.hpp:75-104 | with one shard more than the threshold and no ID divisible by the prime, every secret is restored if and only if the IDs are distinct modulo the prime |
| Secrecy.RestoresBySums | senc/utils/Shamir_impl.hpp:75-104 | for any IDs, repeated or not, and any number of shards above the threshold: every secret is restored if and only if the IDs' weighted power sums are 1 and then 0 up to the degree |
| Secrecy.TooFewResidues | senc/utils/Shamir_impl.hpp:75-104 | with at most as many residues among the IDs as the threshold, however many shards, some secret is not restored |
| Secrecy.RepeatedCoeff | senc/utils/Shamir_impl.hpp:44-61 | an ID that occurs twice gets the coefficient 0 modulo an odd prime, without an error |
| Secrecy.SameIdTwice | senc/utils/Shamir_impl.hpp:75-104 | two shards with one ID restore 0, whatever their values, where an exception is documented |
| Secrecy.RepeatedIdsCanRestore | senc/utils/Shamir_impl.hpp:75-104 | the IDs 1, 1, 2 restore every secret of threshold 0, so distinctness is not necessary there |
| Secrecy.EverySecretFits | senc/utils/Shamir_impl.hpp:63-73 | as many shards as the threshold, whatever their values, fit every secret by some choice of the sampled coefficients |
| Secrecy.OnlyOneFits | senc/utils/Shamir_impl.hpp:63-73 | and that choice is the only one, so the shards favour no secret |
| Secrecy.ZeroPolynomial | senc/utils/poly_impl.hpp:96-103 | a polynomial with as many roots as coefficients is zero modulo the prime |
| Fraction.Normalize | senc/utils/Fraction_impl.hpp:158-171 | the result is in lowest terms with a positive denominator and is the same rational number |
| Fraction.NormalCorrect | senc/utils/Fraction_impl.hpp:158-171 | the same of the value that every constructor call leaves |
| Fraction.EqualityIsRational | senc/utils/Fraction_impl.hpp:48-52 | comparing fields is equality of rational numbers |
| Fraction.PlusRepresents | senc/utils/Fraction_impl.hpp:86-90 | a sum over a common denominator is the rational sum |
| Fraction.NegatedRepresents | senc/utils/Fraction_impl.hpp:60-64 | negation is the rational one |
| Fraction.TimesRepresents | senc/utils/Fraction_impl.hpp:124-128 | a product is the rational product |
| Fraction.InverseRepresents | senc/utils/Fraction_impl.hpp:66-70 | the inverse is the rational inverse |
| Fraction.CoeffRepresents | senc/utils/Shamir_impl.hpp:44-61 | over fractions all Lagrange coefficients are the interpolation weights over one common denominator |
| Fraction.WholeDenominator | senc/utils/Shamir_impl.hpp:96-103 | a fraction that is an integer has denominator 1 |
| Fraction.IntegralSecretRestored | senc/utils/Shamir_impl.hpp:75-104 | integral secrets over distinct IDs are restored exactly, so the refusal of a fractional result cannot happen; too few shards and repeated IDs give the two errors |
| ElGamal.GroupPowMod | senc/utils/enc/HybridElGamal2L_impl.hpp:36-75 | exponents of group elements only matter modulo the group's order |
| ElGamal.IdentityExactly | senc/utils/enc/HybridElGamal2L_impl.hpp:36-75 | the powers of anything but the identity that are the identity are exactly those to multiples of the order |
| ElGamal.PowersAgreeExactly | senc/utils/enc/HybridElGamal2L_impl.hpp:36-75 | two such powers agree if and only if the exponents are congruent modulo the order |
| ElGamal.DecryptUndoesEncrypt | senc/utils/enc/HybridElGamal2L_impl.hpp:36-75 | decrypting with the private keys gives back what was encrypted under their public keys |
| ElGamal.MatchingKeysOpen | senc/utils/enc/HybridElGamal2L_impl.hpp:45-75 | the message is under the key derived from both layers' secrets; an exponent gets a layer's secret from the ciphertext if and only if it is congruent to the private key or the random exponent is a multiple of the order |
| ElGamal.ElementsAgreeExactly | senc/utils/enc/HybridElGamal2L_impl.hpp:45-63 | two encryptions agree in c1, or in c2, if and only if their random exponents for that layer are congruent modulo the order |
| ElGamal.RefusedExactly | senc/utils/Shamir_impl.hpp:115-146 | which ID lists are accepted, and which of the three errors each other list gives |
| ElGamal.DecryptGet2l | senc/utils/Shamir_impl.hpp:115-146 | refuses zero IDs, repeated IDs and a missing own ID, in this order; otherwise the layer's element is raised to the weighted shard value |
| ElGamal.PowersAccumulate | senc/utils/Shamir_impl.hpp:148-162 | a product of powers is the power to the modular sum of the exponents |
| ElGamal.PartsMultiply | senc/utils/Shamir_impl.hpp:115-162 | parts over more shards than the key's degree, computed from differently ordered ID lists, multiply to the layer's full decryption |
| ElGamal.JoinIsDecrypt | senc/utils/Shamir_impl.hpp:148-162 | joining both layers' parts gives what plain decryption with the shared keys gives |
| UpdateManager.UpdateManager.RetrieveUpdates | senc/server/managers/UpdateManager.cpp:13-20 | returns and forgets the user's pending updates, nobody else's |
| UpdateManager.UpdateManager.RegisterRegMember | senc/server/managers/UpdateManager.cpp:22-34 | the user's pending member records grow by exactly this record, its other updates and everybody else's stay |
| UpdateManager.UpdateManager.RegisterOwner | senc/server/managers/UpdateManager.cpp:36-49 | the user's pending owner records grow by exactly this record, with both keys and both shards in order; its other updates and everybody else's stay |
| UpdateManager.UpdateManager.RegisterLookup | senc/server/managers/UpdateManager.cpp:51-55 | the user's pending lookups grow by exactly this operation, its other updates and everybody else's stay |
| UpdateManager.UpdateManager.RegisterDecryptionParticipating | senc/server/managers/UpdateManager.cpp:57-66 | the user's pending ciphertexts grow by exactly this record, its other updates and everybody else's stay |
| UpdateManager.UpdateManager.RegisterFinishedDecryption | senc/server/managers/UpdateManager.cpp:68-80 | the user's pending finished records grow by exactly this record, its other updates and everybody else's stay |
| UpdateManager.Conservation | senc/server/managers/UpdateManager.cpp:13-80 | over any interleaving of calls and for each of the five kinds: what a user has retrieved of that kind followed by what is pending there is what was pending before followed by the records of that kind registered for that user, in order |
| UpdateManager.RegisteredOnce | senc/server/managers/UpdateManager.cpp:22-80 | one item each for distinct users: every user listed has its own item behind what was pending, and nobody else anything |
| DecryptionsManager.DecryptionsManager.NewOperation | senc/server/managers/DecryptionsManager.cpp:27-33 | the new ID joins the known ones and nothing else changes |
| DecryptionsManager.DecryptionsManager.PrepareOperation | senc/server/managers/DecryptionsManager.cpp:35-50 | a new record without participants, unless the operation is prepared already |
| DecryptionsManager.DecryptionsManager.RegisterParticipant | senc/server/managers/DecryptionsManager.cpp:52-102 | the whole new state, what the volunteer is required for, and the complete record exactly when this enrolment fills it |
| DecryptionsManager.DecryptionsManager.RegisterPart | senc/server/managers/DecryptionsManager.cpp:104-128 | the part and ID are filed by the sender's role; the record is handed out and removed exactly when both kinds suffice |
| DecryptionsManager.DecryptionsManager.GetOperationUserset | senc/server/managers/DecryptionsManager.cpp:130-147 | the userset of a prepared or else of a collected operation |
| OperationRuns.InvariantInitially | senc/server/managers/DecryptionsManager.cpp:27-128 | the invariant holds of the empty manager |
| OperationRuns.StepPhase | senc/server/managers/DecryptionsManager.cpp:27-128 | exactly which events move an operation on, and each phase is reached from the one before it |
| OperationRuns.StepRecords | senc/server/managers/DecryptionsManager.cpp:74-128 | every event keeps prepared records within the required numbers with one strictly short, and collected layers with as many parts as IDs |
| OperationRuns.RecordHandedOut | senc/server/managers/DecryptionsManager.cpp:86-128 | a promoted record has exactly the required participants of both kinds; a completed one has enough parts, each with its ID |
| OperationRuns.StepHandedOut | senc/server/managers/DecryptionsManager.cpp:52-128 | every event keeps that each operation has handed out at most one record of each kind, according to its phase |
| OperationRuns.RunKeeps | senc/server/managers/DecryptionsManager.cpp:27-128 | every run keeps all of the above, and no operation moves backwards |
| OperationRuns.Lifecycle | senc/server/managers/DecryptionsManager.cpp:27-128 | in every reachable state no operation is both prepared and collected, both are known operations, and each operation yields at most one record of each kind |
| OperationRuns.RunForward | senc/server/managers/DecryptionsManager.cpp:27-128 | from any state with disjoint phases, no run takes an operation backwards |
| OperationRuns.LookupFindsLive | senc/server/managers/DecryptionsManager.cpp:130-147 | with any events between its two locks, the lookup finds the unchanged userset of an operation that is live from call to return |
| OperationRuns.ReversedLookupMisses | senc/server/managers/DecryptionsManager.cpp:88-99 | with the locks taken in the other order, a promotion in between would hide a live operation |
| OperationView.StepView | senc/server/managers/DecryptionsManager.cpp:27-128 | an event changes an operation's own records as if it were alone, and no other operation's |
| OperationView.RunView | senc/server/managers/DecryptionsManager.cpp:27-128 | over any run an operation's records depend only on its own events, less the volunteers that change nothing |
| OperationView.IdleExactly | senc/server/managers/DecryptionsManager.cpp:52-102 | a volunteer changes nothing exactly when the operation is not prepared, the volunteer is not required, or is in the layer already |
| OperationView.EnrolmentRun | senc/server/managers/DecryptionsManager.cpp:52-102 | while the helpers enrol in any order the record fills; the last of them, and none earlier, has it handed out complete |
| OperationView.CollectionRun | senc/server/managers/DecryptionsManager.cpp:104-128 | while they send parts in any order these are gathered by layer in order of arrival; the last of them has the record handed out |
| OperationView.PartsRun | senc/server/managers/DecryptionsManager.cpp:104-128 | whoever sends, in any order and however often: parts are gathered by role, and the record is handed out with the first part that makes both kinds enough |
| OperationView.CompletesExactly | senc/server/managers/DecryptionsManager.cpp:104-128 | with every helper sending once, and nobody else, the record is handed out if and only if no helper of the regular layer has the owner's role |
| OperationView.PromotedByRoles | senc/server/managers/DecryptionsManager.cpp:74-102 | over any volunteers with their roles, only owners are in the owner layer and promoted records have exactly the required helpers |
| OperationView.OperationCompletesExactly | senc/server/managers/DecryptionsManager.cpp:52-128 | in any run, whichever volunteers filled the record: with every helper sending once, and nobody else, it finishes if and only if its regular layer is free of owners |
| OperationView.OperationDecided | senc/server/managers/DecryptionsManager.cpp:104-128 | whoever sends after that: a record is finished if and only if the parts suffice by the senders' roles, and it holds all of them |
| OperationView.OwnersFillBothLayers | senc/server/managers/DecryptionsManager.cpp:75-125 | a run in which two owners, or one twice, fill both layers, and their parts do not finish the operation |
| OperationView.OutsiderFinishesBothLayers | senc/server/handlers/ConnectedClientHandler.cpp:340-375 | in that run the part of a regular member who never enrolled then finishes it |
| OperationView.OutsiderReplacesHelper | senc/server/handlers/ConnectedClientHandler.cpp:340-375 | a run in which one owner enrols and the part of another, who did not, finishes the operation |
| OperationView.ChosenElements | senc/server/managers/DecryptionsManager.cpp:104-128 | each layer's part of the arrivals has exactly that layer's helpers, each once |
| OperationView.OperationCompletes | senc/server/managers/DecryptionsManager.cpp:27-128 | an operation whose helpers enrol and send once, interleaved with repeated and late volunteers and anything else, hands out exactly one complete record of each kind |
| ServerStorage.ShortTermServerStorage.NewUser | senc/server/storage/ShortTermServerStorage.cpp:18-27 | an existing user is refused; otherwise one user without usersets is added |
| ServerStorage.ShortTermServerStorage.NewUserset | senc/server/storage/ShortTermServerStorage.cpp:46-111 | succeeds exactly when all members exist, then adds the userset, its owners' entries and one fresh ID in 1..255 per member; else nothing changes |
| ServerStorage.ShortTermServerStorage.DrawShardIds | senc/server/storage/ShortTermServerStorage.cpp:76-107 | every member ends up with one ID of its own in range, earlier IDs stay |
| ServerStorage.ShortTermServerStorage.UserOwnsUserset | senc/server/storage/ShortTermServerStorage.cpp:125-132 | in consistent storage the answer is whether the user is among the userset's stored owners |
| ServerStorage.ShortTermServerStorage.GetUsersetInfo | senc/server/storage/ShortTermServerStorage.cpp:134-146 | the stored information, or that there is none |
| ServerStorage.ShortTermServerStorage.GetShardId | senc/server/storage/ShortTermServerStorage.cpp:148-152 | the stored ID, or none for somebody who is not a member |
| ServerStorage.IdLeft | senc/server/storage/ShortTermServerStorage.cpp:76-107 | with fewer than 255 IDs drawn, sampling can still find one |
| ServerStorage.AddedConsistent | senc/server/storage/ShortTermServerStorage.cpp:46-111 | adding a userset keeps all IDs distinct per userset and in range, and owners' entries in agreement with the usersets |
| ServerStorage.ReachableConsistent | senc/server/storage/ShortTermServerStorage.cpp:15-111 | every reachable storage state is consistent in this sense |
| ClientHandler.ConnectedClientHandler.MakeUserset | senc/server/handlers/ConnectedClientHandler.cpp:47-103 | both polynomials are the private key and then the sampled values; every co-owner and regular member has its own record queued, with both public keys and the values at its stored ID; sharing is refused exactly when an owner or a regular member is listed twice, and unknown users change nothing |
| ClientHandler.DealtTells | senc/server/handlers/ConnectedClientHandler.cpp:87-100 | user by user: a co-owner's pending owner records grow by the regular and the owner polynomial's values at its stored ID, each in its field, a regular member's by the regular one's, and nothing else changes |
| ClientHandler.ConnectedClientHandler.DealShards | senc/server/handlers/ConnectedClientHandler.cpp:71-85 | every member's shards are made from its stored ID; refused exactly when an owner or a regular member is listed twice |
| ClientHandler.IdsValid | senc/server/handlers/ConnectedClientHandler.cpp:71-85 | stored IDs pass the checks of `make_shards` exactly when no user is listed twice |
| ClientHandler.ConnectedClientHandler.InitiateDecryption | senc/server/handlers/ConnectedClientHandler.cpp:105-139 | with both thresholds zero the record is finished at once and never prepared; otherwise it is prepared, and every other member's pending lookups grow by this operation once for each kind it is listed as, nobody else's |
| ClientHandler.LookupTells | senc/server/handlers/ConnectedClientHandler.cpp:133-136 | user by user, what walking through all owners and then all regular members but the requester queues |
| ClientHandler.ConnectedClientHandler.ContinueOperation | senc/server/handlers/ConnectedClientHandler.cpp:141-166 | when everybody is a member, each owner helper has the ciphertext queued with the stored IDs of the requester and the owner helpers, each regular helper with those of the requester and the regular helpers, and nobody else anything; otherwise nothing is queued |
| ClientHandler.ContinuedTells | senc/server/handlers/ConnectedClientHandler.cpp:141-166 | the same user by user and index by index: the requester's stored ID first, then the layer's own helpers' |
| ClientHandler.ConnectedClientHandler.FinishOperation | senc/server/handlers/ConnectedClientHandler.cpp:168-181 | the requester is sent all parts, and the IDs of both layers with its own behind |
| ClientHandler.ConnectedClientHandler.HandleParticipate | senc/server/handlers/ConnectedClientHandler.cpp:289-338 | the reply, or that there is none, the manager's new state and the queued updates, for live, unknown and full operations alike; the completing enrolment leaves every helper told its own layer's IDs |
| ClientHandler.ConnectedClientHandler.HandleSendPart | senc/server/handlers/ConnectedClientHandler.cpp:340-375 | a member's part is filed under its stored ID and role; the completing part sends the finished record to the requester; who has no shard ID gets no reply |
| Client.Client.Decrypt | senc/client_api/Client_impl.hpp:162-173 | the ciphertext is remembered under the operation; a known one keeps its entry |
| Client.Client.AddProfileRecord | senc/client_api/Client_impl.hpp:264-270 | the profile file holds the new record behind all that were added before |
| Client.Client.FindProfileRecord | senc/client_api/Client_impl.hpp:243-262 | searching the file finds the first record added for the userset, or none |
| Client.Client.Encrypt | senc/client_api/Client_impl.hpp:150-160 | the message is encrypted under the keys of the first record added for the userset, the regular layer's first; without a record there is no ciphertext |
| Client.Client.Outcome | senc/client_api/Client_impl.hpp:340-372 | nothing comes of a record exactly when its operation is not noted |
| Client.Client.HandleFinishedDecryption | senc/client_api/Client_impl.hpp:340-372 | the entry is taken out, both own parts are added last and everything is joined; each way it can fail |
| EndToEnd.LayerIds | senc/server/handlers/ConnectedClientHandler.cpp:145-180 | the helpers' requester-first list and the requester's arrival-order list arrange the same distinct IDs |
| EndToEnd.LayerDecrypts | senc/client_api/Client_impl.hpp:353-368 | all parts of a layer, with the requester's own, multiply to the layer's decryption |
| EndToEnd.HelperAccepted | senc/utils/Shamir_impl.hpp:115-146 | a helper's part is refused if and only if the requester is among the layer's helpers |
| EndToEnd.RequesterAcceptedExactly | senc/utils/Shamir_impl.hpp:115-146 | the requester's part is accepted if and only if the layer's senders are distinct and the requester is not one of them |
| EndToEnd.JoinsExactly | senc/client_api/Client_impl.hpp:340-372 | the requester gets a plaintext from a finished record if and only if that holds of both layers |
| EndToEnd.MembersToldExactly | senc/server/handlers/ConnectedClientHandler.cpp:141-151 | the IDs of helpers can be listed exactly when all of them are members |
| EndToEnd.SucceedsExactly | senc/server/handlers/ConnectedClientHandler.cpp:141-375 | when every helper sends once, and nobody else: all helpers are told the IDs, none is refused and the operation finishes if and only if the helpers are members, none of the regular layer is an owner and the requester is not among them |
| EndToEnd.ArrangedExactly | senc/server/handlers/ConnectedClientHandler.cpp:145-180 | the requester's list of a layer arranges the IDs its helpers were told if and only if the arrivals are these helpers, each once |
| EndToEnd.FinishesRightExactly | senc/server/handlers/ConnectedClientHandler.cpp:141-375 | over arbitrary members sending: everybody is told, nobody is refused and a record with the helpers' lists is finished, if and only if the helpers staff the operation and exactly they send, once each |
| EndToEnd.ClientOutcome | senc/client_api/Client_impl.hpp:340-372 | with the operation noted and both shards in the profile, the client's outcome is what joining gives |
| EndToEnd.ClientDecrypts | senc/client_api/Client_impl.hpp:340-372 | the whole protocol up to the client class: handling the finished record ends with the encrypted plaintext |
| EndToEnd.HelpersAccepted | senc/utils/Shamir_impl.hpp:115-146 | with stored IDs no helper's part is refused |
| EndToEnd.CreatedStaffed | senc/server/handlers/ConnectedClientHandler.cpp:47-103 | a userset just created meets the end-to-end theorem's conditions for any helpers that meet its thresholds |
| EndToEnd.StaysStaffed | senc/server/storage/ShortTermServerStorage.cpp:18-111 | and goes on meeting them whatever users and usersets are added |
| EndToEnd.ListedIds | senc/server/handlers/ConnectedClientHandler.cpp:141-166 | the ID lists the server sends are made of those IDs |
| EndToEnd.FinishedLayer | senc/client_api/Client_impl.hpp:353-368 | one layer of a finished record multiplies to the layer's decryption once the requester's part is added |
| EndToEnd.FinishedDecrypts | senc/client_api/Client_impl.hpp:340-372 | what the requester joins from a finished record is plain decryption with the two shared keys |
| EndToEnd.OperationFinishes | senc/server/handlers/ConnectedClientHandler.cpp:289-375 | with roles taken from storage, the operation hands out the one record holding exactly its helpers' parts |
| EndToEnd.ThresholdDecryption | senc/server/handlers/ConnectedClientHandler.cpp:105-181 | in any run in which helpers that staff the operation enrol and then send their parts, exactly one finished record comes out and the requester's join is the encrypted plaintext |
| EndToEnd.SoleDecryption | senc/server/handlers/ConnectedClientHandler.cpp:113-122 | with both thresholds zero the record finished on the spot gives the requester the plaintext |
| Creation.Create | senc/server/handlers/ConnectedClientHandler.cpp:47-103 | a creator's userset is stored with the keys shared by the sampled polynomials; the creator's profile has both public keys in order and its own shards, all other members have theirs queued, and as many members' shards as a threshold fit every secret in exactly one way |
| Creation.DealtFitOnce | senc/utils/Shamir_impl.hpp:16-73 | the shards dealt to any members of a stored userset, as many as a layer's threshold, fit every secret by exactly one choice of the sampled coefficients |
| Creation.Keep | senc/client_api/Client_impl.hpp:104-125 | the first record of the userset in the profile has the regular and the owner layer's public key, each in its field, and both own shards |
| Creation.HandleAddedAsOwner | senc/client_api/Client_impl.hpp:305-315 | a co-owner's client that handles the record queued for it keeps the same keys, and its own shards |
| Creation.EncryptKept | senc/client_api/Client_impl.hpp:150-160 | what such an owner encrypts is under the userset's public keys, each layer under its own |
| Creation.Ask | senc/client_api/Client_impl.hpp:150-173 | encrypting with the profile's keys and requesting leaves the operation prepared for this ciphertext, all other members told to look it up, and the operation noted by the client, whose profile has both shards |
| Creation.ToldParticipate | senc/server/handlers/ConnectedClientHandler.cpp:141-166 | helpers that compute their parts from the records queued for them, with their dealt shards, are the helpers the end-to-end theorem asks for |
| Creation.AskedDecrypts | senc/client_api/Client_impl.hpp:340-372 | from there, once enough helpers have sent the parts computed from what was queued for them, the client ends up with the plaintext |
| Delivery.ToDecryptSurvives | senc/common/EncryptedPacketHandler.cpp:801-825 | what helpers of a staffed operation are sent is within the counts and sizes of the wire format |
| Delivery.FinishedSurvives | senc/common/EncryptedPacketHandler.cpp:827-872 | so is the finished record of a staffed operation |
| Delivery.FinishedDelivered | senc/common/EncryptedPacketHandler.cpp:414-498 | the requester of a staffed operation reads the finished record as it was sent |
| Delivery.LongBacklogLost | senc/common/EncryptedPacketHandler.cpp:414-498 | a response with more than 255 entries of any kind is not received as it was sent |
| Delivery.LookupsSurviveExactly | senc/server/managers/UpdateManager.cpp:13-55 | all lookups registered since the last retrieval are received if and only if there are at most 255 |
| Instances.OneHelper | senc/server/handlers/ConnectedClientHandler.cpp:105-181 | the theorem's hypotheses hold of a small run from the empty manager: one owner helps and the requester gets the plaintext |
| EndToEnd.FinishedOneMoreId | senc/server/handlers/ConnectedClientHandler.cpp:168-180 | every record ever finished has exactly one more ID than parts in each layer, as the serializer takes for granted |
| ByteCodec.DecodeEncode | senc/utils/bytes_impl.hpp:104-174 | fixed-width big-endian integers decode to what was encoded when they fit |
| ByteCodec.FirstByteHighest | senc/utils/bytes_impl.hpp:104-174 | the first byte weighs most: integers are big-endian |
| ByteCodec.BigIntReadsBack | senc/common/EncryptedPacketHandler.cpp:601-631 | big integers read back, with absence (size 0) told apart from zero |
| ByteCodec.StringReadsBack | senc/utils/bytes_impl.hpp:93-149 | a string reads back exactly when it holds no zero byte |
| ByteCodec.ListReadsBack | senc/common/EncryptedPacketHandler.cpp:801-872 | a list reads back when its elements do, whatever follows |
| ByteCodec.FillList | senc/common/EncryptedPacketHandler.cpp:810-825 | the reading loop is the recursive reader: same elements, same cursor, same failures |
| ByteCodec.Buffer.WriteList | senc/common/EncryptedPacketHandler.cpp:414-446 | the writing loop appends the elements' encodings in order and nothing else |
| PacketCodec.PointReadsBack | senc/common/EncryptedPacketHandler.cpp:633-662 | points and the identity read back, whatever follows |
| PacketCodec.IdReadsBack | senc/common/EncryptedPacketHandler.cpp:675-689 | shard IDs read back |
| PacketCodec.ShardReadsBack | senc/common/EncryptedPacketHandler.cpp:691-707 | shards read back |
| PacketCodec.CiphertextReadsBack | senc/common/EncryptedPacketHandler.cpp:709-747 | ciphertexts with both blobs read back |
| PacketCodec.OwnerReadsBack | senc/common/EncryptedPacketHandler.cpp:760-780 | an owner's record reads back |
| PacketCodec.MemberReadsBack | senc/common/EncryptedPacketHandler.cpp:782-799 | a member's record reads back |
| PacketCodec.ToDecryptReadsBack | senc/common/EncryptedPacketHandler.cpp:801-825 | a ciphertext to take part in reads back with up to 255 IDs |
| PacketCodec.FinishedReadsBack | senc/common/EncryptedPacketHandler.cpp:827-872 | a finished record reads back when its ID lists are one longer than its part lists |
| PacketCodec.ReadIsCounted | senc/common/EncryptedPacketHandler.cpp:448-498 | whatever bytes are read, the result's lists are as long as the counts can tell |
| PacketCodec.UpdateRoundTrip | senc/common/EncryptedPacketHandler.cpp:414-498 | an update response reads back, ending at the buffer's end, exactly when all its lists are within the counts |
| PacketCodec.UpdateLayout | senc/common/EncryptedPacketHandler.cpp:414-446 | five one-byte counts and then five lists, owners' records before members' in both |
| PacketCodec.SendUpdate | senc/common/EncryptedPacketHandler.cpp:414-446 | the buffer filled step by step is the encoding the round trip is about |
| PacketCodec.ReceiveUpdate | senc/common/EncryptedPacketHandler.cpp:448-498 | the reading method is the reader the round trip is about |
| PacketCodec.NamesRoundTrip | senc/common/EncryptedPacketHandler.cpp:328-362 | member lists read back exactly when they have at most 255 names and no name holds a zero byte |
| PacketCodec.RequestRoundTrip | senc/common/EncryptedPacketHandler.cpp:206-245 | the same for a request for a userset with its thresholds |
| PointCodec.SquareRoots | senc/utils/ECGroup.cpp:93-116 | values with equal squares modulo a prime are equal or opposite |
| PointCodec.ParityDecides | senc/utils/ECGroup.cpp:93-116 | two points over one x with y of equal parity are the same |
| PointCodec.DecodeEncodePoint | senc/utils/ECGroup.cpp:93-132 | decoding undoes encoding for every point of the curve and the identity |
| PointCodec.CompressedForm | senc/utils/ECGroup.cpp:118-132 | the first byte is 2 or 3 by the parity of y, the other 32 are x, as in SEC 1, section 2.3.3 |
| PointCodec.EncodeInjective | senc/utils/ECGroup.cpp:118-132 | no two points, the identity included, share an encoding |
| ProfileStorage.ShardFieldReadsBack | senc/common/aliases.cpp:42-74 | fixed-width shards with IDs in 1..255 and values below the order read back |
| ProfileStorage.KeyFieldReadsBack | senc/common/aliases.cpp:13-33 | fixed-width public keys read back |
| ProfileStorage.ParseSerialize | senc/client_api/storage/ProfileStorage.cpp:83-146 | a serialized record parses back, with its owner flag and all shards |
| ProfileStorage.AddProfileData | senc/client_api/storage/ProfileStorage.cpp:52-75 | a file of records becomes the file of these records and the new one |
| ProfileStorage.EntryAt | senc/client_api/storage/ProfileStorage.cpp:52-75 | in the file of any records, the sizes and blobs of each stand right behind those of the one before |
| ProfileStorage.SealedOpen | senc/client_api/storage/ProfileStorage.cpp:24-75 | every record added can be told from the file's end and opens to itself |
| ProfileStorage.FileLayout | senc/client_api/storage/ProfileStorage.cpp:184-191 | each start and entry size give the next start, and only behind the last entry the file ends |
| ProfileStorage.ProfileDataIterator.constructor | senc/client_api/storage/ProfileStorage.cpp:148-153 | a new iterator holds the entry at the file's cursor, whatever its own position |
| ProfileStorage.ProfileDataIterator.Load | senc/client_api/storage/ProfileStorage.cpp:15-50 | sizes and content of the entry at the cursor, which moves behind it; nothing at the end |
| ProfileStorage.ProfileDataIterator.Advance | senc/client_api/storage/ProfileStorage.cpp:160-167 | the iterator moves to the next entry and holds it |
| ProfileStorage.IterProfileData | senc/client_api/storage/ProfileStorage.cpp:148-219 | iterating from a beginning taken before the end yields exactly the added records in order and stops at the file's end |
| ProfileStorage.FirstIsFirst | senc/client_api/Client_impl.hpp:245-261 | no record before the one found is of the userset |
| ProfileStorage.FindRecord | senc/client_api/Client_impl.hpp:245-261 | with the beginning taken first, the search over the iterators finds the first record added for the userset |
| ProfileStorage.FindRecordEndFirst | senc/client_api/Client_impl.hpp:245-261 | with the end taken first and the first two entries of one size, the search finds the first record of the userset behind the very first one |
| ProfileStorage.BeginAfterEnd | senc/client_api/Client_impl.hpp:245-261 | with the end taken first, the beginning holds the second record, or none |

## Left out

- DecryptionsManager.DecryptionsManager.RegisterPart: requires a collected operation, because the code looks the record up without a check.
- DecryptionsManager.DecryptionsManager.NewOperation: takes an unused ID as a parameter instead of sampling until one is found.
- ClientHandler.ConnectedClientHandler.HandleSendPart: requires that a part which can be filed does not come while the operation is still being prepared, for the same reason.
- ServerStorage.ShortTermServerStorage.NewUserset: requires at most 255 members, counting a user listed as both kinds twice; with more, the sampling of shard IDs would not end.
- ClientHandler.ConnectedClientHandler.MakeUserset: has the same bound on the members.
- Creation.Create: has it too, and takes the function from group elements to curve points as a parameter.
- Creation.Ask: takes the inverse of that function as a parameter.
- Client.Client.HandleFinishedDecryption: requires the requester to be an owner of the userset, because the owner-layer shard is used without a check.
- PacketCodec.ReceiveUpdate: input that is cut short or malformed gives None, where the code throws or reads on; readers of single fields are functions over the remaining bytes rather than methods moving a cursor.
- Fraction.IntegralSecretRestored: unbounded integers only; overflow of fixed-width fractions and `std::pow` on doubles are not modelled.
- Fraction.Normalize: works on the two numbers it is given; updating a fraction in place and the compound operators of fractions and modular integers are modelled on values, so aliasing of their operands is not captured.
- Thread scheduling below the granularity of locks, and `register_participant`'s reading of the known operations without their lock.
- AES, HKDF, PBKDF2, random generators, elliptic-curve arithmetic and big-integer internals, which are library code.
- `ECGroup` arithmetic and its identity flag: the group is abstract.
- Sockets, key exchange, encrypted framing, `QueuedPacketHandler` and `InlinePacketHandler`.
- SQLite tables, passwords, login, logout, signup, consoles, menus, loggers and the C interface.
- `Client::participate`'s search for the userset by shard ID: a helper is taken to hold the right shard.
- Postfix increments, views on ranges of different lengths and other utilities that the core does not use.
- Simple request bodies with one or two fields: they would add only easy round trips.
