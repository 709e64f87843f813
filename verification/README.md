# Ory Kratos: a verified model of its core algorithms

Most of Kratos is HTTP and SQL around libraries, but several self-contained algorithms decide whether identities,
sessions and messages stay consistent. This project models those algorithms in Dafny and proves what the code and its
documentation promise about them, for every input, every run or every schedule.

| files | part of the system |
|---|---|
| `TraitPath`, `LeafRewrite`, `PhoneTraits`, `PhoneRoutes` | the depth-first walk over a possibly cyclic compiled schema that rewrites phone traits |
| `Courier`, `CourierRuns` | the message queue: retries, requeueing, abandoning, draining |
| `JsonPointer`, `Prevalidate`, `RefCycles` | schema prevalidation: patterns and pure `$ref` cycles |
| `Conflict`, `LookupOrder` | sequential and concurrent search for a conflicting identity |
| `Base64`, `HashScan`, `HashCodec`, `HashDispatch` | printing, parsing, bounding and recognising password hashes |
| `NormalizePhone` | the batched, resumable phone migration |
| `CodeCredentials`, `Addresses`, `Oidc`, `OidcRuns`, `WebAuthn` | reconciling an identity's addresses and credentials |
| `Assurance`, `Continuity`, `JsonNumber` | session assurance levels, paused flows, JSON numbers |
| `Wrappers`, `Sorting`, `Decimal`, `Strings`, `Json` | Go's sorting, `strconv`, `strings` and JSON values |

State that the source updates in place is a class with the same fields, and its loops are loops; each such method is
proved against a specification function or predicate, and the theorems are about that specification. Where a source
function has several loops, each loop is a method of its own.

The main results:

- `PhoneRoutes.WalkRewritesExactlyPhoneLeaves`: on every schema graph the walk makes canonical exactly the string leaves
  reached by a route that repeats no schema node and ends at its first phone node.
- `CourierRuns.RunIsSound`, `CourierRuns.FinishedIsFinal`, `CourierRuns.QueueDrains`: the retry bound, at most one
  delivery, and draining, over all runs and in both failure modes.
- `RefCycles.PreValidateSchema`: a schema is accepted if and only if all its patterns compile and no chain of
  references, followed by RFC 6901, closes.
- `Conflict.EveryScheduleAgrees`, `LookupOrder.ConflictOf`: every schedule of the concurrent search gives the sequential
  answer, so the reported conflict depends on the identity alone.
- `HashCodec.GeneratedPbkdf2Compares`, `HashCodec.GeneratedArgon2idCompares`: when a printed hash accepts a password,
  as an equivalence.
- `HashDispatch.OrderIsIrrelevant`, `HashDispatch.SameFamily`, `HashDispatch.LoginParameters`: the two dispatchers agree
  on the family and on the verdict.
- `OidcRuns.RunAlignedIff`: over every run, identifiers mirror providers throughout if and only if every merge meets its
  guard.
- `NormalizePhone.ResumeIsSeamless`, `NormalizePhone.SecondRunUpdatesNothing`: the migration can be stopped and repeated.

Some properties one might expect of the code do not hold without a condition. `Oidc.MergeAlignedIff` gives the exact
condition under which a merge keeps identifiers and providers in step, and `OidcRuns.DuplicateBreaksMerge` a run that
ends misaligned. `Oidc.CollisionIff` says exactly which provider names can collide. `Base64.DecodesIff` says exactly
which strings decode to the same bytes. `CourierRuns.ChannelAbandonmentIsUndone` shows that a message a channel marked
abandoned is queued again. `Assurance.CacheTransparentIff` says exactly when a cached assurance level changes a verdict.
`TraitPath.DecodeEncode` says exactly which names survive a trait path.

## Model

| member | source | states |
|---|---|---|
| TraitPath.EscapePathSegment | identity/validator.go:229-243 | the builder loop and its shortcut both give the character-by-character escape |
| TraitPath.DecodeEncode | identity/validator.go:171-177 | escaped, dot-joined names decode back to exactly the same segments, if and only if the first is not empty |
| TraitPath.IndexSegment | identity/validator.go:188-192 | the segment printed for an index addresses that element of the array |
| TraitPath.ChildNumberIff | identity/validator.go:211-215 | a segment reaches a field iff it is its name, and an element iff it spells its index |
| TraitPath.KeysResolve | identity/validator.go:211-215 | every position below the root is addressed by the keys on the way to it |
| TraitPath.CountIsLength | identity/validator.go:186-195 | an array is iterated once per element |
| TraitPath.EncodeHidesWildcards | identity/validator.go:226-243 | no wildcard of gjson is left unescaped in a path |
| LeafRewrite.SetStringIsRewrite | identity/validator.go:211-224 | writing the normalised string at one path changes that leaf and nothing else |
| LeafRewrite.RewriteTwice | identity/validator.go:149-206 | rewriting two sets of leaves one after the other is rewriting their union, because E.164 forms are fixed points |
| LeafRewrite.AtRewrite | identity/validator.go:149-206 | a rewrite adds and removes no position of the JSON tree |
| LeafRewrite.LocateRewrite | identity/validator.go:149-206 | a rewrite changes neither what a path addresses nor how many items are there |
| PhoneTraits.Walker.NormalizePhoneAt | identity/validator.go:211-224 | misses, non-strings, unparsable and already canonical values leave the traits as they are |
| PhoneTraits.Walker.WalkPhoneTraits | identity/validator.go:149-206 | terminates on every graph, cyclic ones included, restores the shared stack, and computes the recursive walk |
| PhoneTraits.Walker.WalkCombinators | identity/validator.go:164-167 | all combinators are walked at the same path, in the order of the list, and the stack is restored |
| PhoneTraits.Walker.WalkProperties | identity/validator.go:171-177 | properties are walked in sorted order whatever order the map yields |
| PhoneTraits.Walker.WalkItems | identity/validator.go:184-204 | homogeneous items are walked once per element of the data, tuples once per schema |
| PhoneRoutes.CombinatorsAre | identity/validator.go:164-165 | the list holds exactly the allOf, anyOf and oneOf members and the not, if, then, else and $ref schemas |
| PhoneRoutes.VisitHasRoute | identity/validator.go:149-206 | every visited path is the end of a route that repeats no node and ends at its first phone node |
| PhoneRoutes.RouteIsVisited | identity/validator.go:149-206 | the end of every such route is visited, so a shared definition is handled at each of its positions |
| PhoneRoutes.WalkOnRewritten | identity/validator.go:149-206 | a walk over already rewritten traits adds its own leaves to those rewritten before |
| PhoneRoutes.WalkRewritesExactlyPhoneLeaves | identity/validator.go:149-206 | the walk rewrites exactly the string leaves at the ends of such routes, whose edges and phone nodes are given by the fields of the schema |
| PhoneRoutes.WalkLeaf | identity/validator.go:149-224 | leaf by leaf: phone strings become canonical, every other leaf, all keys and all array lengths stay |
| PhoneRoutes.WalkIdempotent | identity/validator.go:149-224 | a second walk changes nothing |
| PhoneRoutes.NormalizePhoneTraits | identity/validator.go:128 | one walk from the traits schema with an empty stack gives that rewrite |
| PhoneRoutes.EmptyNameLosesItsLevel | identity/validator.go:172-175 | why empty property names are excluded: below one at the top, every path is the path without that level |
| Courier.Worker.SetStatusFrom | courier/courier_dispatcher.go:150-159 | exactly the messages from position k on get the status |
| Courier.Worker.DispatchMessage | courier/courier_dispatcher.go:46-97 | the attempt is counted whatever happens; sent exactly on success; a channel may leave the message abandoned on failure |
| Courier.Worker.ProcessOne | courier/courier_dispatcher.go:123-170 | one position: give up past the limit, else attempt, record, and on failure requeue from here on |
| Courier.Worker.DispatchQueue | courier/courier_dispatcher.go:99-173 | a round treats each pulled message on its own: sent, abandoned or queued, never processing; no later failure requeues an earlier sent message and no earlier failure hides a later success |
| CourierRuns.RoundKeepsSound | courier/courier_dispatcher.go:99-173 | a round keeps the invariant on attempts, records, deliveries and status |
| CourierRuns.RunIsSound | courier/courier_dispatcher.go:99-173 | in every run no message is attempted more than maxRetries+1 times, records equal attempts, nothing is delivered twice, nothing stays processing |
| CourierRuns.FinishedIsFinal | courier/courier_dispatcher.go:115-170 | a sent or abandoned message is the same in every later store |
| CourierRuns.ChannelAbandonmentIsUndone | courier/smtp_channel.go:185 | the requeue puts a message the channel marked abandoned back in the queue |
| CourierRuns.RoundSpends | courier/courier_dispatcher.go:65-124 | the sum of maxRetries+2 minus send count over unfinished messages falls in each non-empty round |
| CourierRuns.WorkingProgress | courier/courier_dispatcher.go:99-173 | after n rounds that sum has fallen by n, or nothing is queued |
| CourierRuns.QueueDrains | courier/courier_dispatcher.go:99-173 | in both failure modes every message ends up sent or abandoned after at most that many rounds |
| JsonPointer.EscapeIsToken | schema/prevalidate.go:155-159 | the two-pass escape is the one-pass escape |
| JsonPointer.UntokenToken | schema/prevalidate.go:155-159 | unescaping by section 4 of RFC 6901 inverts the escape, and no slash is left in a token |
| JsonPointer.TokenUntoken | schema/prevalidate.go:155-159 | no other slash-free token unescapes to the same name |
| JsonPointer.TokenFindsChild | schema/prevalidate.go:100-111 | the token written for a child leads to that child |
| JsonPointer.TokenIsUnique | schema/prevalidate.go:100-111 | no other token leads to it, array indices without leading zeros included |
| JsonPointer.PointerIffEvaluates | schema/prevalidate.go:66-115 | a pointer string evaluates to a node if and only if it is the path the walk builds for it, so distinct nodes have distinct paths |
| Prevalidate.RefTargetIff | schema/prevalidate.go:73-80 | the recorded target is the pointer the $ref names: the root for an empty one, # and #/, else what follows the # |
| Prevalidate.WrittenRefSteps | schema/prevalidate.go:78 | a $ref written with the pointer of a node steps to that node, except for the pointer / because #/ is the root |
| Prevalidate.ExternalRefHasNoStep | schema/prevalidate.go:69-80 | any other $ref has no step and is not recorded |
| Prevalidate.PatternsHereIff | schema/prevalidate.go:85-98 | the checks at one node are validity of its pattern and of every patternProperties key |
| Prevalidate.RefsAreRecorded | schema/prevalidate.go:73-80 | every recorded entry comes from a local reference of the document |
| Prevalidate.RecordedIsInRefs | schema/prevalidate.go:73-80 | every local reference of the document is recorded |
| Prevalidate.RefsAreTheReferences | schema/prevalidate.go:66-115 | the recorded map is the document's reference graph, node by node |
| Prevalidate.PreValidator.Walk | schema/prevalidate.go:66-115 | succeeds iff all patterns below compile, and then has added exactly the references below |
| Prevalidate.PreValidator.WalkChildren | schema/prevalidate.go:100-111 | the same for the loops over members and items |
| Prevalidate.PatternsBelowIsValid | schema/prevalidate.go:85-98 | the recursive check is validity of every pattern and pattern key at every position |
| RefCycles.CycleNeverEnds | schema/prevalidate.go:127-149 | a chain that runs into a cycle never leaves the references |
| RefCycles.FollowFrom | schema/prevalidate.go:129-147 | either a cycle is returned or the chain from this start ends within the number of references |
| RefCycles.DetectRefCycles | schema/prevalidate.go:127-149 | reports a cycle iff there is one, in whatever order the map yields the starts |
| RefCycles.CycleIsRecorded | schema/prevalidate.go:66-149 | every cycle of reference nodes is a cycle of recorded paths |
| RefCycles.ReportedCycleIsReal | schema/prevalidate.go:127-149 | a reported chain consists of the pointers of a cycle of reference nodes |
| RefCycles.PreValidateSchema | schema/prevalidate.go:50-56 | accepted iff all patterns are valid and no chain of references closes; in an accepted document every chain ends within the number of references |
| Conflict.FindSequential | identity/manager.go:148-161 | the lowest-index lookup with a match or an error decides |
| Conflict.ScheduleKeepsInv | identity/manager.go:173-185 | in every reachable state at most 8 lookups run and each element is blank or its own lookup's outcome |
| Conflict.Resolve | identity/manager.go:189-197 | outcomes are resolved in priority order |
| Conflict.EveryScheduleAgrees | identity/manager.go:145-198 | under every schedule a finished search has exactly the sequential answer |
| Conflict.FirstConflict | identity/manager.go:142-145 | the answer as a function of the lookups |
| Conflict.FirstConflictUnique | identity/manager.go:142-145 | that answer is the only one |
| Conflict.FailureIff | identity/manager.go:150-155 | a failure is reported iff a lookup fails with it and all before it find nothing |
| Conflict.MatchIff | identity/manager.go:150-159 | a match is reported iff a lookup returns it without an error and all before it find nothing |
| Conflict.NotFoundIff | identity/manager.go:161 | no rows are reported iff every lookup finds nothing |
| Conflict.SchedulesFinish | identity/manager.go:174-188 | no schedule gets stuck, and each finishes after two steps per lookup |
| Conflict.FindConcurrent | identity/manager.go:169-197 | the goroutine loop, with any choice of who goes next, returns the sequential answer |
| Conflict.FindFirstConflict | identity/manager.go:145-198 | inside and outside a transaction the answer is the same |
| LookupOrder.LookupList | identity/manager.go:207-236 | the list built from the maps is a function of the identity, not of the iteration order |
| LookupOrder.PriorityIsComplete | identity/manager.go:207-236 | the list asks for exactly the identifiers and addresses of the identity |
| LookupOrder.PriorityIsOrdered | identity/manager.go:204-206 | credentials by sorted type come before verifiable addresses, and these before recovery addresses |
| LookupOrder.PriorityKeepsOrder | identity/manager.go:207-236 | identifiers of one type, verifiable and recovery addresses are each asked for in their own order |
| LookupOrder.ConflictOf | identity/manager.go:200-241 | the search over the list returns one answer determined by the identity, inside and outside a transaction, for every iteration order and every schedule |
| LookupOrder.ConflictIsOwn | identity/manager.go:204-206 | a reported conflict answers the first query of the list that decides |
| Base64.DecodeEncode | hash/hasher_pbkdf2.go:56-66 | strict unpadded decoding recovers the encoded bytes (section 4 of RFC 4648) |
| Base64.DecodesIff | hash/hash_comparator.go:514-523 | the strict decoder, which skips line breaks, yields some bytes for exactly the strings that are their encoding once carriage returns and line feeds are dropped |
| Base64.PackKeepsBits | hash/hasher_pbkdf2.go:63-64 | four symbols spell the number that three bytes spell, with zero bits for missing bytes |
| Base64.SymbolTable | hash/hasher_pbkdf2.go:63-64 | the alphabet of table 1 of RFC 4648 |
| Base64.PaddedRoundTrip | hash/hash_comparator.go:547-557 | the padded form is decoded back too |
| HashScan.FieldPrinted | hash/hash_comparator.go:506-509 | a printed number is scanned back up to the next character that is not a digit |
| HashCodec.GeneratePbkdf2 | hash/hasher_pbkdf2.go:34-70 | draws the salt, derives the key and returns exactly the text of the format with these settings, salt and key |
| HashCodec.PrfByName | hash/hasher_pbkdf2.go:76-95 | each name selects its own hash function and every other name SHA-256 |
| HashCodec.DecodePbkdf2 | hash/hash_comparator.go:493-527 | decoded iterations are within bounds; the lengths are those of the decoded salt and key |
| HashCodec.Pbkdf2RoundTrip | hash/hash_comparator.go:493-527 | decoding a printed hash recovers algorithm, iterations, salt and key, or fails for a name with a dollar sign or iterations out of bounds |
| HashCodec.GeneratedPbkdf2Compares | hash/hash_comparator.go:243-263 | a generated hash accepts a password iff the name has no dollar sign, the iterations are within bounds and the same key is derived |
| HashCodec.GenerateArgon2id | hash/hasher_argon2.go:49-87 | draws the salt, derives the key with memory in KiB and returns exactly the text of the format with these settings, salt and key |
| HashCodec.ToKBOfKiB | hash/hasher_argon2.go:44-47 | a configured memory of k KiB prints as k |
| HashCodec.DecodeArgon2id | hash/hash_comparator.go:442-482 | decoded costs are within bounds; the lengths are those of the decoded salt and key |
| HashCodec.Argon2idRoundTrip | hash/hash_comparator.go:442-482 | decoding a printed hash recovers costs, salt and key, or fails iff a cost is out of bounds |
| HashCodec.GeneratedArgon2idCompares | hash/hash_comparator.go:204-222 | a generated hash accepts a password iff the costs, after truncation to 32-bit KiB, are within bounds and the same key is derived |
| HashDispatch.PatternsDisjoint | hash/hash_comparator.go:400-415 | no hash matches two of the thirteen built-in patterns |
| HashDispatch.RecognisedNames | hash/hash_comparator.go:400-415 | which names each family is recognised by |
| HashDispatch.RecognisedHmacNames | hash/hash_comparator.go:415 | the seven HMAC names |
| HashDispatch.Dispatch | hash/hash_comparator.go:141-154 | the first matching entry of the table, or none if nothing matches |
| HashDispatch.SupportedHashersHoldAll | hash/hash_comparator.go:73-139 | the table holds every built-in family |
| HashDispatch.OrderIsIrrelevant | hash/hash_comparator.go:69-154 | in every table that lists the built-in hashers in any order, followed by added ones, a hash is dispatched to its own family |
| HashDispatch.ScryptMemoryBound | hash/hash_limits.go:92-103 | every accepted scrypt hash has N of at most 2^17 and needs at most 2^27 bytes |
| HashDispatch.FirebaseScryptMemoryBound | hash/hash_comparator.go:679-722 | so does every accepted firescrypt hash, and its shift does not overflow 32 bits |
| HashDispatch.ScryptDecodesIff | hash/hash_comparator.go:531-562 | a scrypt hash of five parts decodes to what it names iff N, r and p are within bounds and its last parts are base64, with the error otherwise |
| HashDispatch.FirebaseScryptDecodesIff | hash/hash_comparator.go:679-722 | the same for firescrypt of seven parts, whose cost is the named power of two |
| HashDispatch.ImportFamily | hash/hash_limits.go:144-162 | the switch takes the case of a cost-bearing family iff the hash is of one |
| HashDispatch.SameFamily | hash/hash_limits.go:144-162 | in every table of built-in hashers in any order, followed by added ones, login dispatches to a cost-bearing family iff the import switch takes its case |
| HashDispatch.ImportAgreesWithLogin | hash/hash_limits.go:144-162 | import and login reach the same verdict on the parameters of a hash |
| HashDispatch.ImportAcceptsIff | hash/hash_limits.go:144-162 | import accepts a hash iff the decoder of its family does, and a bcrypt hash iff its cost is at most 15 |
| HashDispatch.ScryptIsImportable | hash/hash_limits.go:154-156 | a scrypt hash of five parts is imported iff its parameters are within bounds and its last parts are base64 |
| HashDispatch.FirebaseScryptIsImportable | hash/hash_limits.go:157-159 | the same for a firescrypt hash of seven parts |
| HashDispatch.ImportedScryptIsBounded | hash/hash_limits.go:144-162 | no imported scrypt or firescrypt hash has N above 2^17 or needs more than 2^27 bytes |
| HashDispatch.LoginParameters | hash/hash_comparator.go:141-154 | login checks the parameters of every hash of a built-in family, picks the family of the import switch, and fails exactly when import would have |
| HashDispatch.GeneratedArgon2idIsRecognised | hash/hasher_argon2.go:74-91 | what the Argon2 hasher prints is dispatched as Argon2id |
| HashDispatch.GeneratedArgon2idIsImportable | hash/hash_limits.go:105-116 | a generated Argon2id hash is importable iff its costs are within bounds |
| HashDispatch.GeneratedPbkdf2IsRecognised | hash/hasher_pbkdf2.go:56-74 | what the PBKDF2 hasher prints for a sha name of one to three digits is dispatched as PBKDF2 |
| NormalizePhone.Table.Select | cmd/cliclient/normalize_phone.go:167-174 | the first rows after the last ID, in ID order, up to the batch size |
| NormalizePhone.Table.NormalizeRow | cmd/cliclient/normalize_phone.go:180-211 | one row is scanned once and is skipped, counted, refused or updated |
| NormalizePhone.Table.NormalizeBatch | cmd/cliclient/normalize_phone.go:180-211 | the inner loop visits the batch in order |
| NormalizePhone.Table.NormalizeTable | cmd/cliclient/normalize_phone.go:162-221 | for any batch size of at least 1 each qualifying row after the start is visited exactly once |
| NormalizePhone.PendingAfter | cmd/cliclient/normalize_phone.go:166-181 | after the k-th row, the rows after the printed ID are exactly the rows not yet visited |
| NormalizePhone.CountersBalance | cmd/cliclient/normalize_phone.go:34-39 | scanned is the number of visits and equals updated plus skipped plus errors |
| NormalizePhone.ResumeIsSeamless | cmd/cliclient/normalize_phone.go:213 | stopping at any row and starting again from its ID gives the same table, and the counters add up |
| NormalizePhone.DryRunPredicts | cmd/cliclient/normalize_phone.go:198-202 | a dry run changes nothing and predicts scanned, skipped and updated plus errors |
| NormalizePhone.SecondRunUpdatesNothing | cmd/cliclient/normalize_phone.go:162-221 | after an error-free run a second run updates nothing |
| NormalizePhone.MigratedRows | cmd/cliclient/normalize_phone.go:162-221 | only qualifying rows after the start change, only to their normalised number, and without errors all that look like phone numbers do |
| CodeCredentials.KeyInjective | identity/extension_credentials.go:117-119 | different addresses have different hex-and-colon keys |
| CodeCredentials.UniqByKey | identity/extension_credentials.go:117-119 | no duplicates are left and no address is lost |
| CodeCredentials.Unique | identity/extension_credentials.go:132-136 | no duplicate identifiers are left and none is lost |
| CodeCredentials.SchemaExtensionCredentials.SetIdentifier | identity/extension_credentials.go:35-54 | the normalised value joins the duplicate-free identifiers of one type, and the identity holds them |
| CodeCredentials.SchemaExtensionCredentials.AddAddress | identity/extension_credentials.go:68-145 | a rejected value changes nothing; an accepted one joins the strictly sorted addresses, and the identifiers are duplicate-free with the same address set |
| CodeCredentials.SchemaExtensionCredentials.Run | identity/extension_credentials.go:56-149 | all three branches: identifiers set before a rejected code branch stay, and everything collected remains sorted and duplicate-free |
| CodeCredentials.SchemaExtensionCredentials.RunAll | identity/extension_credentials.go:56-149 | after any sequence of calls the addresses are the sorted set of accepted ones, and the other identifiers the set of normalised values |
| CodeCredentials.OrderIndependent | identity/extension_credentials.go:117-137 | every order of the same calls gives the identical address list and the same identifiers |
| CodeCredentials.AddressOfIff | identity/extension_credentials.go:68-115 | which calls contribute which address |
| CodeCredentials.ContributedIff | identity/extension_credentials.go:56-149 | which identifiers and addresses a sequence of calls contributes to each type |
| Addresses.AddressExtension.Has | identity/extension_verification.go:122-131 | the first record with the same channel and normalised value |
| Addresses.AddressExtension.AppendAddress | identity/extension_verification.go:109-120 | nothing is added for a key already collected; otherwise the existing record, else the fresh one |
| Addresses.AddressExtension.FinishVerification | identity/extension_verification.go:93-107 | each record is overwritten by the existing one of its key, in order |
| Addresses.AddressExtension.Validate | identity/extension_recovery.go:76-104 | for either extension a pass leaves exactly the collected records, so the final merge changes nothing |
| Addresses.CollectedKeys | identity/extension_verification.go:109-120 | collected addresses have distinct keys, and exactly the keys of the traits |
| Addresses.CollectedRecords | identity/extension_verification.go:93-120 | each is the existing record of its key, or else the new address of the first trait with it |
| Addresses.CollectedExactly | identity/extension_verification.go:109-131 | exactly the channels and normalised values of the traits are collected, each once |
| Addresses.CollectedIsKeptOrNew | identity/extension_verification.go:109-120 | a collected address is an existing record, or not yet stored, pending and unverified; it is existing whenever a record has its key |
| Addresses.RevalidationIsStable | identity/extension_verification.go:93-131 | validating the same traits again gives the same list |
| Oidc.CollisionIff | identity/credentials_oidc.go:111-113 | two provider names have colliding non-empty subjects iff one name is the other followed by a colon |
| Oidc.UniqueIDInjective | identity/credentials_oidc.go:111-113 | colon-free provider names make the unique ID injective |
| Oidc.NewCredentials | identity/credentials_oidc.go:70-101 | refused iff provider or subject is empty; otherwise one provider and its identifier |
| Oidc.MergeAlignedIff | identity/identity.go:299-343 | a merge keeps identifiers equal to the provider IDs iff no kept provider shares an ID with a removed auto-link entry |
| Oidc.DistinctIdsMeetGuard | identity/identity.go:326-337 | providers with pairwise different identifiers meet the guard of every merge |
| Oidc.MergedIntoAlignedIff | identity/identity.go:299-343 | the same for the whole map, new and refused credentials included |
| Oidc.MergedIntoProviders | identity/identity.go:326-342 | a merge keeps every provider but the auto-linked entries of its name, as often as they occur, appends the new one and touches no other type |
| Oidc.KeptAppend | identity/identity.go:328-334 | and keeps their order |
| Oidc.RemoveProvider | identity/identity.go:643-653 | exactly the providers with the identifier are gone, as often as they occur, and the identifiers are in step |
| Oidc.OtherThanAppend | identity/identity.go:646-653 | and the others keep their order |
| Oidc.AppendProviders | identity/handler_import.go:284-296 | identifiers and providers grow in step; SAML entries are never auto-linked |
| Oidc.Identity.CreateCredentials | selfservice/strategy/oidc/strategy_registration.go:377-382 | fresh aligned credentials replace those of the type, unless provider or subject is empty |
| Oidc.Identity.LinkCredentials | selfservice/strategy/oidc/strategy.go:921-946 | appended to existing credentials, else created; alignment of the type is kept |
| Oidc.Identity.MergeOIDCCredentials | identity/identity.go:299-343 | new, refused and merged cases with the whole resulting map; whatever other types hold, alignment of this type is kept iff the guard holds |
| Oidc.Identity.ImportCredentials | identity/handler_import.go:254-340 | providers and identifiers are appended in step to an existing or new credential; alignment of the type is kept |
| Oidc.Identity.DeleteCredential | identity/identity.go:623-664 | exactly the providers with the identifier go and the rest is aligned; a wrong type, an empty, missing or unknown identifier changes nothing |
| OidcRuns.Apply | identity/identity.go:299-343 | each operation on an identity is one step of a run |
| OidcRuns.StepAlignedIff | identity/identity.go:299-343 | one step keeps OIDC and SAML aligned iff it is no merge or meets the guard, whatever other credentials there are |
| OidcRuns.RunAlignedIff | identity/identity.go:299-343 | over every run of create, link, import, merge and delete from aligned credentials, identifiers equal the unique IDs of the providers in every store iff every merge meets the guard |
| OidcRuns.DuplicateBreaksMerge | identity/identity.go:326-337 | importing two equal entries of which one is auto-linked, then merging any subject of that provider, ends misaligned |
| WebAuthn.UpdateFromLogin | identity/credentials_webauthn.go:125-167 | the first credential with the ID is advanced in place, and changed is true iff the library's view changed |
| WebAuthn.UpdateOne | identity/credentials_webauthn.go:134-163 | counter, clone warning and backup state of one credential; changed iff its view changed |
| WebAuthn.CountersAreMaxima | identity/credentials_webauthn.go:125-167 | over any logins each counter is the maximum of its start and all values reported for it; other credentials are untouched |
| WebAuthn.HighestIsMaximum | identity/credentials_webauthn.go:138-145 | the maximum is at least the start and every reported value, and one of them |
| WebAuthn.AdvancedFields | identity/credentials_webauthn.go:134-160 | the view takes the larger counter, the reported clone warning and, where flags exist, the reported backup state, and nothing else |
| WebAuthn.LoginTouchesOne | identity/credentials_webauthn.go:125-167 | only the first credential with the ID changes |
| WebAuthn.MergeWebAuthnCredentials | identity/handler_import.go:100-138 | the first stored credential of each ID takes the last imported one, unknown ones are appended in order, duplicates included |
| WebAuthn.ImportOverrides | identity/handler_import.go:100-138 | as maps from IDs the import overrides what was stored |
| WebAuthn.NewOnesInOrder | identity/handler_import.go:120-132 | new credentials are appended in the order of the imported list |
| WebAuthn.ImportIsIdempotent | identity/handler_import.go:100-138 | importing the same list of distinct IDs again changes nothing |
| Assurance.Session.SetAuthenticatorAssuranceLevel | session/session.go:243-274 | AAL2 iff a second factor and a first factor, or an upstream second factor, were completed |
| Assurance.Session.SessionAddAuthenticationMethods | session/manager_http.go:437-455 | all methods are appended with their completion times, the session is authenticated at the last clock read, and the level does not fall |
| Assurance.Count | identity/manager.go:675-705 | the sum over the strategies, or the first error |
| Assurance.Session.SetAvailableAAL | identity/identity.go:390-407 | the cached level becomes that of the recount, or stays on error; a second factor counts on its own |
| Assurance.RecountIff | identity/identity.go:390-407 | which counts give AAL2, AAL1 and AAL0 |
| Assurance.Session.DoesSessionSatisfy | session/manager_http.go:336-435 | highest_available succeeds iff the session is AAL2, or the cached level is not AAL2 and a recount finds no second factor; while a cached AAL2 is truthful the verdict is that of the recount |
| Assurance.SatisfyAll | session/manager_http.go:370-432 | over any sequence of requests a truthful cache is transparent |
| Assurance.LevelIgnoresOrder | session/session.go:243-274 | the level depends only on the multiset of methods |
| Assurance.LevelIgnoresTimes | session/session.go:243-274 | the level does not depend on when the methods were completed |
| Assurance.LevelNeverFalls | session/session.go:243-274 | appending methods never lowers the level |
| Assurance.CacheTransparentIff | session/manager_http.go:386-389 | the cache changes a verdict iff AAL2 is cached and not confirmed, for a session below AAL2 |
| Continuity.Manager.Pause | continuity/manager.go:102-124 | stores a container under a fresh ID with its expiry in whole seconds; an empty name changes nothing |
| Continuity.Manager.Continue | continuity/manager.go:126-177 | every failure leaves the store alone; success hands out the container and deletes it or moves its expiry |
| Continuity.Manager.Abort | continuity/manager.go:179-197 | the referenced container is removed |
| Continuity.GoneStaysGone | continuity/manager.go:126-197 | a container that has gone never comes back |
| Continuity.ResumedAtMostOnce | continuity/manager.go:126-197 | after a delete-mode resume or an abort no request resumes the container, whatever reference is replayed |
| Continuity.ContainerFromPause | continuity/container.go:47-55 | every stored container was paused under its ID and is as paused, apart from its expiry |
| Continuity.ResumedIsSound | continuity/container.go:57-67 | a resumed container was paused earlier, is unexpired, and belongs to the identity that was given |
| Continuity.ResumedIff | continuity/manager.go:126-177 | a request resumes iff the container is there, unexpired, of the given identity and decodable; it stays until the new expiry or is gone, and nothing else changes |
| Continuity.PausedIsResumable | continuity/manager.go:102-177 | what was just paused can be continued by its identity until it expires |
| Continuity.OthersKept | continuity/manager.go:102-197 | pausing and aborting change one container |
| Continuity.WholeSecond | continuity/container.go:52 | the expiry is the last whole second not after the time |
| JsonNumber.SkipDigits | x/json_number.go:36-38 | exactly the longest run of digits is skipped |
| JsonNumber.AcceptFraction | x/json_number.go:41-65 | accepts exactly the optional fractions followed by optional exponents |
| JsonNumber.AcceptExponent | x/json_number.go:51-65 | accepts exactly the optional exponents of the grammar |
| JsonNumber.IsValidNumber | x/json_number.go:9-66 | accepts exactly the numbers of section 6 of RFC 7159, with every index in range |

## Left out

Assumptions the results rest on:

- E.164 normalisation is an uninterpreted partial function that fixes its own outputs; the migration's is total.
- Schema property names are not empty, and of gjson's path syntax only dots, `*`, `?` and backslashes are modelled, as the escape handles only these; the root of the traits is addressed by no path, as in gjson.
- Courier: one worker, a persister that does not fail, and a queue that claims distinct queued messages and marks them processing; draining also assumes that it claims something whenever something is queued.
- Lookups for conflicts are deterministic; what follows the search in ConflictingIdentity is not modelled.
- Decoded JSON objects have unique names, as Go maps do.
- Key derivation, `bcrypt.Cost`, regular expressions for schema patterns and identifier normalisation are uninterpreted; random bytes, clocks and fresh UUIDs are parameters.
- In the credential identifier table, which has no channel column, every row of the migration counts as SMS.
- The database refuses an update depending on the table, the row and the new value alone, and nobody else writes during a migration.

What the model does not cover:

- Percent-decoding of `$ref` fragments and external references: the walk records local pointers as written.
- JSON encoding and decoding failures of credential configs, and persister errors in session and continuity code.
- HashCodec.DecodeArgon2id: a minus sign in the version is not scanned, because it can only change which error is returned.
- HashScan.FieldPrinted: the scanner skips only blanks and tabs before a number; other white space of `fmt.Sscanf` is not modelled.
- HashDispatch.ImportAgreesWithLogin: like HashDispatch.LoginParameters, states agreement on cost parameters; families without cost parameters (MD5, SHA, HMAC, SSHA and the crypt families) have none, so import passes them through, and their own formats, which login may still refuse, are not decoded.
- CodeCredentials: strings are sequences of bytes; of the credentials of an identity only the identifiers and code addresses are modelled.
- Addresses: parsing of trait values and the lifespan of an address; verifiable and recovery records share one datatype.
- Oidc: tokens and other provider fields that no operation here reads are not modelled.
- WebAuthn: the credential fields no operation touches are one opaque field; user handles and identifiers of the import are not modelled.
- Assurance: RefreshAvailableAAL hydrates the identity and then does what SetAvailableAAL does; loading the identity is not modelled.
- Continuity: the cookie or reference store is whatever the client presents; concurrent Continue calls are not modelled.
- Multi-worker courier runs: the code claims no exclusion there.
- HTTP handlers, routing, cookies, CSRF, SQL, tracing, logging, templates, SMTP sending, text messages, option builders and enum conversions: no hard property.
