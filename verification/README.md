# Irrigation API core, modelled in Dafny

This project models the ownership-scoped persistence and session core of an
irrigation-management API. Users own *pivots* (irrigation devices) and record
*irrigations* against them. The model covers:

- the three entities (`User`, `Pivot`, `Irrigation`): construction, `serialize`, `merge`;
- the three in-memory stores: an insertion-ordered list plus a `Set` index of ids, and for users a `Set` of emails;
- the services that sit on the stores. A pivot or irrigation that does not exist and one owned by another user produce the same 404. An irrigation may only reference a pivot the caller owns. A duplicate registration email gets 400 `E_DUPLICATE`;
- login, token verification and token-to-user resolution;
- the `Authorization` header classification of the authentication middleware.

Everything is a pure function on immutable values. A store operation that
can throw (`create`, `update`, and every service call that changes a store)
returns `Step(store, result)`; when the source throws before mutating
anything, `store` is the input store. The repositories' `delete` and `clear`
cannot throw and return the new store alone. The generated UUID and the clock
reading are parameters (`id`, `now`). bcrypt and jsonwebtoken are function
values (`Crypto.Hasher`, `Crypto.Jwt`). Only their round trips are assumed, and
only where a lemma needs them (`HashRoundTrip`, `SignRoundTrip`). The caller
identity passed to the pivot and irrigation services is the authenticated
user's id, as the controllers pass it.

The model follows the code, including its defects, which lemmas exhibit:

- `UserRepository.Delete` looks the email up after filtering the user out. It therefore always removes `''` from the email index and never the deleted user's email (`DeleteKeepsEmailIndexed`). Registering that email again passes the service's duplicate check but then fails in the store with a plain `Error`, a 500, rather than 400 `E_DUPLICATE` (`UserService.ReRegisterAfterDelete`).
- `UserRepository.Update` neither adds the new email to the index nor removes the old one. Two users can therefore move to the same fresh email (`UpdatesCanShareEmail`), so email uniqueness is not an invariant. The email clash it does detect is a plain `Error`, not `E_DUPLICATE`.
- `UserService.Update` passes the patch on unhashed, so a password changed there is stored in clear (`UpdateStoresPasswordUnhashed`).
- `UserService.Create` returns the stored entity, password hash included. A view without the password would be the alternative, and the code does not return one.
- Irrigation reads and deletes compare the caller with the irrigation's own `userId`, not with the owner of the referenced pivot.
- `getAuthUser` treats an empty subject as no subject.

## Model

| member | source | states |
|---|---|---|
| `Seqs.FindIndex` | app/repositories/memory/pivot_repository.ts:28 | `findIndex` gives the first index whose element satisfies the predicate, or -1 exactly when none does |
| `Seqs.Find` | app/repositories/memory/pivot_repository.ts:20 | `find(...) ?? null` gives some element exactly when one satisfies the predicate, and it is the first such element in list order |
| `Seqs.Filter` | app/repositories/memory/pivot_repository.ts:39 | `filter` keeps exactly the elements that satisfy the predicate |
| `Seqs.FilterAppend` | app/services/pivot_service.ts:12 | `filter` distributes over concatenation, so it keeps the store's order |
| `Seqs.MapAppend` | app/services/pivot_service.ts:12 | `map` distributes over concatenation |
| `Keyed.AppendKeys` | app/repositories/memory/pivot_repository.ts:11-15 | `push` plus `add` keeps the id index equal to the listed ids, and keeps them distinct when the id was not indexed |
| `Keyed.FilterDropsKey` | app/repositories/memory/pivot_repository.ts:38-40 | filtering out an id removes exactly that id from the listed ids, matching `pivotIDs.delete(id)` |
| `Keyed.FilterKeepsDistinct` | app/repositories/memory/pivot_repository.ts:39 | filtering a list with distinct ids leaves distinct ids |
| `Keyed.ReplaceKeepsKeys` | app/repositories/memory/pivot_repository.ts:32-34 | writing back a record with the same id at its index leaves the set of ids and their distinctness unchanged |
| `Keyed.FindDistinct` | app/repositories/memory/pivot_repository.ts:19-21 | with distinct ids, looking a record's id up returns that record exactly when it is listed |
| `UserEntity.NewUser` | app/entities/user.ts:13-20 | the new user carries the draft's email, name and password unchanged, the supplied id, and the clock reading as both timestamps |
| `UserEntity.SerializeForgetsOnlyPassword` | app/entities/user.ts:22-30 | two users have the same public view exactly when they differ at most in the password |
| `UserEntity.Serialize` | app/entities/user.ts:22-30 | no contract of its own: `SerializeForgetsOnlyPassword` states that the view keeps every field but the password |
| `UserEntity.Merge` | app/entities/user.ts:32-34 | no contract of its own: `MergeOverwritesExactlyPatched` and `MergeIdentityAndIdempotence` state its `Object.assign` semantics |
| `UserEntity.MergeOverwritesExactlyPatched` | app/entities/user.ts:32-34 | `merge` takes each field from the patch when present and keeps the record's value otherwise |
| `UserEntity.MergeIdentityAndIdempotence` | app/entities/user.ts:32-34 | merging the empty patch changes nothing; merging the same patch twice equals merging it once |
| `PivotEntity.NewPivot` | app/entities/pivot.ts:14-22 | an absent description is stored as null; flow rate, minimum depth and owner come from the draft; the id and both timestamps are the supplied ones |
| `PivotEntity.SerializeRoundTrip` | app/entities/pivot.ts:24-34 | the view copies each of the seven fields from the pivot; reading it back yields the pivot, and distinct pivots have distinct views |
| `PivotEntity.Serialize` | app/entities/pivot.ts:24-34 | no contract of its own: `SerializeRoundTrip` states the field-by-field copy and its inverse |
| `PivotEntity.Merge` | app/entities/pivot.ts:36-38 | no contract of its own: `MergeKeepsIdentity` and `MergeIdentityAndIdempotence` state its `Object.assign` semantics |
| `PivotEntity.MergeKeepsIdentity` | app/entities/pivot.ts:36-38 | a patch without `id` and `userId` keeps both and changes only the fields it carries |
| `PivotEntity.MergeIdentityAndIdempotence` | app/entities/pivot.ts:36-38 | merging the empty patch changes nothing; merging twice equals merging once |
| `IrrigationEntity.NewIrrigation` | app/entities/irrigation.ts:14-22 | pivot id, amount, date and owner are copied from the draft; the id and both timestamps are the supplied ones |
| `IrrigationEntity.DescriptionIsNotStored` | app/entities/irrigation.ts:14-22 | drafts differing only in the request's description build the same irrigation |
| `IrrigationEntity.SerializeRoundTrip` | app/entities/irrigation.ts:24-34 | the view copies each of the seven fields from the record, reads back to it, and distinct records have distinct views |
| `IrrigationEntity.Serialize` | app/entities/irrigation.ts:24-34 | no contract of its own: `SerializeRoundTrip` states the field-by-field copy and its inverse |
| `IrrigationEntity.Merge` | app/entities/irrigation.ts:36-38 | no contract of its own: `MergeOverwritesExactlyPatched` and `MergeIdentityAndIdempotence` state its `Object.assign` semantics |
| `IrrigationEntity.MergeOverwritesExactlyPatched` | app/entities/irrigation.ts:36-38 | `merge` overwrites exactly the fields the patch carries |
| `IrrigationEntity.MergeIdentityAndIdempotence` | app/entities/irrigation.ts:36-38 | merging the empty patch changes nothing; merging twice equals merging once |
| `PivotRepository.Create` | app/repositories/memory/pivot_repository.ts:9-17 | fails exactly when the id is already indexed, leaving the store unchanged; otherwise appends the pivot and indexes its id; keeps the invariant that the index equals the listed ids, all distinct |
| `PivotRepository.FindById` | app/repositories/memory/pivot_repository.ts:19-21 | finds a pivot with that id exactly when one is listed, and it is the first such pivot in list order; in a valid store, exactly when the id is indexed |
| `PivotRepository.FindByIdExact` | app/repositories/memory/pivot_repository.ts:19-21 | in a valid store, looking up a pivot's id returns that pivot exactly when it is listed |
| `PivotRepository.FindAll` | app/repositories/memory/pivot_repository.ts:23-25 | in a valid store the listing holds exactly the indexed ids, each once |
| `PivotRepository.Update` | app/repositories/memory/pivot_repository.ts:27-36 | fails with 'Pivot not found' and no change exactly when the id is absent; otherwise replaces the record at the first position holding the id, keeping id, owner and creation time, taking description, flow rate and minimum depth from the update when it carries them and from the old record otherwise, with `updatedAt` set to the clock reading; the index and the invariant are kept |
| `PivotRepository.Stamp` | app/repositories/memory/pivot_repository.ts:33 | no contract of its own: the `{ ...data, updatedAt }` patch, whose effect `Update`'s contract states field by field |
| `PivotRepository.Delete` | app/repositories/memory/pivot_repository.ts:38-41 | removes every pivot with that id and the id from the index, keeps every other pivot, and keeps the invariant |
| `PivotRepository.Clear` | app/repositories/memory/pivot_repository.ts:43-46 | empties the list and the index, giving a valid store |
| `PivotRepository.CreateThenFind` | app/repositories/memory/pivot_repository.ts:9-25 | a created pivot is found by its id and is last in `findAll` |
| `PivotRepository.DeleteAbsentIsNoOp` | app/repositories/memory/pivot_repository.ts:38-41 | deleting an id the store does not hold changes nothing and raises nothing |
| `PivotRepository.DeleteThenFind` | app/repositories/memory/pivot_repository.ts:19-41 | after a delete the id is not found and every other pivot still is |
| `PivotRepository.UpdateThenFind` | app/repositories/memory/pivot_repository.ts:19-36 | after an update the id finds the updated record and other pivots are found unchanged |
| `IrrigationRepository.Create` | app/repositories/memory/irrigation_respository.ts:9-17 | fails exactly when the id is already indexed, with no change; otherwise appends and indexes; keeps the store invariant |
| `IrrigationRepository.FindById` | app/repositories/memory/irrigation_respository.ts:19-21 | finds an irrigation with that id exactly when one is listed, and it is the first such irrigation in list order; in a valid store, exactly when the id is indexed |
| `IrrigationRepository.FindByIdExact` | app/repositories/memory/irrigation_respository.ts:19-21 | in a valid store, looking up an irrigation's id returns it exactly when it is listed |
| `IrrigationRepository.FindAll` | app/repositories/memory/irrigation_respository.ts:23-25 | in a valid store the listing holds exactly the indexed ids, each once |
| `IrrigationRepository.Delete` | app/repositories/memory/irrigation_respository.ts:27-30 | removes every irrigation with that id and the id from the index, keeps the rest and the invariant |
| `IrrigationRepository.CreateThenFind` | app/repositories/memory/irrigation_respository.ts:9-25 | a created irrigation is found by its id and is last in `findAll` |
| `IrrigationRepository.DeleteAbsentIsNoOp` | app/repositories/memory/irrigation_respository.ts:27-30 | deleting an absent id is a silent no-op |
| `IrrigationRepository.DeleteThenFind` | app/repositories/memory/irrigation_respository.ts:19-30 | after a delete the id is not found and every other irrigation still is |
| `IrrigationRepository.EmptyIsValid` | app/repositories/memory/irrigation_respository.ts:6-7 | the store starts empty and satisfies its invariant |
| `UserRepository.Create` | app/repositories/memory/user_repository.ts:10-24 | fails exactly when the id or the email is already indexed (the id error first), with no change; otherwise appends the user and indexes both |
| `UserRepository.FindById` | app/repositories/memory/user_repository.ts:26-28 | finds a user with that id exactly when one is listed, and it is the first such user in list order; in a valid store, exactly when the id is indexed |
| `UserRepository.FindByEmail` | app/repositories/memory/user_repository.ts:30-32 | finds a user exactly when a listed user has that email, and returns the first in insertion order |
| `UserRepository.FindByIdExact` | app/repositories/memory/user_repository.ts:26-28 | in a valid store, looking up a user's id returns that user exactly when it is listed |
| `UserRepository.FindAll` | app/repositories/memory/user_repository.ts:34-36 | in a valid store the listing holds exactly the indexed ids, each once |
| `UserRepository.Update` | app/repositories/memory/user_repository.ts:38-51 | 'User not found' with no change exactly when the id is absent; in a valid store, 'Email already exists' exactly when a truthy new email is indexed and differs from the record's own; no other error, so every other call replaces the record in place by its merge with the stamped update, with both indices unchanged |
| `UserRepository.Stamp` | app/repositories/memory/user_repository.ts:48 | no contract of its own: the `{ ...data, updatedAt }` patch that `Update` merges, stated through `InPlace` and `UserEntity.MergeOverwritesExactlyPatched` |
| `UserRepository.Delete` | app/repositories/memory/user_repository.ts:53-57 | removes every user with that id and the id from the id index, but releases only `''` from the email index |
| `UserRepository.CreateThenFind` | app/repositories/memory/user_repository.ts:10-36 | a created user is found by id, by email when no listed user had it, and is last in `findAll` |
| `UserRepository.UpdateToOwnEmail` | app/repositories/memory/user_repository.ts:44-46 | updating a user to the email it already has never clashes |
| `UserRepository.DeleteKeepsEmailIndexed` | app/repositories/memory/user_repository.ts:53-57 | after deleting a user, its email stays indexed and `create` with that email is refused |
| `UserRepository.UpdatesCanShareEmail` | app/repositories/memory/user_repository.ts:38-51 | two different users can both be updated to the same unindexed email, so email uniqueness is not preserved |
| `UserRepository.EmptyIsValid` | app/repositories/memory/user_repository.ts:6-8 | the store starts empty and its id index satisfies the invariant |
| `PivotService.GetAll` | app/services/pivot_service.ts:10-13 | lists the view of every pivot the caller owns and nothing owned by anyone else (order and multiplicity: `GetAllAppend`, `GetAllSingle`) |
| `PivotService.Create` | app/services/pivot_service.ts:15-18 | succeeds exactly when the id is not indexed, storing the new pivot built from the draft last and returning its view; otherwise the store's plain error with no change |
| `PivotService.Owned` | app/services/pivot_service.ts:20-29 | in a valid store the gate yields the pivot exactly when one with that id is owned by the caller; every failure is the one 404 'Pivô não encontrado' |
| `PivotService.GetById` | app/services/pivot_service.ts:20-31 | in a valid store, succeeds exactly when the caller owns a pivot with that id; an absent and a foreign pivot both give the same 404 |
| `PivotService.Update` | app/services/pivot_service.ts:33-45 | a non-owner or an absent id gets the 404 and no change; otherwise the store update, and the returned view is exactly the record the store update wrote back |
| `PivotService.Delete` | app/services/pivot_service.ts:47-58 | a non-owner or an absent id gets the 404 and no change; otherwise the store delete |
| `PivotService.OwnershipIsolation` | app/services/pivot_service.ts:20-58 | for a foreign pivot, read, update and delete return exactly what a missing id returns, leave the store unchanged, and the listing omits it |
| `PivotService.CreateThenGetById` | app/services/pivot_service.ts:15-31 | creating then reading as the owner returns the created view, which reproduces the draft |
| `PivotService.DeleteHidesFromEveryone` | app/services/pivot_service.ts:20-58 | after the owner deletes a pivot, reading it fails for every caller |
| `PivotService.GetAllAfterCreate` | app/services/pivot_service.ts:10-18 | a new pivot is listed last for its owner; other users' listings are unchanged |
| `PivotService.GetAllAppend` | app/services/pivot_service.ts:10-13 | the listing of a concatenation of stored lists is the concatenation of their listings, so store order and multiplicity are kept |
| `PivotService.GetAllSingle` | app/services/pivot_service.ts:10-13 | a single pivot is listed once, as its view, for its owner and not at all for anyone else |
| `IrrigationService.GetAll` | app/services/irrigation_service.ts:15-21 | lists the view of every irrigation the caller owns and nothing else (order and multiplicity: `GetAllAppend`, `GetAllSingle`) |
| `IrrigationService.Create` | app/services/irrigation_service.ts:23-37 | a missing pivot and a foreign pivot both give 404 'Pivô não encontrado' with no change; success implies the pivot exists and is owned by the irrigation's user; with an owned pivot, a fresh id succeeds and an indexed id gets the store's 'Irrigation with this ID already exists' with no change; the stored and returned record is the one built from the draft (amount, date, pivot, owner) |
| `IrrigationService.Owned` | app/services/irrigation_service.ts:39-48 | in a valid store the gate yields the irrigation exactly when one with that id has the caller as `userId`; every failure is 404 'Irrigação não encontrada' |
| `IrrigationService.GetById` | app/services/irrigation_service.ts:39-50 | in a valid store, succeeds exactly when the caller is the `userId` of an irrigation with that id; absent and foreign give the same 404 |
| `IrrigationService.Delete` | app/services/irrigation_service.ts:52-63 | a non-owner or absent id gets the 404 and no change; otherwise the store delete |
| `IrrigationService.OwnershipIsolation` | app/services/irrigation_service.ts:15-63 | for a foreign irrigation, read and delete return exactly what a missing id returns, with no change, and the listing omits it |
| `IrrigationService.CreateChecksReference` | app/services/irrigation_service.ts:23-37 | a stored irrigation's pivot existed with the same owner when it was stored |
| `IrrigationService.CreateThenGetById` | app/services/irrigation_service.ts:15-50 | creating then reading as the owner returns the created view |
| `IrrigationService.CreateThenGetAll` | app/services/irrigation_service.ts:15-37 | after a creation the owner's listing is the old listing with the new view appended |
| `IrrigationService.DeleteHidesFromEveryone` | app/services/irrigation_service.ts:39-63 | after the owner deletes an irrigation, reading it fails for every caller |
| `IrrigationService.GetAllAppend` | app/services/irrigation_service.ts:15-21 | the listing of a concatenation of stored lists is the concatenation of their listings, so store order and multiplicity are kept |
| `IrrigationService.GetAllSingle` | app/services/irrigation_service.ts:15-21 | a single irrigation is listed once, as its view, for the user it names and not at all for anyone else |
| `UserService.GetAll` | app/services/user_service.ts:10-13 | one view per stored user, in store order, carrying that user's id, email, name and both timestamps |
| `UserService.GetAllHidesPasswords` | app/services/user_service.ts:10-13 | stores differing only in passwords list identical views |
| `UserService.Create` | app/services/user_service.ts:15-22 | 400 'Email já cadastrado' `E_DUPLICATE` exactly when a current user has the email, with no change; otherwise the outcome is exactly the store's `create` of the draft with the password replaced by its hash (id index checked before email index, both indices extended on success), and it succeeds exactly when both indices accept the draft |
| `UserService.GetById` | app/services/user_service.ts:24-30 | the stored user with that id, or 404 'Usuário não encontrado' exactly when none is listed |
| `UserService.GetByEmail` | app/services/user_service.ts:32-38 | the first user in store order with that email, or the 404 exactly when none is listed |
| `UserService.Update` | app/services/user_service.ts:40-47 | 404 with no change exactly when the id is absent; in a valid store 'Email already exists' exactly when the email clashes; otherwise the store update, returning the view of exactly the record it wrote back |
| `UserService.Delete` | app/services/user_service.ts:49-56 | 404 with no change exactly when the id is absent; otherwise the store delete |
| `UserService.DuplicateRegistrationRejected` | app/services/user_service.ts:15-22 | registering the same email twice gives `E_DUPLICATE` the second time and stores nothing |
| `UserService.UpdateStoresPasswordUnhashed` | app/services/user_service.ts:40-47 | a password set through update is stored exactly as given |
| `UserService.ReRegisterAfterDelete` | app/services/user_service.ts:15-22 | after deleting the only user with an email, registering it again fails with the store's plain error, not `E_DUPLICATE` |
| `AuthService.Login` | app/services/auth_service.ts:13-26 | an unknown email and a wrong password give the same 401 'Não autorizado'; otherwise a token signed for the first user with that email, subject its id, valid 7 days |
| `AuthService.VerifyToken` | app/services/auth_service.ts:34-41 | a rejected token gives null and never an error; a verified token gives its decoded subject |
| `AuthService.GetAuthUser` | app/services/auth_service.ts:28-32 | null unless the token verifies to a non-empty subject; then the listed user with that id, null once it is gone |
| `AuthService.LoginFailuresIndistinguishable` | app/services/auth_service.ts:13-18 | a failed login with an unknown email and one with a wrong password return the identical error |
| `AuthService.LoginVerifyRoundTrip` | app/services/auth_service.ts:20-41 | a login token verifies to the id of the user with that email |
| `AuthService.RegisterThenLogin` | app/services/auth_service.ts:13-32 | after registering, login with the same credentials succeeds and its token resolves to the registered user |
| `AuthService.DeletedUserTokenRejected` | app/services/auth_service.ts:28-32 | once the user behind a login token is deleted, the token resolves to nobody |
| `AuthMiddleware.Split` | app/middleware/auth_middleware.ts:18 | `split(' ')` yields at least one part and no part contains a space |
| `AuthMiddleware.JoinSplit` | app/middleware/auth_middleware.ts:18 | joining the parts with spaces gives back the header |
| `AuthMiddleware.SplitJoin` | app/middleware/auth_middleware.ts:18 | splitting a join of space-free parts gives back the parts |
| `AuthMiddleware.BearerToken` | app/middleware/auth_middleware.ts:18-19 | no contract of its own: `BearerTokenShape` states exactly which headers it accepts and with which token |
| `AuthMiddleware.BearerTokenShape` | app/middleware/auth_middleware.ts:18-23 | the format check accepts token t exactly when the header is `Bearer`, one space, t non-empty and space-free, then the end or a space |
| `AuthMiddleware.Handle` | app/middleware/auth_middleware.ts:10-34 | missing/empty header, then bad format, then unresolvable token each give their own 401; the next handler runs, with the resolved user, exactly when all pass |
| `AuthMiddleware.FormatRejected` | app/middleware/auth_middleware.ts:18-23 | a non-empty header the format check refuses gets 'Formato de token inválido' |
| `AuthMiddleware.MissingTokenPartRejected` | app/middleware/auth_middleware.ts:18-23 | `Bearer` alone and `Bearer ` with nothing after are refused as bad format |
| `AuthMiddleware.DoubleSpaceRejected` | app/middleware/auth_middleware.ts:18-23 | two spaces before the token are refused as bad format |
| `AuthMiddleware.SchemeIsCaseSensitive` | app/middleware/auth_middleware.ts:19 | `bearer` in lower case is refused as bad format |
| `AuthMiddleware.WellFormedHeader` | app/middleware/auth_middleware.ts:18-33 | `Bearer <token>` whose token resolves to a user runs the next handler with that user |
| `AuthMiddleware.UnresolvedTokenRejected` | app/middleware/auth_middleware.ts:18-30 | `Bearer <token>` whose token does not resolve gets the 401 with the invalid-token message |
| `AuthMiddleware.TrailingTextIgnored` | app/middleware/auth_middleware.ts:18-19 | anything after a further space following the token does not change the outcome |

## Left out

- Controllers, request validation and routing (`app/controllers/*`, `start/routes.ts`): HTTP adapters. The one fact carried over is that the caller id passed to the pivot and irrigation services is the authenticated user's id.
- `HttpException.handle`/`report`: the errors are values of `Base.Error`; their translation to responses is not modelled.
- The `logger.warn` lines on ownership mismatches: side effects only, not modelled.
- UUID generation and the clock: ids and timestamps are parameters. The constructors read the clock twice; the model uses one reading for both timestamps.
- bcrypt salting and cost factor: `hash` is a plain function value. Its randomness is not modelled.
- JWT signatures, secrets and expiry arithmetic: `sign`/`verify` are function values. Expiry is part of what `verify` may reject.
- `AuthService.Login`: the 7-day validity is modelled only as the `expiresIn` claim passed to `sign`, because expiry is not modelled.
- `AuthMiddleware.Handle`: "next runs exactly once" is modelled as the single `Next` outcome; the await of `next()` is not modelled.
- Async interleavings between `await`s, such as between `findByEmail` and `create` in registration: every operation is atomic here.
- Aliasing: `merge` mutates in place and `findAll` returns the internal array. The model uses values.
- `clear()` on the user and irrigation stores: those classes define none.
- The numeric fields (`flowRate`, `minApplicationDepth`, `applicationAmount`) are opaque reals. Their positivity is checked only in controllers.
- `UserRepository.Valid` covers only the id index, because nothing relates the email index to the listed emails once `update` or `delete` has run.
