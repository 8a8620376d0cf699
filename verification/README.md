# Verified model of the user and session service

This project models, in Dafny, the parts of the service whose correctness spans more than one function, and proves what
they promise:

- **Refresh-token sessions.** Register, login, refresh, logout and change password act on one table of refresh-token
  records, grouped into families (refresh token rotation, section 5.2.2.3 of RFC 6819). `Commands` gives each command as
  one function on the database; `Ledger` proves what any sequence of their effects keeps; `Sessions` and `Histories` prove
  the guarantees over all runs (one live token per family, redeemed at most once, dead families stay dead, family
  ownership, the password-change cut-off), and `Conservation` counts.
- **What commands answer.** `Outcomes` writes out, for each command, which error it gives exactly when, and every field it
  stores and claim it signs; `Promises` follows each token handed out through a run: whom it is for, how long it lives,
  and what presenting it answers.
- **The two stores.** `SqlStore` and `SqlHandlers` are the unit of work over SQL with its tracked copies and bulk updates;
  `FakeStore` and `FakeHandlers` are the dictionaries of live objects. Each handler is proved equal to its command on both,
  and `Lockstep` concludes that the two agree on every sequence of calls.
- **Interleaving.** `Interleaved` runs the same transactions statement by statement. Monotone revocation, family ownership
  and the counts of families and of their records hold there too. The single live token, dead families, write-once
  revocation, redeem-once, the password-change cut-off and the bound of live records by logins do not: `Interleaved`,
  `Overlaps` and `Balances` give, for each of these six, the exact condition under which it holds, and `Schedules` the
  runs that break them, beside the serial schedule.
- **Registration.** `Registration` interleaves the pre-check, insert, commit and dispatch of many clients.
- **Rate limiting.** `FixedWindows` has the counting argument; `InMemoryLimiter` and `RedisLimiter` apply it to the
  dictionary and to INCR, EXPIRE and TTL issued by many clients; `RedisClient` is the code of one call.
- **Listing users.** `Pagination` follows cursors over fixed and changing tables; `Cursors`, with `Base64Url`,
  `Base64Bits`, `Uuids` and `Spellings`, is the cursor codec on the level of characters and bits.

Clock readings, `uuid4` results and salts are inputs of every command. Ids are assumed not to repeat, clocks not to run
backwards, and a token that verifies to be one the service issued. A handler is one atomic step everywhere except in
`Interleaved`, `Overlaps`, `Balances`, `Schedules` and `Registration`.

Results that differ from what one may expect:

- The fixed-window bound is 2 * limit - 1 calls in any half-open interval of a window's length, one less than twice the
  limit, and it is attained.
- Statement-level interleaving breaks the six guarantees just named, because a rotation reads its record, and a login
  checks the password, before it writes, without a lock or a condition. The witnesses are `Schedules.DoubleRedeem`,
  `Schedules.Resurrection`, `Schedules.MissedSuccessor` and `Schedules.LateLogin`. The exact conditions are
  `Interleaved.SingleLiveIff` for the single live token, `Interleaved.DeadFamiliesIff` for dead families,
  `Interleaved.OverwritesIff` for write-once revocation, `Overlaps.RedeemTwiceIff` for redeem-once, `Overlaps.CutOffIff`
  for the password-change cut-off and `Balances.LiveAtMostLoginsIff` for the bound of live records by logins.
  `Overlaps.SweepEndsIff` says when a logout, replay or password change ends its sessions at all.
- Both limiters can name a retry-after that is too short. Rounding takes off up to half a second
  (`InMemoryLimiter.EarlyWait`, `RedisLimiter.EarlyWait`). Over Redis a client refused before the key's EXPIRE is told one
  second, whatever the window (`RedisLimiter.WaitBeforeExpire`). The two lemmas named `WaitSufficesIff` are the exact
  conditions.
- A client that stops between INCR and EXPIRE leaves a key that never expires (`RedisLimiter.StuckReached`);
  `RedisLimiter.LapsesIff` is the exact condition for a key to lapse.

Run `dafny verify dfyconfig.toml` in this directory to verify the project.

## Model

| member | source | states |
|---|---|---|
| Uuids.TextRoundTrip | app/domain/users/value_objects.py:27-35 | For every 128-bit UUID, parsing its text gives the UUID back; the parser is the lenient one (urn:, uuid:, braces, hyphens, underscores between digits). |
| Uuids.TextShape | app/infrastructure/database/repositories/user_query_service.py:21-22 | The text of a UUID is the 8-4-4-4-12 lower-case form of section 4 of RFC 9562. |
| Spellings.DigitIff | app/infrastructure/database/repositories/user_query_service.py:27 | A hexadecimal digit is worth its place in "0123456789abcdef", in either letter case, and no other character is a digit. |
| Spellings.PlaceValue | app/infrastructure/database/repositories/user_query_service.py:27 | Each digit further left is worth sixteen times as much. |
| Spellings.ParseSound | app/domain/users/value_objects.py:28-32 | A text that is read as u spells u: up to "urn:", "uuid:", braces and hyphens it is 32 characters, and these are a base-16 literal whose digits have the value u. |
| Spellings.SpellingsRead | app/domain/users/value_objects.py:28-32 | 32 hexadecimal digits in any letter case are read as their value: bare, hyphenated, in braces, and behind "urn:uuid:". |
| Base64Url.RoundTrip | app/infrastructure/database/repositories/user_query_service.py:21-27 | Lenient base64url decoding (unknown characters skipped, padding required) undoes base64url encoding (section 5 of RFC 4648) on every byte string. |
| Base64Bits.SymbolIff | app/infrastructure/database/repositories/user_query_service.py:22 | Which character stands for which six bits: the alphabet of section 5 of RFC 4648, written out, and '+' and '/' for the last two when reading. |
| Base64Bits.DecodedBits | app/infrastructure/database/repositories/user_query_service.py:27 | What decoding gives are the bits of the symbols, 24 for 24, whatever else stands between them; without padding it succeeds exactly if the symbols come in groups of four. |
| Base64Bits.EncodeShape | app/infrastructure/database/repositories/user_query_service.py:22 | Encoding gives four characters for every three bytes or part of them: symbols, and then at most two '='. |
| Cursors.CursorRoundTrip | app/infrastructure/database/repositories/user_query_service.py:21-29 | For every UUID, decoding its encoded cursor succeeds and gives it back. |
| Cursors.DecodeSound | app/infrastructure/database/repositories/user_query_service.py:25-29 | A cursor accepted as u spells u: the bytes of its symbols are ASCII and as a text they spell u. |
| Cursors.ShortRefused | app/infrastructure/database/repositories/user_query_service.py:25-29 | A cursor with fewer than 43 symbols is refused. |
| Cursors.CursorOfText | app/infrastructure/database/repositories/user_query_service.py:25-29 | A cursor that encodes an ASCII text is accepted exactly if the text is read as an id, and as that id. |
| Emails.NormalFormIsFixed | app/domain/users/value_objects.py:44-49 | Building an address from a stored address succeeds and changes nothing. |
| Emails.EmailIff | app/domain/users/value_objects.py:14-49 | An address is accepted exactly if, without its outer white space, it matches the pattern; the result is that text with upper-case letters folded to lower case, character by character. |
| Emails.StoredIsPlain | app/domain/users/value_objects.py:44-49 | A stored address holds no upper-case letter and no white space. |
| Emails.OneAddress | app/domain/users/value_objects.py:44-49 | Spellings that differ only in letter case and outer white space are one address, or none. |
| Jwt.DecodeEncoded | app/infrastructure/security/jwt_service.py:53-110 | Decoding an issued token gives its subject, type and id until the signed expiry, and TokenExpired from then on. |
| Jwt.DecodeIff | app/infrastructure/security/jwt_service.py:53-85 | Exactly which tokens are accepted and as what, and which are reported expired; every other one is invalid. |
| Jwt.ExpiryAgreement | app/infrastructure/security/jwt_service.py:94-103 | While the signed exp is in the future so is the record's expiry, and exp is behind it by less than a second. |
| Pagination.CursorResumes | app/infrastructure/database/repositories/user_query_service.py:62-63 | A request with the cursor made from an id is answered with the page of the ids above it. |
| Pagination.BadCursorRefused | app/infrastructure/database/repositories/user_query_service.py:25-29 | A cursor that does not spell an id, or has fewer than 43 symbols, gets ValidationError from the listing, whatever the table and the page size. |
| Pagination.PageContents | app/infrastructure/database/repositories/user_query_service.py:51-73 | A page lists exactly the ids of a range above the cursor in order, has a next cursor exactly if rows are left, and the cursor is the range's upper end. |
| Pagination.WalkIncreasing | app/infrastructure/database/repositories/user_query_service.py:51-73 | Over a whole walk, with any inserts and deletes between requests, ids strictly increase: none is returned twice. |
| Pagination.ReturnedIff | app/infrastructure/database/repositories/user_query_service.py:51-73 | Exactly one request is responsible for each id, and a view is returned if and only if it is that row's view in the table this request saw. |
| Pagination.StableRowOnce | app/infrastructure/database/repositories/user_query_service.py:51-73 | A row present during every request is returned at exactly one position. |
| Pagination.WalkBounded | app/application/users/queries/list_users.py:24-26 | However the table changes, the requests beyond the first number at most 2^128 divided by the page size. |
| Pagination.WalkTerminates | app/infrastructure/database/repositories/user_query_service.py:60-73 | Whatever tables and limits the successive requests meet, following the cursors comes to a last page. |
| Pagination.FixedTableSorted | app/infrastructure/database/repositories/user_query_service.py:51-73 | On a fixed table the walk returns exactly the users sorted by id. |
| Pagination.FixedTableRequests | app/application/users/queries/list_users.py:24-26 | It takes max(1, ceil(n / limit)) requests for n users, with the limit clamped to 1..100. |
| Entities.RefreshTokenRecord.Revoke | app/domain/auth/entities.py:31-33 | Write-once revocation: a second call changes nothing. |
| Entities.User.Create | app/domain/users/entities.py:29-52 | A new user is active and has recorded exactly its own UserRegistered event. |
| Entities.User.ChangePassword | app/domain/users/entities.py:57-58 | Replaces the hash and nothing else. |
| Entities.User.PullEvents | app/domain/shared/entity.py:51-54 | Hands over the recorded events and leaves none. |
| Entities.EventDispatcher.Dispatch | tests/fakes/__init__.py:198-199 | Appends the batch, in order, to what was dispatched. |
| Ledger.ApplyValid | app/application/auth/commands/refresh_token.py:60-74 | Every effect a command can have on the token table keeps: keys are jtis, one owner per family, every record followed by a later one of its family is revoked. |
| Ledger.SingleLive | app/application/auth/commands/refresh_token.py:60-74 | A family has at most one live record and it is the one inserted last. |
| Ledger.ApplyEvolves | app/infrastructure/database/mappers/refresh_token_mapper.py:32-33 | No effect removes a record, changes its identity or moves a revocation time. |
| Ledger.DeadStays | app/application/auth/commands/login.py:53-62 | No effect gives a dead family a live record. |
| Ledger.EndFamily | app/infrastructure/database/repositories/refresh_token_repository.py:39-49 | Revoking a family leaves it dead and every other record as it was. |
| Ledger.EndDeadFamily | app/infrastructure/database/repositories/refresh_token_repository.py:39-49 | Revoking a dead family changes nothing. |
| Commands.UserEffectPermitted | app/application/users/commands/create_user.py:41-53 | Only a registration adds a user, with a new id and the normal form of an address no user has. |
| Commands.UsersStayValid | app/infrastructure/database/mappers/user_mapper.py:36-44 | Every command keeps ids and addresses of existing users and the uniqueness of addresses. |
| Commands.EmailsStayNormal | app/infrastructure/database/mappers/user_mapper.py:16-19 | Stored addresses stay in normal form, so rebuilding an Email from a row never fails. |
| Commands.AllOrNothing | app/application/auth/commands/refresh_token.py:43-47 | A command that fails leaves the database unchanged, except that the replay of a revoked token ends exactly its family. |
| Commands.LoginIff | app/application/auth/commands/login.py:36-50 | A login with a stored address succeeds exactly for the account's password and an active account. |
| Commands.RegisterThenLogin | app/application/users/commands/create_user.py:41-53 | A registration succeeds exactly for a valid address whose normal form is free, and then the account opens to that password alone, under any spelling of the address. |
| Commands.NewPasswordOnly | app/application/users/commands/change_password.py:43-46 | After a successful change, the new password opens an active account and no other password does. |
| Outcomes.RegisterOutcome | app/application/users/commands/create_user.py:41-63 | Register: which of the two errors exactly when; otherwise the view, and the stored user field by field. |
| Outcomes.SpellingTaken | app/application/users/commands/create_user.py:41-44 | No spelling of a stored address, in whatever letter case and with whatever white space around it, can be registered again. |
| Outcomes.LoginOutcome | app/application/auth/commands/login.py:36-68 | Login: accepted exactly for an active account with that address and password, and then with the tokens and the record of that account, claim by claim and field by field; every refusal is InvalidCredentials. |
| Outcomes.ChangeOutcome | app/application/users/commands/change_password.py:34-49 | Change password: UserNotFound exactly without a user, InvalidCredentials exactly for a wrong password; otherwise the new hash, and the user's live records revoked at that time. |
| Outcomes.RefreshOutcome | app/application/auth/commands/refresh_token.py:33-79 | Refresh: the answer for every kind of token, record and owner, and the rows it leaves, with their times. |
| Outcomes.LogoutOutcome | app/application/auth/commands/logout.py:25-37 | Logout: refused tokens, tokens without a record, and the family revoked at that time. |
| Sessions.PresentedIsBacked | app/application/auth/commands/refresh_token.py:33-42 | A token that decodes as a refresh token names an existing record of its subject that has not expired at that time. |
| Sessions.EffectPermitted | app/application/auth/commands/refresh_token.py:51-72 | In every invariant state the effect of a step is one that Ledger allows: the successor, though owned by the token's subject, has the old record's owner. |
| Sessions.HandedAreBacked | app/application/auth/commands/login.py:52-68 | The tokens a step hands out stand for records of the table it leaves. |
| Sessions.StepKeepsInv | app/application/auth/commands/refresh_token.py:33-79 | Every step of any of the five commands keeps the system invariant. |
| Histories.SingleLiveToken | app/application/auth/commands/refresh_token.py:60-74 | In every reachable state a family has one owner and at most one live record, the newest. |
| Histories.FamilyOwnership | app/application/auth/commands/refresh_token.py:51-72 | In every reachable state the subject signed into a refresh token owns every record of the token's family. |
| Histories.ExpiriesNeverDecrease | app/infrastructure/security/jwt_service.py:94-103 | Records inserted later expire no earlier, in particular along a chain of rotations. |
| Histories.RefreshIff | app/application/auth/commands/refresh_token.py:33-79 | Exactly when an issued refresh token is redeemed: before its signed and stored expiry, record live, owner active. |
| Promises.WhoseTokens | app/application/auth/commands/login.py:43-68 | A login hands out tokens for the account whose stored address is the one presented, a refresh for the owner of the record presented; both tokens claim by claim. |
| Promises.RecordLifetime | app/infrastructure/security/jwt_service.py:45-51 | In every later state the record of a refresh token expires the configured number of days, in 86 400 000 000 microseconds each, after the clock reading of its issue. |
| Promises.AccessLifetime | app/infrastructure/security/jwt_service.py:37-43 | An access token is accepted as one of its account for the configured number of minutes, and reported expired from then on. |
| Promises.RefreshAnswer | app/application/auth/commands/refresh_token.py:33-79 | What refreshing with a handed-out token answers at any later point: expired, invalid or a new pair for the same owner, and exactly when. |
| Promises.LogoutAnswer | app/application/auth/commands/logout.py:25-37 | What logging out with a handed-out token answers at any later point, and the rows it leaves. |
| Promises.AccessRefused | app/application/auth/commands/refresh_token.py:34-36 | An access token presented to refresh or logout is refused: as expired from its expiry on, as invalid before. |
| Promises.ForeignRefused | app/infrastructure/security/jwt_service.py:53-66 | A token that was not issued is refused as invalid. |
| Histories.MonotoneRevocation | app/domain/auth/entities.py:31-33 | Between any two points of a run records keep their identity and revocation is write-once. |
| Histories.RedeemAtMostOnce | app/application/auth/commands/refresh_token.py:34-62 | Over any run each refresh token succeeds in at most one refresh. |
| Histories.DeadFamiliesStayDead | app/application/auth/commands/refresh_token.py:43-47 | A dead family stays dead for the rest of the run and none of its tokens is redeemed again. |
| Histories.ReplayEndsFamily | app/application/auth/commands/refresh_token.py:43-47 | Presenting a redeemed token again while it decodes fails, leaves its family dead and touches no other record. |
| Histories.LogoutEnds | app/application/auth/commands/logout.py:25-37 | A logout leaves the family of its token dead. |
| Histories.LogoutAgain | app/application/auth/commands/logout.py:30-37 | Logging out again with the same token leaves the token table identical. |
| Histories.TracesToLogin | app/application/auth/commands/refresh_token.py:64-74 | Every issued refresh token traces back, rotation by rotation, to a login earlier in the run. |
| Histories.PasswordChangeRevokes | app/application/users/commands/change_password.py:43-49 | A password change revokes every record of the user and touches no other. |
| Histories.PasswordChangeCutOff | app/infrastructure/database/repositories/refresh_token_repository.py:51-59 | Every refresh token handed to a user after a change of their password traces back only through steps after that change, to a login after it. |
| Conservation.FamiliesAreLogins | app/application/auth/commands/login.py:55-63 | The number of families equals the number of successful logins. |
| Conservation.FamilySizeIsRefreshes | app/application/auth/commands/refresh_token.py:64-74 | A family holds one record more than the successful refreshes in it. |
| Conservation.LiveAtMostLogins | app/application/users/commands/change_password.py:48 | A user's live records never outnumber their successful logins since their last password change. |
| SqlStore.SqlUnitOfWork.UpdateToken | app/infrastructure/database/repositories/refresh_token_repository.py:30-34 | Copies only revoked_at onto the row the session sees; reports a missing row. |
| SqlStore.SqlUnitOfWork.GetByJti | app/infrastructure/database/repositories/refresh_token_repository.py:36-38 | Returns a new entity equal to the row the session sees, or none. |
| SqlStore.SqlUnitOfWork.RevokeTokensOfFamily | app/infrastructure/database/repositories/refresh_token_repository.py:39-49 | Every row the session sees, loaded or not, is revoked if it is a live one of the family, and otherwise unchanged. |
| SqlStore.SqlUnitOfWork.RevokeAllForUser | app/infrastructure/database/repositories/refresh_token_repository.py:51-59 | The same for the records of a user. |
| SqlStore.SqlUnitOfWork.UpdateUser | app/infrastructure/database/repositories/user_repository.py:33-39 | Copies email, hash and activity onto the row, keeping its id and creation time; reports a missing row. |
| SqlStore.SqlUnitOfWork.GetUserByEmail | app/infrastructure/database/repositories/user_repository.py:45-50 | Finds a user exactly if the transaction's rows hold the address, as the session has it loaded. |
| SqlStore.SqlUnitOfWork.ExistsByEmail | app/infrastructure/database/repositories/user_repository.py:52-56 | True exactly if the transaction's rows hold the address. |
| SqlStore.SqlUnitOfWork.Commit | app/infrastructure/database/unit_of_work.py:45-53 | Writes every tracked change and insert, or on a violation nothing, and reports the violated unique address as such. |
| SqlStore.TokensClashIff | app/infrastructure/database/unit_of_work.py:45-53 | A flush of new records violates the primary key exactly if it would lose a row. |
| SqlStore.TokensInserted | app/infrastructure/database/repositories/refresh_token_repository.py:27-28 | Otherwise every old row is there as it was, and every new one. |
| SqlStore.UsersClashIff | app/infrastructure/database/unit_of_work.py:45-53 | The same condition for new users. |
| SqlStore.UsersInserted | app/infrastructure/database/repositories/user_repository.py:30-31 | Otherwise every old user is there as it was, and every new one. |
| SqlStore.SqlUnitOfWork.Rollback | app/infrastructure/database/unit_of_work.py:55-56 | Drops everything uncommitted. |
| SqlHandlers.CreateUser | app/application/users/commands/create_user.py:41-63 | Over the SQL unit of work the handler is the atomic registration, and dispatches one event exactly on success. |
| SqlHandlers.LogIn | app/application/auth/commands/login.py:36-68 | Over the SQL unit of work the handler is the atomic login. |
| SqlHandlers.RefreshTokens | app/application/auth/commands/refresh_token.py:33-79 | Over the SQL unit of work the handler is the atomic refresh, replay branch included. |
| SqlHandlers.LogOut | app/application/auth/commands/logout.py:25-37 | Over the SQL unit of work the handler is the atomic logout. |
| SqlHandlers.ChangeUserPassword | app/application/users/commands/change_password.py:34-49 | Over the SQL unit of work the handler is the atomic password change. |
| FakeStore.FakeUnitOfWork.RevokeTokensOfFamily | tests/fakes/__init__.py:167-170 | Looping over the stored objects has the effect of the bulk UPDATE. |
| FakeStore.FakeUnitOfWork.RevokeAllForUser | tests/fakes/__init__.py:172-175 | The same for the records of a user. |
| FakeStore.FakeUnitOfWork.GetUserByEmail | tests/fakes/__init__.py:144-148 | The loop returns a stored user with the address, or none exactly if there is none. |
| FakeStore.FakeUnitOfWork.PutToken | tests/fakes/__init__.py:158-162 | Stores the object itself under its jti; every other entry stays. |
| FakeStore.FakeUnitOfWork.PutUser | tests/fakes/__init__.py:135-139 | Stores the object itself under its id; every other entry stays. |
| FakeHandlers.CreateUser | app/application/users/commands/create_user.py:41-63 | Over the in-memory unit of work the handler is the same atomic registration, and commits once exactly on success. |
| FakeHandlers.LogIn | app/application/auth/commands/login.py:36-68 | Over the in-memory unit of work the handler is the same atomic login. |
| FakeHandlers.RefreshTokens | app/application/auth/commands/refresh_token.py:33-79 | Over the in-memory unit of work the handler is the same atomic refresh, although revoking the loaded record already changes the store. |
| FakeHandlers.LogOut | app/application/auth/commands/logout.py:25-37 | Over the in-memory unit of work the handler is the same atomic logout. |
| FakeHandlers.ChangeUserPassword | app/application/users/commands/change_password.py:34-49 | Over the in-memory unit of work the handler is the same atomic password change. |
| Lockstep.RunSql | app/infrastructure/database/unit_of_work.py:45-56 | Any sequence of calls on the SQL store gives the outcomes, events and rows of the atomic commands. |
| Lockstep.RunFake | tests/fakes/__init__.py:131-191 | Any sequence of calls on the in-memory store gives the same transcript. |
| Lockstep.RunBoth | tests/fakes/__init__.py:131-199 | From equal rows, any sequence of calls gives equal outcomes, equal events and equal committed rows on both stores. |
| Interleaved.MonotoneRows | app/infrastructure/database/mappers/refresh_token_mapper.py:32-33 | Under every interleaving of statements a committed record stays, keeps jti, user, family and expiry, and stays revoked once revoked. |
| Interleaved.DecisionSound | app/application/auth/commands/refresh_token.py:51-72 | The successor of a presented token, though owned by the user its subject names, belongs to the owner of the record read: proved from the tokens issued so far and the text round trip of ids. |
| Interleaved.OwnerUnderInterleaving | app/application/auth/commands/refresh_token.py:64-72 | Under every interleaving all records of a family belong to one user. |
| Interleaved.LiveGrowsIff | app/application/auth/commands/refresh_token.py:60-74 | A step other than a login gives a family more live records exactly if it commits a rotation whose record was revoked since it was read, and then one more. |
| Interleaved.OverwritesIff | app/infrastructure/database/repositories/refresh_token_repository.py:30-34 | A revocation time is overwritten exactly by such a stale commit with another time. |
| Interleaved.DeadFamiliesIff | app/application/auth/commands/refresh_token.py:38-74 | Exact for dead families: they stay dead over a run if and only if no rotation commits, after its own record was revoked, in a family without a live record. |
| Interleaved.SingleLiveIff | app/application/auth/commands/refresh_token.py:38-74 | Exact for the single live token: every family has at most one live record throughout a run if and only if no rotation commits, after its own record was revoked, in a family with a live record. |
| Interleaved.AtomicityIff | app/application/auth/commands/refresh_token.py:38-74 | Exact for both together: if and only if no rotation commits after its record was revoked. |
| Overlaps.SecondRedeemIff | app/application/auth/commands/refresh_token.py:38-62 | After a refresh of a token has committed, a later commit redeems the token again if and only if it commits a refresh of it that was open then. |
| Overlaps.RedeemTwiceIff | app/application/auth/commands/refresh_token.py:38-62 | Exact for redeem-once: over a run a token is redeemed twice if and only if a refresh of it that was open while another one committed commits as well. |
| Overlaps.SecondRedeemIsStale | app/application/auth/commands/refresh_token.py:61-62 | Every refresh of a token after the first to commit finds the record revoked. |
| Overlaps.SweepEndsIff | app/infrastructure/database/repositories/refresh_token_repository.py:39-59 | A bulk revocation (logout, replay, password change) leaves no matching record live exactly if no live one was committed between its UPDATE and its commit. |
| Overlaps.SweepEndsFamilyIff | app/application/auth/commands/logout.py:34-37 | A logout or replay leaves its family dead exactly then. |
| Overlaps.CutOffIff | app/application/users/commands/change_password.py:43-49 | Exact for the password-change cut-off: every live record of the user comes from a transaction begun after the change committed, if and only if no login or refresh of the user begun before inserts its record after the change's UPDATE, still live when the change commits. |
| Overlaps.CutOffLogin | app/application/users/commands/change_password.py:47-49 | Where the cut-off holds, the family of every live record of the user was opened by a login begun after the change. |
| Balances.FamiliesAreLogins | app/application/auth/commands/login.py:55-63 | Under every interleaving the number of families equals the number of logins that committed. |
| Balances.FamilySizeIsRefreshes | app/application/auth/commands/refresh_token.py:64-74 | Under every interleaving a family holds one record more than the refreshes that committed in it. |
| Balances.LiveBalance | app/application/auth/commands/refresh_token.py:60-74 | Over any stretch of any interleaved run, a user's live records at its end plus those that bulk revocations revoked equal the live ones at its beginning plus one for each login and each stale commit. |
| Balances.LiveAtMostLoginsIff | app/application/users/commands/change_password.py:48 | Exact for the bound by logins: since any state a user has at most as many live records as logins if and only if the bulk revocations since revoked at least as many as were live there and stale commits added. |
| Schedules.AloneIsAtomic | app/infrastructure/database/repositories/refresh_token_repository.py:39-59 | A transaction that nothing interrupts is the atomic effect. |
| Schedules.BothReadHappens | app/application/auth/commands/refresh_token.py:38-62 | A run in which two refreshes read one live token before either commits. |
| Schedules.DoubleRedeem | app/application/auth/commands/refresh_token.py:38-74 | Both then commit, the token is redeemed twice, and after one login its family and its owner have two live records. |
| Schedules.RaceHappens | app/application/auth/commands/logout.py:30-37 | A run in which a refresh has read its token while a logout, replay or password change has executed its UPDATE, neither committed. |
| Schedules.Resurrection | app/application/auth/commands/refresh_token.py:60-74 | If the revocation commits first, the refresh brings the dead family and the user's session back to life and moves the revocation time. |
| Schedules.MissedSuccessor | app/infrastructure/database/repositories/refresh_token_repository.py:39-59 | If the refresh commits first, the revocation completes with the family and the session alive, and no commit was stale. |
| Schedules.LateLogin | app/application/auth/commands/login.py:43-63 | A login that checked the old password before a password change commits after it: no commit is stale, the change leaves no live record, and the session lives on. |
| Registration.ClashIffTaken | app/infrastructure/database/unit_of_work.py:26 | The unique index refuses an insert exactly if the address is taken. |
| Registration.StepKeepsInv | app/application/users/commands/create_user.py:41-56 | Every step of any client keeps the protocol's invariant. |
| Registration.EmailsUnique | app/infrastructure/database/unit_of_work.py:45-53 | In every state of every run no two committed users have one normalised address. |
| Registration.AtMostOneSaved | app/application/users/commands/create_user.py:43-54 | Of the clients registering one address at most one saves a user, and none if it was taken at the start. |
| Registration.ExactlyOneRegisters | tests/integration_pg/test_postgres_tier.py:48-58 | If the address was free and every attempt ran to its end, exactly one registered and every other one ended in EmailAlreadyExists. |
| Registration.TakenFromTheStart | app/application/users/commands/create_user.py:43-44 | If the address was taken at the start, every attempt that ran to its end failed with EmailAlreadyExists. |
| Registration.EventsAreDurable | app/application/users/commands/create_user.py:54-56 | Every dispatched event is about a committed user, no user has two, and every registration that returned has one. |
| Registration.BothInsert | app/application/users/commands/create_user.py:43-53 | From every table there is a run in which two clients with one free address, in any spellings, both pass the pre-check and insert. |
| Registration.PreCheckIsNotEnough | app/application/users/commands/create_user.py:43-54 | That run goes on: the first commit succeeds, the second is refused by the index and ends in EmailAlreadyExists. |
| Registration.AloneIsRegister | app/application/users/commands/create_user.py:41-63 | A client that nobody interrupts ends as the atomic registration does. |
| FixedWindows.SpanOfTwice | app/infrastructure/cache/rate_limiter.py:6-11 | 2 * limit allowed calls in a row span at least one window's length. |
| FixedWindows.SlidingBound | app/infrastructure/cache/rate_limiter.py:6-11 | Any half-open interval of one window's length holds at most 2 * limit - 1 allowed calls. |
| InMemoryLimiter.InMemoryRateLimiter.Check | tests/fakes/__init__.py:56-70 | One call counts in the key's window, rolling it over when it has ended, and changes no other key. |
| InMemoryLimiter.InMemoryRateLimiter.CheckAll | tests/fakes/__init__.py:53-70 | A sequence of calls gives the decisions of the specification. |
| InMemoryLimiter.SlidingLimit | tests/fakes/__init__.py:56-70 | Over every call sequence with a non-decreasing clock: at most limit calls for a key in a window, and at most 2 * limit - 1 in any interval of the window's length. |
| InMemoryLimiter.BoundAttained | tests/fakes/__init__.py:56-70 | For every limit and window there are calls that attain 2 * limit - 1. |
| InMemoryLimiter.RetryAfterBounds | tests/fakes/__init__.py:65-70 | Allowed calls are told 0, refused ones between one second and the window. |
| InMemoryLimiter.WaitSufficesIff | tests/fakes/__init__.py:59-69 | A refused client that comes back exactly as late as it was told is counted in a new window, whatever other calls come between, exactly unless rounding went down. |
| InMemoryLimiter.RoundedWait | tests/fakes/__init__.py:66-69 | The wait is what is left of the window, give or take half a second, but never less than one second. |
| InMemoryLimiter.EarlyWait | tests/fakes/__init__.py:56-70 | Calls at 0.0, 7.5 and 9.5 with limit 1 and window 10: the second is refused and told 2, waits exactly that long and is refused again. |
| RedisLimiter.StepKeepsInv | app/infrastructure/cache/rate_limiter.py:31-41 | Every command of every client, every lapse of the key and every crash keeps the invariant. |
| RedisLimiter.LimitPerLifetime | app/infrastructure/cache/rate_limiter.py:35-41 | Each lifetime of the key allows at most limit calls, and exactly one client of it saw 1. |
| RedisLimiter.ExpireLandsOnce | app/infrastructure/cache/rate_limiter.py:36-37 | EXPIRE finds the key in the lifetime of the INCR before it, without a deadline, and is the first of that lifetime. |
| RedisLimiter.AnswerBounds | app/infrastructure/cache/rate_limiter.py:38-41 | Allowed exactly up to the limit and told 0; a refusal names between one second and the window even if the key is gone. |
| RedisLimiter.SlidingLimit | app/infrastructure/cache/rate_limiter.py:31-41 | Under every interleaving, any half-open interval of one window's length holds at most 2 * limit - 1 allowed calls. |
| RedisLimiter.BoundAttained | app/infrastructure/cache/rate_limiter.py:31-41 | For every limit and window there is a run that attains 2 * limit - 1. |
| RedisLimiter.WaitSufficesIff | app/infrastructure/cache/rate_limiter.py:38-40 | For every refusal in every reachable state: on all continuations a client that waits as long as it was told no longer meets the same lifetime of the key, exactly if the key is gone, or it has a deadline and rounding did not go down. |
| RedisLimiter.RoundedWait | app/infrastructure/cache/rate_limiter.py:38-40 | With a deadline, the wait is what is left, give or take half a second, but never less than one second. |
| RedisLimiter.WaitBeforeExpire | app/infrastructure/cache/rate_limiter.py:35-40 | A run, for every window of two seconds or more, in which a client is refused before the EXPIRE, told one second, waits it, and is refused again with the rest of the window to go. |
| RedisLimiter.EarlyWait | app/infrastructure/cache/rate_limiter.py:31-41 | A run in which a client is refused, waits exactly as long as it was told and is refused again. |
| RedisLimiter.LapsesIff | app/infrastructure/cache/rate_limiter.py:35-37 | Exact for the key to lapse: in every reachable state an existing key can still be dropped by some continuation if and only if it has a deadline or the client that saw 1 is still to issue its EXPIRE. |
| RedisLimiter.StuckReached | app/infrastructure/cache/rate_limiter.py:35-37 | INCR followed by a crash of the client reaches a key that no continuation drops. |
| RedisLimiter.StuckForever | app/infrastructure/cache/rate_limiter.py:35-37 | If the client that saw 1 crashes before its EXPIRE, then in every later state the key is there, in the same lifetime, with a count that only grows, and no continuation drops it. |
| RedisLimiter.StuckRefuses | app/infrastructure/cache/rate_limiter.py:38-40 | From then on, once the limit is used up, every call is refused. |
| RedisClient.KeysApart | app/infrastructure/cache/rate_limiter.py:34 | Different limiter keys are different server keys, under one prefix. |
| RedisClient.RedisRateLimiter.Check | app/infrastructure/cache/rate_limiter.py:31-41 | A call that nobody interrupts is the steps of one client of the machine, and touches no other key. |

## Left out

- Signing and verification of tokens, Argon2 and random ids are symbolic: a token carries the secret it was signed with, a hash carries its salt and password, ids are unused values.
- Claims of the wrong type or missing claims: a signed token always carries all seven, as every token the service signs does.
- `FakeTokenService` and `StubPasswordHasher`: both stores run with the token service of `Jwt` and the symbolic hash; the fake decoder, which never expires a token, is not modelled.
- Characters outside ASCII: white space, lower case, digits and UTF-8 beyond ASCII are not modelled in addresses, UUID text and cursors; such a character counts as an ordinary invalid one.
- `as_utc` and time zones: times are integers of microseconds since the epoch; the in-memory limiter's monotonic clock is a real number, so floating-point rounding of differences is not modelled.
- The dummy hash in a failed login, which only evens out timing.
- Column lengths, the foreign key from tokens to users, `updated_at`, and violations other than those of keys and of the address index.
- User deactivation and deletion: no command performs them; the commands still check activity.
- Engine behaviour below the statement level: in `Interleaved` a commit and the choice of rows by a bulk UPDATE are each one step, and lock waits are not modelled, which admits more runs than the database does.
- The decoding of tokens and the users table in `Interleaved`: an issued token is its id and subject, whose owner is active and has the password presented; a password change is covered through its UPDATE of the token table.
- Histories.PasswordChangeCutOff: holds for atomic handlers; under interleaving it holds exactly as `Overlaps.CutOffIff` says.
- FixedWindows.SlidingBound: counts allowed calls by the time they were counted, not by the time the answer arrived.
- RedisLimiter: one key with a constant limit and window; a key may lapse from its deadline on and is never served after it, so both readings of the exact deadline are covered.
- Redis persistence, eviction and failover, and the HTTP layer that turns a refusal into a response.
- `UserQueryService.get_by_id`, production configuration checks, exception-to-response mapping, middleware, dependency wiring, migrations, seeding, telemetry and logging: each is settled by reading one function.
