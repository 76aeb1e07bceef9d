# Models and proofs for the platform's services

A Dafny model of the parts of the platform whose behaviour is hardest to see from one
function body, with proofs of what they promise. Each module stands for a component:

| modules | component |
|---|---|
| `Clock`, `Tokens`, `Revocation`, `SessionEnds`, `OverlappingRevocations`, `LogoutSafety`, `SessionAfterLogout`, `RequestEffects`, `AuthService` | JWT life cycle: minting, refresh, logout, revoke-all, over a Redis store whose keys expire |
| `DeletionProtocol`, `DeletionSafety`, `DeletionWorker` | account deletion as a persisted state machine with commits, rollbacks, crashes and restarts |
| `EmailVerification`, `VerificationLimits`, `AccountActivation` | one attempt counter and one timestamp shared by verify and resend |
| `CypherText`, `ScopeInjection`, `ScopeCoverage`, `FragmentEnds`, `ClauseWords`, `CypherLimit`, `LimitClauses`, `SanitizedText` | tenant-scope injection into Cypher queries, and the LIMIT sanitiser |
| `RankFusion`, `Rrf`, `RrfTheorems`, `RrfDominance`, `ListOrder`, `HybridFusion`, `FusedFromLists`, `Diversity`, `DiversityPicks` | reciprocal rank fusion and MMR reranking |
| `Text`, `NameRewrites`, `NameWords`, `WhitelistKeys`, `WhitelistRows`, `Canonicaliser`, `Verdicts`, `SecondPass`, `NameExamples` | entity-name canonicalisation and whitelist matching |
| `Lines`, `BraceScanner`, `BraceTheorems`, `SymbolReading`, `Chunker`, `ChunkFields` | brace-counting code extraction and splitting of large methods |
| `Embeddings` | batched embedding with a per-text fallback |
| `ProjectTransfer` | moving a project and its rows between companies |
| `Slugs`, `SlugTruncation` | slugs cut at whole parts |
| `Ascii`, `Wrappers` | shared character classes, `Option` and `Result` |

Code that updates state is modelled by classes and methods with loops, each proved against a
specification function; what the component promises is then proved of those functions, over
all inputs and all runs.

## What the proofs show about the code

Most promises hold. Where one does not, the code is modelled as it is, a lemma gives an input
that shows it, and another says exactly when the promise is met.

- **Revoke-all.** With lifetimes of at most the seven days its stamp is kept for, it ends every
  older session exactly when the world it finds is settled: no refresh of such a session is half
  done, and none of its live tokens has this very microsecond as its `iat`, those blacklisted with
  less than two seconds to live aside (`RevokeAllEndsSessionsExactly`). A refresh that verified
  its token just before and mints just after carries the session across
  (`StraddlingRefreshSurvives`, `PendingSurvives`); a longer token is accepted again when the
  stamp is gone (`LongLivedTokenSurvives`). Revoke-all also refuses the tokens of a login that
  follows it within the same second (`LoginRightAfterRevocation`, `FreshLoginIsRefused`). Of two
  that overlap, the one that read the clock first may be written last: a stamp stands exactly
  until an older one is written (`StampStandsExactly`), and then tokens it kept out may be accepted
  (`OlderStampLetsIn`).
- **Logout.** Truncating the remaining life to whole seconds leaves a gap of less than one
  second before expiry in which a logged-out token is accepted again (`GapExactly`;
  `AcceptedInItsLastHalfSecond`). A logout ends no session but only the two tokens it is given:
  every other token of the session is accepted as before, and an older refresh token still mints
  (`LogoutTouchesOnlyTheNamed`, `RefreshOutlivesLogout`, `OlderRefreshTokenGoesOn`).
- **Account deletion.** The orchestrator has no branch for a stored status of `failed`: started
  again on one, it goes straight to `completed` with every row in place
  (`FailedTaskReportsCompletion`; `CompletedMeansAllGone` says when). The docstring's "can be
  resumed from failure" (`auth/main.py:1329`) is therefore not what the code does.
- **E-mail verification.** The counter reset after a lockout never takes effect, because the
  code has always expired by then (`LockedRowNeverChanges`). Resends count as attempts, so a code
  sent at a count of five or more cannot verify the account at all (`ResentCodeHasTheRest`); five
  resends, a minute apart from the registration on, lead there (`FifthResentCodeIsDead`).
- **Scope injection.** The docstring promises the filter in every MATCH clause
  (`kgrag/cypher_validator.py:162-163`). The pattern finds only those that name their first node,
  and one of them is enough for the query to be accepted: in `MATCH(a)MATCH()` the second gets no
  filter (`AnonymousNodeIsLeftOut`). A MATCH gets a fragment exactly when, blanks aside, a bracket
  and a word character follow it, or it is itself part of such a name (`ScopedExactly`,
  `ScopedThroughoutExactly`). A fragment that goes on an existing WHERE ends without a blank, so
  `MATCH(a)WHERE b RETURN` comes out ending in `$company_idRETURN` (`FilterRunsIntoReturn`). That
  happens exactly to clauses that have a WHERE and another clause behind them (`RunsOnExactly`);
  `FilteredThroughoutExactly` says when every MATCH has a filter that stands apart.
- **LIMIT.** Only the first clause is looked at, so `LIMIT 5 LIMIT 5000` is left as it is
  (`SecondLimitIsNotCapped`, `EveryLimitCappedExactly`), and any occurrence of the word counts as a
  clause, so a query naming `n.limit` gets none (`PropertyNamedLimit`, `HasLimitExactly`).
- **Canonicalisation.** Without a whitelist a second pass may reject what the first accepted: a
  tool named `_` comes out with an empty name (`SecondPassMayReject`), one named `tool` under its
  type's own label (`LabelInSmallLetters`). `CanonicaliseTwice` tells from the entity as it came
  when that happens. The reject list is consulted before names are split, so `PetOwner` is accepted
  and comes out as `Pet Owner`, which is on the list (`PetOwnerPasses`,
  `AcceptedDomainOnTheList`). An accepted entity whose name had blanks around an already canonical
  name keeps them, so its name is not a value of the whitelist to the letter (`BlanksAreKept`,
  `AcceptedNameIsListed`). The comment at `shared/canonicaliser.py:238-240` says that
  "Appointments (legacy)" has the key of "Appointments"; the code gives it the key `appointments
  legacy`, which only the prefix match then accepts (`LegacyAppointments`). What is put behind a
  name leaves its key alone exactly when it is punctuation and blanks (`SuffixLeavesKey`).
- **Brace scanning.** A `//` inside a block comment hides the rest of its line, the end of the
  comment included (`LinkInCommentHidesBraces`); `CommentEndsWhereItShould` says exactly when a
  comment ends where the language ends it. A string that ends in an escaped backslash is not seen
  to end (`EscapedBackslashHidesBraces`); `StringEndsWhereItShould` says exactly when one is.
- **Slugs.** The bound is kept exactly when it is not negative (`SlugFits`), and a slug is its own
  slug unless a negative bound cuts less than the whole first part (`SlugifyingTwice`,
  `NegativeBoundExample`).
- **Embeddings.** A batch without blank texts passes a reply of the wrong length on unchecked
  (`BatchKeepsItsLength`, `ShortReplyIsPassedOn`); a negative batch size yields no vectors and zero
  is an error.
- **Project transfer.** There and back restores every row exactly when none of the project's
  rows was with the target before (`ThereAndBack`, `StrayRowComesBackMoved`).
- **Fusion.** Any integer is taken as the constant `k`. An item ranked better in every list scores
  more, and is returned first, exactly if `k` is -1 or more (`DominanceHoldsExactly`,
  `OrderHoldsExactly`); below that an item found first scores less than one not found at all
  (`LoneItemScoresNegative`). The comment at `kgrag/fusion.py:77` says that the last of two items
  with one id wins; the code keeps the first, and so does the model.

## Model

| member | source | states |
|---|---|---|
| Tokens.RunKeepsSound | auth/main.py:1665-1695 | over every run of logins, refreshes, logouts and revocations, each minted token keeps a truncated `iat`, an expiry no later than its lifetime allows, and an older refresh token of the same user as its parent |
| Tokens.ApplyKeepsSound | auth/jwt_utils.py:46-105 | the same for one request; the clock never goes back and no token is forgotten |
| Tokens.BlacklistedForItsTtl | auth/token_blacklist.py:34-75 | what the lookup finds after a write: a token is blacklisted for exactly its remaining seconds, and one with none left stays as it was |
| Tokens.RevocationReadBack | auth/token_blacklist.py:78-118 | the stamp read back after a revocation is its instant, for exactly seven days and for its user alone |
| Revocation.AcceptedIsRecent | auth/jwt_utils.py:136-151 | while the stamp lives it keeps older tokens out, and once its key has vanished they have expired: any accepted token was issued at or after the stamped instant |
| Revocation.RunKeepsRevoked | auth/token_blacklist.py:78-99 | no step of any run undoes a revoke-all: later requests mint from tokens issued after it |
| Revocation.RevokeAllEstablishes | auth/token_blacklist.py:78-99 | the revoke-all step establishes that invariant |
| Revocation.AcceptedAfterRevocation | auth/jwt_utils.py:112-151 | every token accepted later goes back through its refreshes to a login after the revocation, at or after the stamped instant, if and only if no request in its chain straddled it |
| SessionEnds.RevokeAllEndsSessionsExactly | auth/token_blacklist.py:78-118 | in every reachable world, with lifetimes of at most seven days, a revoke-all ends all the user's older sessions in every run that follows if and only if that world is settled |
| SessionEnds.SettledEnds | auth/token_blacklist.py:78-118 | in a settled world no token of an older session is accepted again, whatever follows |
| SessionEnds.RunKeepsTimely | auth/token_blacklist.py:34-56 | in every run a blacklist key belongs to a minted token, and one set in the instant of its token's `iat` lasts until the token expires |
| SessionEnds.RunKeepsDead | auth/jwt_utils.py:112-153 | what a revoke-all has killed no later request brings back |
| SessionEnds.PendingSurvives | auth/main.py:1668-1695 | every half-done refresh has a run in which its session lives on |
| SessionEnds.ExposedSurvives | auth/jwt_utils.py:138-151 | a token minted on the microsecond of the revocation is accepted afterwards |
| SessionEnds.ExposedSurvivesItsKey | auth/main.py:1936 | even one that is blacklisted, if a second logout can shorten its key |
| SessionEnds.RevokeAllWorksIffTokensAreShortLived | auth/token_blacklist.py:82-83 | a revoke-all in a settled world ends all older sessions in every run if and only if both lifetimes are at most seven days |
| SessionEnds.LongLivedTokenSurvives | auth/token_blacklist.py:95 | a token living longer than the key's seven days is accepted again when the key is gone |
| Revocation.StraddlingRefreshSurvives | auth/main.py:1668-1693 | a refresh verified before and completed after the revocation keeps the old session alive |
| Revocation.LoginRightAfterRevocation | auth/jwt_utils.py:138-151 | a login right after a revoke-all is accepted if and only if a new second has begun |
| Revocation.FreshLoginIsRefused | auth/jwt_utils.py:138-151 | a login whose token is refused from the start |
| OverlappingRevocations.RevokeAllIsAWrite | auth/token_blacklist.py:92-95 | the revoke-all step of the run model is the write of the stamp it read |
| OverlappingRevocations.StampStandsExactly | auth/token_blacklist.py:78-99 | over every run with overlapping revoke-alls, a stamp, or a newer one, stands throughout if and only if no older one is written for the user |
| OverlappingRevocations.NewerRevocationHolds | auth/token_blacklist.py:78-99 | then every token accepted at the end was issued at or after the stamped instant |
| OverlappingRevocations.AcceptedAfterWrite | auth/jwt_utils.py:136-151 | after a late write a token is accepted if and only if it is alive, not blacklisted and not older than the stamp written |
| OverlappingRevocations.OlderStampLetsIn | auth/token_blacklist.py:95 | a run in which an older stamp is written over a newer one and lets a refused token in |
| LogoutSafety.LoggedOutStaysOut | auth/main.py:1934-1956 | in every run a logged-out access or refresh token is accepted at most inside the last second before `exp`, and never on a whole-second clock |
| LogoutSafety.GapExactly | auth/main.py:1936 | a blacklisted token is accepted at some later instant if and only if the key was set within the fraction of a second that truncation cut off |
| LogoutSafety.AcceptedInItsLastHalfSecond | auth/main.py:1936 | a token in that gap |
| LogoutSafety.RunKeepsGuard | auth/token_blacklist.py:34-75 | no step of any run shortens a blacklist key's guard of its token |
| SessionAfterLogout.LogoutTouchesOnlyTheNamed | auth/main.py:1934-1956 | a token the logout does not name is accepted afterwards if and only if it would have been without it |
| SessionAfterLogout.RefreshOutlivesLogout | auth/main.py:1668-1695 | a refresh with such a token mints if and only if the token would be accepted without the logout, and the session lives on |
| SessionAfterLogout.RefreshMintsExactly | auth/main.py:1668-1695 | a refresh mints if and only if its token is accepted, and the new access token is accepted and of the same session |
| SessionAfterLogout.OlderRefreshTokenGoesOn | auth/main.py:1668-1695 | a session that goes on after a logout with its newest pair |
| RequestEffects.RefusedLogoutChangesNothing | auth/main.py:1883-1897 | a logout refused for its token or for want of a user leaves clock, store, tokens and refreshes under way as they were, so every token, named or not, is accepted at every instant as without it |
| RequestEffects.RefusedRefreshChangesNothing | auth/main.py:1668-1673 | so does a refresh whose token is not accepted |
| RequestEffects.RevokeAllIsForItsUser | auth/token_blacklist.py:78-99 | every token of every other user is accepted after a revoke-all as before |
| RequestEffects.LoginMintsAPair | auth/main.py:1500-1516 | a login mints an access and a refresh token for its user, with `iat` and `exp` the whole seconds of the instants read, and nothing else |
| RequestEffects.RefreshMintsAPair | auth/main.py:1675-1695 | a refresh does for the user of the token it verified, if active, and is done with either way |
| AuthService.TokenService.AddToBlacklist | auth/token_blacklist.py:34-56 | the store after the call is the specified one; nothing is stored for a life that is over |
| AuthService.TokenService.RevokeAllUserTokens | auth/token_blacklist.py:78-99 | the stamp is the clock before the call, kept for seven days |
| AuthService.TokenService.CreateToken | auth/jwt_utils.py:46-105 | the minted token's claims and the clock after it |
| AuthService.TokenService.DecodeToken | auth/jwt_utils.py:112-153 | a payload exactly for tokens that are genuine, unexpired, not blacklisted and not older than the stamp |
| AuthService.TokenService.VerifyToken | auth/jwt_utils.py:160-199 | as decoding, and of the right kind |
| AuthService.TokenService.Login | auth/main.py:1475-1516 | the world after a login is the login step of the run model, soundness kept |
| AuthService.TokenService.VerifyForRefresh | auth/main.py:1668-1673 | the first half of a refresh is its step of the run model |
| AuthService.TokenService.MintRefreshed | auth/main.py:1675-1695 | the second half is its step; a pair comes back exactly for an active user |
| AuthService.TokenService.Logout | auth/main.py:1860-1968 | the world after logout is the logout or revoke-all step, and the outcome and count of revoked tokens in every branch; after a 401 or 404 nothing has changed |
| DeletionProtocol.RunSound | auth/main.py:976-1231 | in every run, crashed and restarted anywhere, the rows, the cleanup log and the status agree |
| DeletionProtocol.StepSound | auth/main.py:976-1231 | the same for one durable step |
| DeletionSafety.NothingGoesEarly | auth/main.py:1345-1358 | rows change only after sessions were revoked and a thorough cleanup succeeded, and every row still exists while a cleanup is under way |
| DeletionSafety.NothingIsUndone | auth/main.py:1195-1231 | no effect of the protocol is ever undone, and a completed or failed deletion never touches a row again |
| DeletionSafety.OthersLoseNothing | auth/main.py:1066-1143 | in every run each point and node whose company is not owned, and whose project is of no owned company in the rows at the start, still stands |
| DeletionSafety.CleanedMeansOthersOnly | auth/main.py:1066-1143 | in every run a collection logged as cleaned, and the graph once logged as deleted, hold no item of an owned company or its projects |
| DeletionSafety.RepeatingChangesNothing | auth/main.py:1204-1220 | either row-deleting statement, repeated once it has had its effect, changes no row |
| DeletionSafety.PurgingTwice | auth/main.py:1048-1109 | purging again removes nothing more, and nothing is removed exactly if nothing matches |
| DeletionSafety.RepeatedPhasesChangeNothing | auth/main.py:1180-1231 | once the user row is gone, phases repeated in whole or in part, in any later run, change no row |
| DeletionSafety.CompletedMeansAllGone | auth/main.py:1336-1364 | a completed deletion has removed owned companies, their projects, memberships, roles and user if and only if it never was `failed` with the user row still there |
| DeletionSafety.FailedTaskReportsCompletion | auth/main.py:1345-1363 | restarting a failed deletion marks it completed with every row in place |
| DeletionSafety.UserGoesLast | auth/main.py:1204-1222 | the user row outlives every owned company, and goes with memberships and roles at once; other companies stay |
| DeletionWorker.Worker.Execute | auth/main.py:1320-1376 | executing from any stored state is a run of the protocol; done means completed with everything gone, unless it started completed or failed; with reliable stores it is always done |
| DeletionWorker.Worker.InvalidateSessions | auth/main.py:976-1001 | phase 0 is a run of durable steps that ends revoked or failed |
| DeletionWorker.Worker.CleanExternalStores | auth/main.py:1004-1177 | phase 1 is a run that touches no row and reports success only after a thorough log |
| DeletionWorker.Worker.CleanCollections | auth/main.py:1036-1118 | every collection logged as cleaned or absent, or all skipped, or the deletion failed |
| DeletionWorker.Worker.CleanCollection | auth/main.py:1048-1109 | one collection: its entry is true of the store, or the deletion failed; points of others stay |
| DeletionWorker.Worker.CleanGraph | auth/main.py:1120-1172 | the graph is logged as cleaned or skipped, and a failure there does not stop the deletion; nodes of others stay |
| DeletionWorker.Worker.DeleteRows | auth/main.py:1180-1231 | phase 2 is a run of row steps that ends without the user row or failed |
| DeletionWorker.Worker.DeleteUser | auth/main.py:1212-1231 | memberships, roles and user go in one transaction or not at all |
| EmailVerification.CounterInRange | auth/main.py:1725-1787 | in every run the counter stays within 0..10 and is positive only with a last-request time |
| EmailVerification.LockedRowNeverChanges | auth/main.py:1725-1744 | at five attempts no verification request changes the row or succeeds, in the lockout or after it |
| EmailVerification.VerifiesExactlyWhen | auth/main.py:1746-1787 | a request verifies if and only if the code is right, alive and has fewer than five attempts against it |
| EmailVerification.GuessesWithinBudget | auth/main.py:1763-1779 | no run guesses wrong against a code more often than its counter leaves |
| EmailVerification.FiveGuessesPerCode | auth/main.py:1698-1787 | every code ever issued meets at most five wrong guesses in every interleaving of verify and resend |
| EmailVerification.ResentCodeHasTheRest | auth/main.py:2016-2036 | a resent code has only the guesses the counter leaves, and none at five or more |
| EmailVerification.BudgetCanBeSpent | auth/main.py:1763-1779 | the bound is reached exactly |
| AccountActivation.ActivatedExactly | auth/main.py:1780-1787 | in every run from a registration the account is active, and its address verified, if and only if some request met the right code, alive, with fewer than five attempts; nothing of the verification is left then |
| AccountActivation.FlagsChangeOnSuccess | auth/main.py:1780-1787 | no reply but success, and no resend, touches either flag |
| AccountActivation.FirstCodeLivesFifteenMinutes | auth/main.py:1420-1432 | the code of a registration verifies for fifteen minutes |
| AccountActivation.ResentCodeLivesFifteenMinutes | auth/main.py:2029-2036 | so does a resent one, while it has an attempt |
| AccountActivation.RepliesExactly | auth/main.py:1725-1779 | the answer to every request, the minutes of a lockout and the attempts left included |
| AccountActivation.WrongGuessIsCounted | auth/main.py:1763-1779 | a wrong guess is counted and timed, and any other failure leaves the row as it was |
| AccountActivation.ResendsExactly | auth/main.py:1990-2036 | a code is resent if and only if the address is not verified, a minute has passed since the last request that counted, and fewer than ten count on that UTC day; a refusal changes nothing |
| VerificationLimits.FifthResentCodeIsDead | auth/main.py:1725-1736 | a run from a registration whose fifth resent code is refused though right |
| VerificationLimits.FiveGuessesADay | auth/main.py:1763-1779 | an account meets at most five wrong guesses on any UTC day, over all its codes and in every run |
| VerificationLimits.TenRequestsADay | auth/main.py:1978-1985 | codes resent and wrong guesses together are at most ten on any UTC day |
| VerificationLimits.CodesAreAMinuteApart | auth/main.py:1978-1985 | any two codes that are resent are at least a minute apart |
| EmailVerification.UserRow.Register | auth/main.py:1420-1432 | the row a registration starts from |
| EmailVerification.UserRow.VerifyEmail | auth/main.py:1698-1787 | the new row and the reply in every branch; the invariant is kept |
| EmailVerification.UserRow.ResendVerification | auth/main.py:1978-2036 | the new row and the outcome in every branch; the invariant is kept |
| CypherText.Hits | kgrag/cypher_validator.py:148-151 | entry `i` is exactly what the MATCH pattern matches at `i` |
| CypherText.ScannedAreHits | kgrag/cypher_validator.py:201 | the clauses found are matches, in order and apart |
| CypherText.EveryHitCovered | kgrag/cypher_validator.py:201 | every place where the pattern matches lies in a clause found |
| ClauseWords.ClauseMeans | kgrag/cypher_validator.py:148-151 | the pattern matches exactly MATCH, or OPTIONAL and MATCH, a bracket and the name that is the first word in it, in any case and with any blanks |
| ClauseWords.EveryClauseIsFound | kgrag/cypher_validator.py:201 | wherever such a clause starts, one that gets a filter covers the place |
| ClauseWords.BoundaryMeans | kgrag/cypher_validator.py:155-158 | a boundary is exactly where RETURN, WITH, UNION, UNWIND or ORDER BY stands as whole words, or a MATCH that ends one |
| CypherText.NextBoundary | kgrag/cypher_validator.py:155-158 | the first clause boundary at or after a position, or the end |
| CypherText.NextBoundaryLocal | kgrag/cypher_validator.py:214-215 | text behind a clause's opening parenthesis does not change which boundary comes before it |
| ScopeInjection.InjectCompanyIdScope | kgrag/cypher_validator.py:161-232 | the right-to-left loop gives the simultaneous splice computed on the original query, or the right error |
| ScopeInjection.SameInsertion | kgrag/cypher_validator.py:209-223 | in the text already changed on the right, the loop finds the insertion the original calls for |
| ScopeInjection.TurnSplicesOneMore | kgrag/cypher_validator.py:218-229 | one turn adds exactly one insertion and keeps the others in place |
| ScopeInjection.OneFragmentPerClause | kgrag/cypher_validator.py:209-229 | one fragment per clause the pattern matches, naming its first variable, after that clause and no later than the next |
| ClauseWords.FiltersAreSpelled | kgrag/cypher_validator.py:209-229 | each fragment has no clause start between its clause and itself and one right behind it, or the end; it says AND or WHERE, by whether a WHERE stands between, then the name and `.company_id = $company_id` |
| ClauseWords.NamingCompanyMeans | kgrag/cypher_validator.py:187-191 | a query is refused for naming `company_id` if and only if it spells it anywhere, in any case |
| ScopeInjection.FragmentInPlace | kgrag/cypher_validator.py:209-229 | where each fragment stands in the result |
| ScopeInjection.FragmentsComeOutAgain | kgrag/cypher_validator.py:218-229 | deleting the fragments gives back the query |
| ScopeCoverage.ScopedExactly | kgrag/cypher_validator.py:148-151 | a MATCH keyword lies in a clause that gets a fragment if and only if it goes on to name its first node, or is part of such a name |
| ScopeCoverage.ScopedThroughoutExactly | kgrag/cypher_validator.py:161-185 | every MATCH of a query lies in such a clause if and only if every one names its first node |
| ScopeCoverage.AnonymousNodeIsLeftOut | kgrag/cypher_validator.py:200-208 | a query that is accepted with a MATCH left unscoped |
| FragmentEnds.RunsOnExactly | kgrag/cypher_validator.py:216-229 | the end of a fragment and the keyword behind it run into one word if and only if the clause has a WHERE and another clause follows |
| FragmentEnds.FilteredThroughoutExactly | kgrag/cypher_validator.py:161-185 | every MATCH has a fragment and every fragment stands apart if and only if every MATCH names its first node and no clause with a WHERE is followed by another |
| FragmentEnds.FilterRunsIntoReturn | kgrag/cypher_validator.py:216-222 | an accepted query whose filter runs into its RETURN |
| CypherLimit.SanitizedIsAllowed | kgrag/cypher_validator.py:110-143 | whatever the query and the default, the sanitised query passes the validator's LIMIT check |
| CypherLimit.SanitizingTwice | kgrag/cypher_validator.py:110-143 | sanitising again, with any default, changes nothing |
| SanitizedText.LimitIsAppended | kgrag/cypher_validator.py:139-142 | without the word LIMIT the result is the query up to its last blanks and a LIMIT with the smaller of the default and a thousand |
| SanitizedText.ClausesAreCapped | kgrag/cypher_validator.py:126-137 | if the first clause exceeds the maximum, everything outside the clauses is kept in order and each clause says a thousand |
| SanitizedText.OtherwiseUnchanged | kgrag/cypher_validator.py:124-143 | in all other cases the result is the query |
| SanitizedText.LimitMeans | kgrag/cypher_validator.py:126 | the pattern matches exactly LIMIT, a blank or more and all the digits that follow |
| SanitizedText.FirstLimitMeans | kgrag/cypher_validator.py:126-129 | the number looked at is that of the first such clause |
| LimitClauses.EveryLimitCappedExactly | kgrag/cypher_validator.py:110-143 | every LIMIT of the sanitised query is within the maximum if and only if the word did not occur, or the first clause exceeded the maximum, or none did |
| LimitClauses.HasLimitExactly | kgrag/cypher_validator.py:110-143 | the sanitised query has a LIMIT clause if and only if the query had one, or did not contain the word and the default is not negative |
| LimitClauses.PropertyNamedLimit | kgrag/cypher_validator.py:124 | a query that names a property `limit` comes back without a LIMIT |
| LimitClauses.SecondLimitIsNotCapped | kgrag/cypher_validator.py:126-129 | a second clause keeps a number above the maximum |
| Rrf.Fuse | kgrag/fusion.py:32-102 | the accumulating loops give the specified fusion, or the error for mismatched weights or a zero divisor |
| Rrf.AddList | kgrag/fusion.py:62-84 | one list's turn advances the accumulators over its occurrences |
| Rrf.Add | kgrag/fusion.py:66-84 | one item's turn: share added, first item kept, source appended |
| Rrf.FoldedIsAccumulated | kgrag/fusion.py:58-84 | the accumulators hold, for exactly the ids seen and in order of appearance, the sum of shares, the first item and all sources |
| RankFusion.ScoreFromSources | kgrag/fusion.py:62-84 | the score over recorded sources is the declarative sum over all lists |
| RankFusion.SortRanks | kgrag/fusion.py:86-91 | sorting ranks by descending score with ties in order of appearance |
| RrfTheorems.ScoresFollowTheFormula | kgrag/fusion.py:62-100 | every returned score is the sum of weight/(k+rank) over all occurrences of the id, and over the sources the result records; ranks count from one |
| FusedFromLists.ResultsComeFromTheLists | kgrag/fusion.py:76-84 | every result records exactly the places of the lists that hold its id, each with its score, in reading order, and is the item at the first of them |
| FusedFromLists.ScoresAreWeightsOverRanks | kgrag/fusion.py:73-74 | its score is the sum of weight over `k` plus rank, taken over those places |
| RrfTheorems.FusedListIsTheTop | kgrag/fusion.py:86-91 | the result is the top of the ranking, of the length the limit leaves |
| RrfTheorems.FusedResultsAreRanked | kgrag/fusion.py:86-100 | of the entries returned: as many as the limit leaves, each with a higher score than the next or as high a one and seen earlier, and each so over every id left out |
| RrfDominance.Dominance | kgrag/fusion.py:62-76 | with `k` at -1 or above, positive weights and distinct ids per list, an id at or above another everywhere and strictly better once has the larger score |
| RrfDominance.DominanceHoldsExactly | kgrag/fusion.py:24-30 | that holds of all fusions that go through if and only if `k` is at least -1 |
| RrfDominance.DominantComesFirst | kgrag/fusion.py:86-91 | the dominant id is returned before the other |
| RrfDominance.OrderHoldsExactly | kgrag/fusion.py:86-91 | that holds of all fusions that go through if and only if `k` is at least -1 |
| RrfDominance.LoneItemScoresNegative | kgrag/fusion.py:73-74 | for every `k` below -1, an item found first scores less than one not found |
| RrfDominance.LowerRankedComesFirst | kgrag/fusion.py:73-91 | for every `k` below -1, a list whose second item is returned before its first |
| RrfTheorems.ScoresIgnoreListOrder | kgrag/fusion.py:62-76 | permuting lists together with their weights changes no score |
| ListOrder.ResultsIgnoreListOrder | kgrag/fusion.py:62-100 | permuting lists together with their weights leaves the number of results and the score at each place; ids differ only where tied |
| ListOrder.OnlyTiesAreCut | kgrag/fusion.py:86-91 | an id that only one of the orders returns is tied with the last one returned |
| HybridFusion.FuseVectorGraph | kgrag/fusion.py:104-155 | fusion of the two searches after missing ids are filled in and inputs marked with their `source_type`, every result marked |
| HybridFusion.MarksAreRight | kgrag/fusion.py:146-153 | a result is marked as from a search if and only if that search listed its id; one mark at least, hybrid for both |
| HybridFusion.SourceTypesAreRight | kgrag/fusion.py:127-153 | a result carries the vector search's `source_type` if and only if that search listed its id, else the graph's |
| FusedFromLists.HybridsComeFromTheSearches | kgrag/fusion.py:127-153 | the sources of every result are exactly the places of the two searches that go by its id: their own, else a hash of the text or the name |
| Diversity.Rerank | kgrag/fusion.py:172-227 | the loop's result is a greedy reranking |
| Diversity.PickBest | kgrag/fusion.py:199-221 | the pick is the first of the candidates with the greatest MMR score |
| Diversity.GreedyIsUnique | kgrag/fusion.py:198-227 | there is only one greedy reranking |
| Diversity.RerankingSelects | kgrag/fusion.py:194-227 | a sub-multiset of the input that starts with its first result, of length min(limit, n), or one below that |
| Diversity.PureRelevanceKeepsOrder | kgrag/fusion.py:198-227 | with all weight on relevance, a sorted list is cut at the limit |
| DiversityPicks.EveryPickIsBest | kgrag/fusion.py:198-227 | for every weight, each result after the first has the best trade-off of relevance against its greatest similarity to those before it, among all not yet returned |
| Diversity.SimilarityIsJaccard | kgrag/fusion.py:229-254 | between 0 and 1, symmetric, and 1 exactly for texts with the same words, of which there is one |
| DiversityPicks.SimilarityIsRatio | kgrag/fusion.py:229-254 | the similarity times the number of words in both texts together is the number of words they share |
| DiversityPicks.MaxSimilarityIsGreatest | kgrag/fusion.py:207-213 | the loop over the selected finds the greatest similarity, or 0 without any |
| NameRewrites.TitleCaseWithAcronyms | shared/canonicaliser.py:208-216 | the loop titles every word and joins them |
| NameRewrites.SplitCommutes | shared/canonicaliser.py:194-205 | camel-case splitting commutes with every rewrite that keeps letters |
| NameWords.SplitsAtCapitals | shared/canonicaliser.py:194-205 | the two passes put a blank before exactly these capitals: one behind a small letter, and the last of a run that a small letter follows |
| NameRewrites.CanonicalForm | shared/canonicaliser.py:219-231 | the canonical name is the titled words of the split name, has no camel-case boundary and no blanks around it |
| NameWords.CanonicalNameMeans | shared/canonicaliser.py:219-231 | however the name spaced at its capitals is cut at blanks and underscores, the canonical name is those pieces, titled, with single blanks |
| NameWords.WhitelistKeyMeans | shared/canonicaliser.py:234-247 | the matching key is its pieces between blanks and punctuation, in small letters |
| NameWords.RejectNameMeans | shared/canonicaliser.py:181-191 | the name looked up in the reject list is the pieces between blanks, underscores and hyphens, in small letters |
| NameWords.CutIntoPieces | shared/canonicaliser.py:191-247 | every name can be cut so |
| NameRewrites.TitleIsCased | shared/canonicaliser.py:208-216 | a titled word is all capitals if it is an acronym of the list, else a capital and small letters |
| NameRewrites.CanonicalNameIsIdempotent | shared/canonicaliser.py:219-231 | canonicalising a canonical name changes nothing |
| NameRewrites.KeyOfCanonicalName | shared/canonicaliser.py:219-247 | a name and its canonical form have the same whitelist key |
| WhitelistKeys.SuffixLeavesKey | shared/canonicaliser.py:234-247 | a name with something put behind it keeps its key if and only if all of that is punctuation, underscores, hyphens and blanks |
| NameExamples.LegacyAppointments | shared/canonicaliser.py:238-240 | the name from the comment has a key of its own and is matched by prefix only |
| Canonicaliser.BuildWhitelist | shared/canonicaliser.py:148-175 | the loop's dictionary, its keys distinct and each the key of its stripped, non-empty name |
| WhitelistRows.BuiltHoldsExactly | shared/canonicaliser.py:168-175 | the dictionary leads the key of every row with a name, and no other, to the name in the last row that has it |
| WhitelistRows.BuiltInOrder | shared/canonicaliser.py:168-175 | its keys stand in the order of the first rows that have them |
| Canonicaliser.MatchWhitelist | shared/canonicaliser.py:250-276 | exact key first, then the first key that is a word prefix |
| Verdicts.MatchMeans | shared/canonicaliser.py:250-276 | a name matches the entry with its key, or else the first whose key is a word prefix of it, if and only if there is one |
| Canonicaliser.CanonicaliseEntity | shared/canonicaliser.py:80-145 | what is passed through, rejected, corrected or renamed |
| Verdicts.VerdictExactly | shared/canonicaliser.py:105-145 | a technical entity passes as it is; of the others exactly those are accepted whose stripped name is not empty, not the label of its type, and for a business domain not on the reject list and matched by the whitelist; nothing but the name changes |
| Canonicaliser.AcceptedNameIsListed | shared/canonicaliser.py:126-145 | an accepted business domain's name, blanks around it aside, is a whitelist value; to the letter if and only if it did not come with blanks around a canonical name |
| Canonicaliser.ListedNameMatchesItself | shared/canonicaliser.py:250-276 | a whitelist name with a key leads back to itself |
| NameExamples.BlanksAreKept | shared/canonicaliser.py:138-145 | a name that is accepted with its blanks |
| SecondPass.CanonicaliseTwice | shared/canonicaliser.py:110-145 | a second pass returns its input unchanged, or rejects it if and only if the entity as it came matches a listed name to reject or, not going by a whitelist, has no parts, or parts spelling its type's label or a name of the reject list |
| SecondPass.CanonicalLabel | shared/canonicaliser.py:114-116 | a canonical name is its type's label if and only if the name's parts spell `tool` or `organization` |
| SecondPass.AcceptedDomainOnTheList | shared/canonicaliser.py:118-136 | an accepted business domain comes out on the reject list if and only if its split name, or the whitelist name it matches, is on it |
| SecondPass.WhitelistedIsIdempotent | shared/canonicaliser.py:110-175 | with a built whitelist that holds no name to reject, canonicalising is idempotent |
| NameExamples.SecondPassMayReject | shared/canonicaliser.py:110-145 | a tool named `_` is accepted once and then rejected |
| NameExamples.LabelInSmallLetters | shared/canonicaliser.py:114-116 | so are a tool named `tool` and an organization named `organization` |
| NameExamples.PetOwnerPasses | shared/canonicaliser.py:118-122 | a name that is on the reject list only once it is split |
| Lines.ExtractionIsASlice | shared/code_extraction.py:21-36 | a valid extraction cuts the source in three and holds exactly the lines asked for |
| Lines.JoinOfSplit | shared/code_extraction.py:33-36 | joining the lines of a text gives it back |
| Lines.SplitOfJoin | shared/slugify.py:23-36 | splitting joined parts gives them back |
| BraceScanner.ExtractBraceMethod | shared/code_extraction.py:237-311 | the scanning loops give the specified cut |
| BraceScanner.ScanLine | shared/code_extraction.py:267-309 | one line's turn of the scan: what it leaves to find, or that the closing brace stands on it; never in a string and a comment at once, and with a known quote exactly in a string |
| BraceTheorems.FirstClosing | shared/code_extraction.py:299-307 | the scan stops at the first live closing brace that brings the balance to zero after an opening one |
| BraceTheorems.BlockIsCutAtItsEnd | shared/code_extraction.py:299-307 | whatever well-nested block the braces start with, the cut ends at its closing brace |
| BraceTheorems.StopsAtABlock | shared/code_extraction.py:299-307 | and conversely, a scan that stops has read one well-nested block |
| BraceTheorems.NestedIsBlocks | shared/code_extraction.py:299-307 | braces that never close too early parse as blocks |
| BraceTheorems.FewestLines | shared/code_extraction.py:267-307 | no shorter run of lines holds the closing brace |
| BraceTheorems.CutIsARangeOfLines | shared/code_extraction.py:263-311 | the cut is the line range through that brace, else all remaining lines |
| BraceTheorems.PlainTextIsCounted | shared/code_extraction.py:273-309 | without quotes and slashes this is plain brace counting |
| BraceTheorems.CodeIsRead | shared/code_extraction.py:273-309 | outside strings and comments a slash pair ends the line, a slash and a star begin a comment, each of three quotes without a backslash before it a string, and braces are recorded with their line |
| BraceTheorems.CommentEndsWhereItShould | shared/code_extraction.py:276-291 | the scanner ends a comment at its first end mark if and only if no slash pair comes before it and no slash right before it |
| BraceTheorems.LinkInCommentHidesBraces | shared/code_extraction.py:278-279 | a line whose braces the scanner misses |
| BraceTheorems.StringEndsWhereItShould | shared/code_extraction.py:290-296 | the scanner ends a string at its closing quote if and only if no backslash stands right before it |
| BraceTheorems.EscapedBackslashHidesBraces | shared/code_extraction.py:290-296 | a line whose braces the scanner misses after a string that ends in an escaped backslash |
| Chunker.ChunkMethod | shared/intelligent_chunker.py:48-115 | one chunk for small methods or without nested symbols, else the split |
| Chunker.SplitByNestedSymbols | shared/intelligent_chunker.py:157-287 | the loop gives the specified split or the missing-key error |
| Chunker.NestedChunks | shared/intelligent_chunker.py:195-255 | one child for every eligible symbol, in order |
| Chunker.SplitShape | shared/intelligent_chunker.py:257-287 | one whole-method chunk, or a parent and its children with links both ways, exact source slices and nesting one deeper; failure exactly for an eligible symbol without kind or name |
| Chunker.EligibleInOrder | shared/intelligent_chunker.py:195-224 | every eligible symbol is there, after those before it |
| Chunker.InheritFromParent | shared/metadata_inheritance.py:54-96 | the child's metadata, its purpose and business words read by the source's tables, the parent's id or none; or the missing-key error, for a symbol without a kind, a name or a line of its span |
| SymbolReading.ExtractKeywords | shared/metadata_inheritance.py:177-199 | the loop collects the patterns found, in order |
| SymbolReading.FoundExactly | shared/metadata_inheritance.py:194-197 | a pattern is collected if and only if the text contains it |
| SymbolReading.ContainsMeans | shared/metadata_inheritance.py:194 | a text contains a word if and only if it is something, the word and something |
| SymbolReading.PurposeByTheTable | shared/metadata_inheritance.py:154-175 | what a symbol is for is told by the first row of a table with a word that its name contains, in any case |
| Chunker.MergeKeywords | shared/metadata_inheritance.py:133-150 | the parent's keywords, then three found ones at most, ten in all |
| Chunker.ChildInherits | shared/metadata_inheritance.py:71-96 | a child has the parent's structural fields as they are, the derived and its own, and nothing else |
| Chunker.ChildKeywordsAreCapped | shared/metadata_inheritance.py:133-150 | at most ten keywords, the parent's first ten coming first |
| ChunkFields.FileFieldsReachTheNested | shared/metadata_inheritance.py:71-96 | the file's structural fields reach every nested chunk past the method's own dictionary, quality and complexity with their defaults, and no other key does |
| ChunkFields.NestedDerives | shared/metadata_inheritance.py:98-152 | a nested chunk's operation specialises what was found about the method, and its keywords are the method's and its own, each with its probability, ten in all |
| ChunkFields.SplitMethodFields | shared/intelligent_chunker.py:178-193 | the chunk of a method that is split has every field of the file but those that say what the method is and what was found about it, with their defaults |
| ChunkFields.WholeMethodFields | shared/intelligent_chunker.py:117-155 | a method kept whole has every field of the file but those found about it and those that say where it stands |
| Embeddings.EmbedText | kgrag/embeddings.py:33-71 | the batch loop gives the specified vectors, an error for a step of zero, nothing for a negative one |
| Embeddings.ProcessBatch | kgrag/embeddings.py:73-123 | a batch's vectors under every reply |
| Embeddings.Reinsert | kgrag/embeddings.py:107-116 | zeros put back for blank texts; fails exactly when the reply is too short |
| Embeddings.SequentialEmbed | kgrag/embeddings.py:166-196 | text by text, zero for blank texts and failed calls |
| Embeddings.BlankMeans | kgrag/embeddings.py:84-92 | a text counts as empty if and only if it is nothing but blanks |
| Embeddings.OneVectorPerText | kgrag/embeddings.py:50-123 | for every batch size of one or more and every pattern of failures, one vector per text in order: zero for blank text, else the model's, or zero only if the batch's call and the text's own failed |
| Embeddings.BatchSizeDoesNotShow | kgrag/embeddings.py:50-71 | without failed batch calls the result does not depend on the batch size |
| Embeddings.BatchKeepsItsLength | kgrag/embeddings.py:98-123 | one vector per text of a batch if and only if a reply to a batch without blanks has the right length |
| Embeddings.ShortReplyIsPassedOn | kgrag/embeddings.py:98-107 | two texts that come back as one vector |
| ProjectTransfer.ProjectRepository.TransferCompanyScope | api/repositories/project_repository.py:252-408 | the new database, the report with its counts and webhook address or the error in every branch, and the old database after every error; success exactly for the project of that source, a named target and no failing statement |
| ProjectTransfer.ProjectRepository.UpdateTables | api/repositories/project_repository.py:356-394 | every scoped table's rows moved and counted, unless a statement fails |
| ProjectTransfer.TransferKeepsConsistency | api/repositories/project_repository.py:331-394 | after a transfer every row has its project's company if and only if other projects' rows had and the project's were with source or target |
| ProjectTransfer.TransferTouchesOnlyTheProject | api/repositories/project_repository.py:331-394 | no row comes or goes, and nothing but the company of the project's rows changes |
| ProjectTransfer.TransferMovesTheProject | api/repositories/project_repository.py:327-394 | the project goes to the target under the webhook address of both names, and exactly those of its rows that were with the source go with it |
| ProjectTransfer.CountsAre | api/repositories/project_repository.py:384-394 | the report lists exactly the tables with changed rows, with their numbers |
| ProjectTransfer.ThereAndBack | api/repositories/project_repository.py:252-408 | there and back restores every row if and only if none was with the target before |
| ProjectTransfer.StrayRowComesBackMoved | api/repositories/project_repository.py:252-408 | a row that there and back does not restore |
| ProjectTransfer.RoundTripRestores | api/repositories/project_repository.py:327-346 | in a consistent database it is the identity if and only if the webhook was the one the company's name gives |
| SlugTruncation.SlugifyText | shared/slugify.py:11-37 | the pipeline and the truncation loop give the specified slug |
| SlugTruncation.CutAtParts | shared/slugify.py:23-37 | the loop keeps as many whole parts as fit, or the start of the first |
| Slugs.PipelineJoinsRuns | shared/slugify.py:16-17 | the regular expressions and strips give the runs of letters and digits joined by hyphens |
| SlugTruncation.SlugIsWellFormed | shared/slugify.py:11-37 | only letters, digits and single inner hyphens |
| SlugTruncation.SlugFits | shared/slugify.py:11-37 | the length bound is kept if and only if it is not negative |
| SlugTruncation.SlugIsTheLongestFit | shared/slugify.py:23-37 | whenever the first part fits, the slug is the longest run of whole parts that fits |
| SlugTruncation.LongFirstPartIsCut | shared/slugify.py:31-32 | otherwise it is as much of the first part as fits |
| SlugTruncation.SlugifyingTwice | shared/slugify.py:11-37 | a slug is its own slug if and only if the bound is not negative, or the text has no part, or the bound cuts the whole first one |
| SlugTruncation.NegativeBoundExample | shared/slugify.py:32 | a negative bound cuts again on every pass |

## Left out

- HTTP routing, request validation, response building and e-mail sending: field copying and I/O.
- Signing, hashing, random codes and identifiers: tokens are named by the order they are minted
  in, codes by the order they are issued in, and whether a guess is right is a parameter.
- Redis outages, and lookups that fail: the store always answers, and a key is gone from the
  instant its time is up. One clock serves all processes.
- Legacy tokens without `jti` or `iat`, and API tokens.
- Refresh tokens are looked up and minted in two steps; every other request of the run model is one
  step. `OverlappingRevocations` adds revoke-alls that are written late; other interleavings inside a
  request are left out.
- A failed commit in the deletion worker, and database errors outside its `try` blocks: they
  count as crashes. Error messages, timestamps and the audit record are not part of the durable state,
  and neither is how the ORM notices in-place changes to JSON columns.
- Rows other writers add while a deletion runs.
- DeletionWorker.Worker.Execute: that a deletion finishes is claimed only for stores that never fail; otherwise
  every outcome of a call is open, also whether a failed call had acted.
- Unicode: strings are ASCII, as are case and word classes. Floating-point rounding: numbers are
  reals.
- The rest of the Cypher validator (forbidden commands, length, opening keyword): independent
  checks. What an injected query means to Neo4j is not claimed.
- Fusion updates item dictionaries in place; the model rebuilds values, so one dictionary given in
  both lists, which would end up with the graph's mark, is not captured. Other keys of an item are
  dropped.
- The cross-encoder reranker: its scores come from a library.
- The other extractors (`extract_by_indent`, `extract_variable`, `extract_ruby_method`) and
  language detection: single loops with no property beyond their body.
- BraceScanner.ExtractBraceMethod: the languages' own rules appear only as the ends of comments and
  strings on one line; regular-expression literals and template substitutions are not modelled.
- Chunk identifiers are structures, so collisions of their printed form are not captured.
- Embeddings.OneVectorPerText: assumes that a call that succeeds returns the model's vectors;
  `BatchKeepsItsLength` says what happens to the length when it does not.
- `updated_at` columns, and the slug function behind webhook addresses, which is a parameter of
  `ProjectTransfer`.
