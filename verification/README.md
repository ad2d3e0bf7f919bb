# Verified model of a Wi-Fi access service

The service sells Wi-Fi subscriptions: it keeps hotspot accounts in RADIUS tables,
settles M-Pesa payments, authenticates its users with passwords and two-factor
codes, stores device configurations in a key-value store and talks to MikroTik
routers over pooled connections. This project models the parts that hold state
across requests and proves what they guarantee over whole runs.

Each handler that changes state is a method of a class; its `ensures` equates the
new state with a function of the old one, and the properties are lemmas about
these functions and about runs of them. Calls to the outside (databases, Redis,
routers, e-mail, signing) may fail: either the method draws the outcome itself, or
the outcome is a parameter. Where the source commits a transaction without looking
at the result, a write can also be lost while the handler goes on (`Lost`).

| file | part of the service |
|---|---|
| `Table.dfy` | rows of the RADIUS tables and the SQL statements on them |
| `Reconciliation.dfy`, `Replacement.dfy` | the update/insert/delete loops, and the replacement they stand for |
| `Hotspot.dfy`, `AccountRows.dfy` | create, update and delete of hotspot accounts in transactions, and the rows they leave |
| `Subscriptions.dfy`, `GrantAnswers.dfy` | grants from the clock, their answers, and runs of grants and of all account operations |
| `Settlement.dfy`, `CallbackAnswers.dfy` | orders, payment callbacks, the queue and the worker |
| `TwoFactor.dfy`, `TwoFactorRuns.dfy` | two-factor handlers, password changes and tokens, and what their runs keep |
| `AuthAnswers.dfy` | what the two-factor handlers answer and change in every case |
| `VerifiedTokens.dfy`, `TokenOrigins.dfy` | where tokens come from |
| `MainKey.dfy`, `RecoveryKeys.dfy`, `Lockouts.dfy` | when the current password and the recovery key in the user's hand open the secret, and runs after which they do not |
| `BackupCodes.dfy`, `CodeReuse.dfy` | how often backup codes are accepted |
| `KeyOrder.dfy`, `ConfigHistory.dfy`, `LastWrites.dfy` | configuration records, index entries and session values in an ordered key space |
| `Listings.dfy`, `ConfigStore.dfy` | the listing by ISP, and the store |
| `ConnectionPool.dfy`, `PoolCalls.dfy`, `PoolLeaks.dfy`, `ClosingRounds.dfy` | interleavings of the device manager with calls on its pools, and what closing leaves open |
| `DeviceManager.dfy` | the objects of the device manager |
| `TokenBlacklist.dfy` | logout and the token blacklist |
| `EmailChange.dfy`, `EmailAnswers.dfy`, `AddressMixups.dfy` | registration and change of e-mail addresses, and runs that mix them up |
| `Texts.dfy`, `TemplateModel.dfy` | the string functions used, and the e-mail template notation |
| `Connections.dfy`, `Clock.dfy`, `Http.dfy`, `Wrappers.dfy` | database outcomes, units of time, status codes, options |

## Findings

Where the code falls short of a property that its design suggests, the model keeps
the code and a lemma gives the exact condition under which the property holds.

- Updating an account equals replacing its rows unless the input repeats a stored
  name or names a kept one: the loop compares with the stored value, which it does
  not refresh (`UpdateIsReplacement`, `RepeatedNameDiverges`).
- With two-factor on, the current password stops opening the secret in exactly these
  steps (`KeyLostExactly`): an OTP, accepted or rejected, or an activation re-wraps a
  secret from memory under a password that has changed since; a password change or
  recovery writes only one of the two-factor row and the password; or two-factor is not
  mandatory and the password changes. While it does not open, every OTP after a login
  with the current password is answered with 500 (`LoginThenOtp`). `Lockouts.dfy` has a
  run from the initial state for each of these ways.
- The recovery key a user was last given stops fitting exactly when a recovery or an
  activation replaces the row and then answers with an error, or when the row is lost and
  its key handed out all the same (`HandLostExactly`, `HalfSavedRecovery`, `LostRecovery`).
- Handlers that ignore the result of COMMIT go on when a write is lost: a backup code is
  accepted again (`AcceptedAgain`, `AcceptedTwice`), and a password changes without its
  wrapped key (`LostCommit`).
- A configuration that moves to another ISP stays listed under the old one, and one
  whose second write failed is not listed at all (`IndexAgreesWithFilter`,
  `MovedRecordStaysListed`, `UnindexedIsNotListed`); an ISP id with a colon can lead the
  listing of another ISP to a foreign record (`ListingExactly`, `ColonLeadsAstray`).
- Adding a device under an id that is in use, or removing a device while a call holds
  one of its clients, leaves connections open for good (`CloseIsComplete`,
  `ReplacedPoolLeaks`, `LateReturnLeaks`, `OpenForGood`).
- The code mailed for an e-mail change leads to the address, not to the user: the
  first of several users asking for one address gets it (`CodeServesFirstRequest`,
  `BobVerifiesForAnn`).
- Two accounts come to share an address exactly through a registration whose payload
  carries an authID other than the holder's, or through an immediate change after the
  lookup by digest failed, an error that is dropped (`UniqueIffNeverOverlooks`,
  `RegisteredTwice`, `FailedDigestLookup`).
- A home user's payment is booked without a grant exactly when the stored password
  cannot be read (`UngrantedExactly`, `HomeUserPaysInVain`); checkout marks no order as a
  home user's at present.

## Model

| member | source | states |
|---|---|---|
| Table.SameRowsIffSameCells | server/handler/hotspot_user.go:823-883 | two tables hold the same rows, with multiplicity, iff they hold the same values for every user and name |
| Table.WithoutTwice | server/handler/hotspot_user.go:961-968 | deleting names one after the other deletes their union, so the order does not matter |
| Table.ValsUpdate | server/handler/hotspot_user.go:898-905 | an UPDATE overwrites every row of that user and name and no other |
| Reconciliation.ReadCurrent | server/handler/hotspot_user.go:246-252 | the lookup map holds the last value of every name that is not skipped |
| Reconciliation.ApplyInput | server/handler/hotspot_user.go:254-286 | the first loop, any statement of which may fail, computes its functional form and the names it has processed |
| Reconciliation.DeleteStale | server/handler/hotspot_user.go:288-303 | for every iteration order of the map the second loop deletes exactly the names neither kept nor processed |
| Reconciliation.Reconcile | server/handler/hotspot_user.go:305-366 | select, update, insert and delete together give Diff, or a statement has failed |
| Replacement.DiffCells | server/handler/hotspot_user.go:237-303 | the values left for every user and name, for any input and any table |
| Replacement.DiffIsReplacement | server/handler/hotspot_user.go:237-429 | for every table and input, the loops leave exactly the rows of delete-and-insert iff every input name is mergeable |
| Replacement.DistinctInputsMerge | server/handler/hotspot_user.go:237-429 | distinct names over a table with one row per name always qualify |
| Replacement.RepeatedNameDiverges | server/handler/hotspot_user.go:256-286 | a stored name given twice leaves one row where the replacement has two |
| Replacement.DiffFrame | server/handler/hotspot_user.go:237-429 | no row of another user changes |
| Replacement.DiffUnique | server/handler/hotspot_user.go:237-303 | distinct inputs create no second row for a name |
| Hotspot.RadiusDb.CreateHotspotUser | server/handler/hotspot_user.go:34-137 | with a fault at any statement or at commit the tables are unchanged and the answer is 500; without one the full effect, 201 or 409 |
| Hotspot.RadiusDb.UpdateHotspotUser | server/handler/hotspot_user.go:182-441 | the same for update, including a failed BEGIN that only shows at the first statement; 200 or 404 without faults |
| Hotspot.RadiusDb.DeleteHotspotUser | server/handler/hotspot_user.go:444-496 | the same for delete |
| Hotspot.RadiusDb.AddOrUpdateRadCheckAttribute | server/handler/hotspot_user.go:500-541 | the attribute is updated if present and inserted if not; a fault changes nothing |
| Hotspot.RadiusDb.DeleteRadCheckAttribute | server/handler/hotspot_user.go:544-574 | the attribute's rows are deleted; a fault changes nothing |
| Hotspot.UpdateIsReplacement | server/handler/hotspot_user.go:207-429 | the update leaves the rows of the replacement in all three tables iff every supplied section is mergeable |
| Hotspot.PlainUpdateIsReplacement | server/handler/hotspot_user.go:207-429 | in particular for distinct names without password and Auth-Type over tables with one row per name |
| Hotspot.PasswordCases | server/handler/hotspot_user.go:207-235 | the password and Auth-Type rows for a nil, an empty and a given password |
| AccountRows.UpdateStoresInput | server/handler/hotspot_user.go:237-429 | on the request's own fields: after a plain update each given attribute has exactly its own operator, or :=, and value, each given group its own priority, or 1, every other name of a supplied section is gone, and a section that is not supplied is as before; 404 without an account |
| AccountRows.CreateStoresInput | server/handler/hotspot_user.go:61-123 | the same for a new account, beside what the user had; 409 and no change if it exists |
| AccountRows.CreatedPassword | server/handler/hotspot_user.go:61-80 | a password that is given is stored, otherwise Auth-Type Accept stands in for it |
| Hotspot.CreateCells | server/handler/hotspot_user.go:61-123 | the values of a new account for every name |
| Hotspot.PutCells | server/handler/hotspot_user.go:510-533 | the values after add-or-update for every user and name, with the operator given, the answer, and nothing else touched |
| Hotspot.RemoveCells | server/handler/hotspot_user.go:554-567 | deleting an attribute empties that name of that user and nothing else; 404 if it was not there |
| Hotspot.CreateFrame | server/handler/hotspot_user.go:34-137 | creating an account changes no other user's rows |
| Hotspot.UpdateFrame | server/handler/hotspot_user.go:182-441 | updating an account changes no other user's rows |
| Hotspot.DeleteFrame | server/handler/hotspot_user.go:468-484 | deleting removes all rows of the user and none of anyone else; without an account it changes nothing |
| Subscriptions.ManageHotspotUser | server/handler/radius.go:12-85 | a subscribing call acts by the account's standing or, on any fault, changes nothing and answers 404 if it was the password lookup and 500 otherwise; a failed password lookup is passed over when not subscribing |
| Subscriptions.FirstPassword | server/handler/radius.go:21-30 | the loop picks the first stored password, or keeps the one given |
| GrantAnswers.AnswerFromRows | server/handler/radius.go:59-77 | for every table, without faults: granted iff the user has no radcheck row, or the first expiry is missing, empty or passed; 409 iff it is running and the call subscribes; 500 iff it is no date, or running otherwise; nothing changes unless granted |
| GrantAnswers.GrantLeavesRequest | server/handler/radius.go:37-74 | a grant on an account with one row per name leaves exactly the request: the instant asked for cut to a second, the devices, the password of the request or of the home user, and the plan as the only group |
| GrantAnswers.FirstCallIsGranted | server/handler/radius.go:65-69 | in every run the first undisturbed call for a user without rows is granted |
| Subscriptions.GrantWritesExpiry | server/handler/radius.go:37-74 | a grant leaves one Expiration row, with the new expiry in whole seconds |
| Subscriptions.ActiveIntervalRefuses | server/handler/radius.go:61-64 | in every run, a call inside the interval of an earlier grant changes no table and, unless the database fails, gets 409 |
| Subscriptions.SubscriptionsNeverOverlap | server/handler/hotspot_user.go:1045-1085 | in every run with a clock that does not go back, a grant comes strictly after the expiry of every earlier grant to the user |
| Subscriptions.GrantedIffExpired | server/handler/radius.go:61-77 | after the last grant, an undisturbed call is granted iff that grant has expired, and otherwise gets 409 |
| Subscriptions.HomeUserKeepsPassword | server/handler/radius.go:21-30 | renewing a home user keeps the stored password |
| Subscriptions.ExactAccountShape | server/handler/radius.go:37-74 | from no rows, after any run with k grants: k Auth-Type rows, one row each for expiry, devices and plan of the last grant, nothing else |
| Subscriptions.RadcheckStaysUnique | server/handler/hotspot_user.go:34-574 | over every run of all account operations, faults included, one radcheck row per user and attribute other than Auth-Type |
| Settlement.Shop.LookUp | server/handler/mpesa_callback.go:59-69 | the order found is the first with the checkout id |
| Settlement.Shop.MpesaStkHandlerCallback | server/handler/mpesa_callback.go:59-150 | a failed payment is queued; a successful one makes one subscription call, for a home user too, and is queued unless that answered 409 or 500 |
| Settlement.Shop.SaveMpesaPayment | server/service/mpesa.go:49-97 | payment and order status are written together or not at all, and the answer says which |
| Settlement.Shop.RunTask | queue/client.go:46-52 | a task that succeeded leaves the queue; one that failed stays while it has retries |
| Settlement.OrdersAndPaymentsAgree | server/service/mpesa.go:49-97 | in every reachable state every payment points to an order with its checkout id and user, and every order has the status its latest payment implies |
| Settlement.StatusMeansPayment | server/service/mpesa.go:82-92 | an order is PENDING iff it has no payment and paid iff its latest payment has code 0 |
| Settlement.PaymentsHaveGrants | server/handler/mpesa_callback.go:85-150 | over every run in which no task succeeds twice, a user's successful payment rows, with those still queued, never exceed the user's grants and calls that answered 404 |
| Settlement.UngrantedExactly | server/handler/mpesa_callback.go:85-150 | a successful payment is queued without a grant iff the order is a home user's and the password read failed |
| Settlement.CheckedOutPaymentsHaveGrants | server/controller/mpesa.go:50-100 | as long as checkout marks no order as a home user's, payment rows never exceed grants |
| Settlement.HomeUserPaysInVain | server/handler/radius.go:21-35 | a home user's order ends paid without any grant |
| Settlement.PaidSubscriptionsNeverOverlap | server/handler/mpesa_callback.go:38-193 | end to end: payments are covered by grants and calls that answered 404, and the grants never overlap |
| Settlement.GrantedPaymentSettles | server/handler/mpesa_callback.go:85-150 | after any run, a granted and queued payment ends as one payment row, a paid order and an account with the expiry paid for, the order's devices and the plan as its only group |
| CallbackAnswers.PaidCallback | server/handler/mpesa_callback.go:85-150 | a successful payment logs one call with user, home-user flag and devices of the first such order and the plan's name and duration, takes its answer, and is queued unless that is 409 or 500 |
| CallbackAnswers.FailedPaymentIsQueued | server/handler/mpesa_callback.go:59-83 | without an order nothing happens; a failed payment is queued and grants nothing |
| CallbackAnswers.FailedPaymentSettles | server/service/mpesa.go:49-97 | and ends as a payment row with its code and a failed order |
| CallbackAnswers.TaskRuns | server/service/mpesa.go:49-97 | a task is booked under the first order with its checkout id, with its code, or changes nothing and stays while retries are left |
| CallbackAnswers.CheckoutStores | server/controller/mpesa.go:88-108 | an order is stored as placed, PENDING |
| TwoFactor.Service.Setup2FA | handler/twoFA.go:25-201 | a new secret goes into memory only for the right password and while two-factor is not on |
| TwoFactor.Service.Activate2FA | handler/twoFA.go:204-440 | the whole new state for every outcome of OTP, database and signing; a lost row still clears memory and issues the token |
| TwoFactor.Service.Validate2FA | handler/twoFA.go:443-642 | the whole new state; both outcomes re-wrap the secret |
| TwoFactor.Service.Deactivate2FA | handler/twoFA.go:645-780 | keys are cleared and the claim reset; a lost row keeps the keys under the new claim, a refused one changes nothing |
| TwoFactor.Service.CreateBackup2FA | handler/twoFA.go:787-911 | the old codes go and the hashes of the new ones are stored, each unless refused or lost |
| TwoFactor.Service.ValidateBackup2FA | handler/twoFA.go:919-1038 | the loop finds the first matching code and exactly that row is deleted, unless the deletion is lost |
| TwoFactor.Service.Login | handler/login.go:20-141 | claim and memory entry as the stored status asks, for the stored password only |
| TwoFactor.Service.Refresh | handler/login.go:145-178 | a new pair of tokens with the same claims |
| TwoFactor.Service.PasswordUpdate | handler/passwordReset.go:394-566 | the secret is re-wrapped before the password is saved; either write may be refused or lost |
| TwoFactor.Service.PasswordRecover | handler/passwordReset.go:78-391 | both checks of the recovery key, both re-wrappings and the new password, with either write refused or lost |
| AuthAnswers.LoginExactly | handler/login.go:20-141 | one token with the row's status, or no claim, is appended iff the stored password is given for an account that is not barred, the row is read where two-factor is mandatory, and signing succeeds; 404, 401 and 500 otherwise, and nothing but tokens and memory changes |
| AuthAnswers.LoginRemembers | handler/login.go:98-113 | the hash of the stored password goes into memory iff such a login finds two-factor mandatory and on |
| AuthAnswers.SetUpExactly | handler/twoFA.go:25-201 | a secret goes into memory iff the password is right and two-factor is not on, and nothing else changes |
| AuthAnswers.ActivateExactly | handler/twoFA.go:283-434 | an OTP accepted in time writes the row, clears memory, hands out key and token, each as far as the writes and signing allow |
| AuthAnswers.ActivateOtherwise | handler/twoFA.go:204-308 | a rejected OTP only counts, a late one only clears memory, any other call changes nothing |
| AuthAnswers.ValidateExactly | handler/twoFA.go:443-642 | an OTP is checked iff claim, length, row and a secret are there; checked, it advances the counters in row and memory, or clears memory if accepted; unchecked it changes nothing |
| AuthAnswers.OtpAnswers | handler/twoFA.go:204-642 | when the two OTP handlers answer 401 and 400 |
| AuthAnswers.DeactivateExactly | handler/twoFA.go:645-780 | the right password clears the row, deletes the codes and issues the claim, each as far as its call succeeds; otherwise nothing changes |
| AuthAnswers.DeactivationTurnsOff | handler/twoFA.go:699-735 | two-factor is off afterwards |
| AuthAnswers.CreateExactly | handler/twoFA.go:787-911 | codes are made iff the token is verified, the password right and no write refused; 401 and 400 exactly otherwise |
| AuthAnswers.CodeAnswers | handler/twoFA.go:919-1038 | a backup code is accepted iff it is one of the bearer's and the request is served; 401 and 400 exactly otherwise |
| AuthAnswers.RefreshAnswers | handler/login.go:145-178 | 401 iff the user is unknown |
| AuthAnswers.UpdateExactly | handler/passwordReset.go:394-566 | the password becomes the new one iff the old one is right, the new one is repeated and long enough, the main key opens where two-factor is mandatory and on, and the writes go through; OK unless one is refused |
| AuthAnswers.UpdateRewraps | handler/passwordReset.go:489-549 | the same secret is then wrapped under the new password |
| AuthAnswers.RecoverExactly | handler/passwordReset.go:78-391 | the password becomes the new one iff the code leads to the account, the new one is repeated and long enough, the recovery key fits and opens the backup key where two-factor is mandatory and on, and the writes go through; OK unless one is refused, 400 and 401 exactly otherwise |
| AuthAnswers.PlainRecovery | handler/passwordReset.go:196-212 | where two-factor is not mandatory or not on, neither row nor keys change |
| AuthAnswers.FitsExactly | handler/passwordReset.go:213-258 | a recovery key, typed with any blanks, fits iff it has the right length, opens the UUID, and that has the stored hash |
| TwoFactorRuns.WrappingInvariant | handler/twoFA.go:309-409 | in every state of every run, whichever writes are refused or lost: with status on, main and backup key hold one seed, the recovery data belong to the recovery key last stored, and a secret in memory has that seed; with status off no key material is stored |
| TwoFactorRuns.RecoveryDataFrame | handler/passwordReset.go:393-566 | only Activate, PasswordRecover and Deactivate touch the status, KeyBackup, UUIDEnc and UUIDSHA |
| TwoFactorRuns.RecoveryAlwaysWorks | handler/passwordReset.go:196-360 | in every reachable state with status on the recovery key last stored, with any blanks typed, passes both checks, and the new password opens the secret |
| RecoveryKeys.RecoveryHandsOut | handler/passwordReset.go:281-391 | the recovery key that a recovery hands out fits iff its row was not lost, or the key is the old one |
| RecoveryKeys.ActivationHandsOut | handler/twoFA.go:320-434 | the one that an activation hands out belongs to a row iff that was not lost |
| RecoveryKeys.HandLostExactly | handler/passwordReset.go:347-391 | for every operation and every outcome: the key last handed out stops fitting iff a row is replaced and the answer is an error, or the row is lost and its key handed out |
| RecoveryKeys.InHandThroughout | handler/passwordReset.go:196-391 | over every run the key last handed out fits throughout iff no step is of that kind |
| RecoveryKeys.RecoveryWithGivenKey | handler/passwordReset.go:204-245 | in every reachable state with status on that key, with any blanks typed, resets the password if it fits and gets 401 otherwise |
| MainKey.KeyLostExactly | handler/twoFA.go:309-613 | for every operation and every outcome of its writes: a main key that opens under the current password stops doing so iff the operation's guard holds |
| MainKey.KeyCurrentThroughout | handler/passwordReset.go:489-561 | over every run the main key opens under the current password throughout iff no step loses it |
| MainKey.LoginThenOtp | handler/login.go:98-113 | in every reachable state with status on, login with the current password and an accepted OTP yield a verified token iff the main key is current; otherwise any OTP gets 500 |
| MainKey.PasswordWrapping | handler/passwordReset.go:489-561 | in particular when passwords change only without a memory entry and with both writes or none |
| MainKey.ChangeDuringLogin | handler/twoFA.go:486-613 | after a password change during a login, an OTP leaves the secret openable iff memory held no secret or the password is the same |
| MainKey.RecoverDuringLogin | handler/passwordReset.go:196-375 | the same after a recovery during a login |
| Lockouts.ChangeBeforeActivation | handler/twoFA.go:309-310 | from the initial state: set-up, password change and activation end in a lockout |
| Lockouts.HalfSavedChange | handler/passwordReset.go:540-561 | a change whose password is refused after the key was written ends in a lockout |
| Lockouts.LostCommit | handler/passwordReset.go:540-561 | so does one whose key is lost before the password is saved |
| Lockouts.ChangeWhileLoggingIn | handler/twoFA.go:543-613 | and, with all writes successful, a rejected OTP, a change and an accepted OTP |
| Lockouts.RejectedAfterChange | handler/twoFA.go:548-580 | or a rejected OTP, a change and another rejected OTP |
| Lockouts.HalfSavedRecovery | handler/passwordReset.go:349-375 | a recovery whose password is refused after the row was written locks out and leaves no key in hand that fits |
| Lockouts.LostRecovery | handler/passwordReset.go:349-375 | so does one whose row is lost before the password is saved |
| Lockouts.UnmandatedChange | handler/passwordReset.go:450-470 | where two-factor is not mandatory a plain change leaves the secret under the old password |
| TwoFactorRuns.PasswordChangeIsEarned | handler/passwordReset.go:436-448 | a password changes only given the old one or, with two-factor on, a fitting recovery key |
| TwoFactorRuns.SwitchIsEarned | handler/twoFA.go:673-735 | two-factor goes on only with an accepted OTP and off only with the password |
| VerifiedTokens.IssuedExactly | handler/twoFA.go:204-1038 | in every step a verified token is issued to a user iff the request carries an OTP accepted for that user's secret (enrolled, or set up and not yet on) or one of that user's backup codes, and is served; any other verified token renews one of the same user |
| VerifiedTokens.VerifiedTokensAreVouched | handler/twoFA.go:411-434 | every verified token of every run goes back, through refreshes for the same user, to a token that a step of the run issued, verified, to that user on such an OTP or backup code |
| TokenOrigins.TokensAreEarned | handler/login.go:20-178 | every step adds exactly the token it earns, by the current password, a refresh, an OTP or a backup code, and none otherwise |
| TokenOrigins.EveryTokenIsEarned | handler/login.go:20-178 | every token of every run, verified or not, goes back through refreshes with the same user and claim to a login or deactivation with the password of that moment, an accepted OTP or a backup code |
| BackupCodes.AcceptedCodeIsSpent | handler/twoFA.go:981-1009 | an accepted backup code removes one row of its user and none of anyone else, unless the deletion is lost, and then none |
| BackupCodes.AcceptedAgain | handler/twoFA.go:1000-1009 | it is accepted right again iff the deletion was lost or another row has its hash |
| CodeReuse.AcceptedTwice | handler/twoFA.go:1000-1009 | from the initial state: one stored code is accepted twice |
| BackupCodes.CodesAreConsumed | handler/twoFA.go:952-1009 | between two creations codes are accepted at most as often as they were stored, plus once for each lost deletion |
| BackupCodes.CreateStep | handler/twoFA.go:865-905 | after a creation the user has the new codes, if these were written, and the old ones if their deletion was not |
| BackupCodes.TenCodes | handler/twoFA.go:835-905 | ten codes give at most ten acceptances, and distinct ones at most one each, plus what lost deletions leave |
| KeyOrder.PrefixContiguous | badger/badger.go:229-229 | the keys with one prefix are contiguous in iteration order |
| KeyOrder.Least | badger/badger.go:226-229 | the least key of a set is found |
| KeyOrder.SortedIsOrder | badger/badger.go:226-229 | the order of iteration has every key once, strictly increasing |
| ConfigHistory.KeyInjective | badger/badger.go:166-166 | a primary key determines type and id |
| ConfigHistory.IspKeyParts | badger/badger.go:215-215 | among ISP ids without a colon, an index prefix is a prefix of keys of the same ISP and type only |
| ConfigHistory.AreasApart | badger/badger.go:166-285 | no key is both a record's, an index entry's or a session value's, colons or not |
| ConfigStore.Store.SaveConfig | badger/badger.go:160-186 | afterwards the store is what the history extended by this save says, whichever of the two writes failed, and the answer says whether both succeeded |
| ConfigStore.Store.DeleteConfig | badger/badger.go:268-281 | afterwards every record, index entry and session value is still what was last written, except that this record is gone; a failed delete keeps it |
| ConfigStore.Store.SaveSessionValue | badger/badger.go:284-290 | the value, with the second it expires in, is what the history says from now on, and no record or index entry is affected |
| ConfigStore.Store.DeleteSessionValue | badger/badger.go:316-321 | the value is no longer found, and no record or index entry is affected |
| ConfigStore.Store.GetSessionValue | badger/badger.go:293-313 | the session value last saved and not deleted since, unless it has expired |
| ConfigHistory.SessionLasts | badger/badger.go:284-313 | in every run a value that is not touched again is found exactly until the second its time to live ends in |
| ConfigStore.Store.GetConfig | badger/badger.go:189-211 | the record last saved and not deleted since, if any |
| ConfigStore.Store.Following | badger/badger.go:229-229 | the cursor moves to the least key at or after a position |
| ConfigStore.Store.ListConfigsByISP | badger/badger.go:214-265 | for any ISP id and after any run, appends the records that the index entries under the prefix lead to, in key order; that is the filter in id order iff they lead to records of the ISP only, to all, and in their order, and without foreign entries iff no record moved away and none lacks its entry |
| ConfigHistory.RunDescribed | badger/badger.go:160-321 | after every run, faults and colons included, the store holds exactly the records last saved, the last reference under every index key, and the session values |
| LastWrites.RecordIsLastSaved | badger/badger.go:160-281 | in every run a record is there iff a save of it was followed by no save or deletion, and it is that one |
| LastWrites.EntryIsLastWritten | badger/badger.go:176-183 | an index entry is there iff a save wrote it, deletions notwithstanding, with the id of the last |
| LastWrites.SessionIsLastSaved | badger/badger.go:284-321 | a session value is there iff a save of it was followed by no save or deletion, and it is that one |
| Listings.ListingExactly | badger/badger.go:214-281 | over every run, whichever writes fail and with any colons: the listing is the filter in id order iff the entries under the prefix lead to records of the ISP only, to all of them, and in their order |
| Listings.ListingAsBag | badger/badger.go:214-281 | it holds the same records as often as the filter iff the entries lead to records of the ISP only, to all of them, and to none twice |
| Listings.IndexAgreesWithFilter | badger/badger.go:214-281 | where no other ISP's entries share the prefix: the listing is the filter iff no stored record has moved away from the ISP and none that carries it was saved without its index entry |
| Listings.ColonFreeMeansNoForeign | badger/badger.go:215-215 | without colons in ISP ids no entries share a prefix |
| Listings.ColonLeadsAstray | badger/badger.go:214-265 | with one, the listing of an ISP shows another's record |
| Listings.FixedOwnersAgree | badger/badger.go:176-183 | in particular when writes succeed and every type and id always carries one ISP without a colon |
| Listings.MovedRecordStaysListed | badger/badger.go:278-280 | a record saved under a second ISP is all that is listed under the first, where the filter is empty |
| Listings.UnindexedIsNotListed | badger/badger.go:176-183 | a record whose second write failed is missing from the listing, and the filter shows it |
| DeviceManager.NewDevicePool | mikrotik/manager.go:125-146 | all connections are dialled and idle, or every one that was dialled is closed again |
| DeviceManager.DevicePool.GetClient | mikrotik/manager.go:149-162 | in every machine that shows this pool, a step of the waiting thread: the first idle client or, after the timeout, a new connection or none |
| DeviceManager.DevicePool.ReturnClient | mikrotik/manager.go:165-177 | in every machine that shows this pool, the last step of the holding thread: back into the channel or, if that is full, closed |
| DeviceManager.DevicePool.Close | mikrotik/manager.go:211-220 | as many rounds as the channel has places close every idle client: for every Close in every machine that shows this pool, its rounds with no call in between |
| ConnectionPool.ConnectionsConserved | mikrotik/manager.go:36-220 | over every interleaving of commands and calls on any pools, each dialled connection is in one channel, held by one call, or closed, and nowhere else |
| ConnectionPool.ConnectionsCounted | mikrotik/manager.go:148-185 | open connections are at most all capacities plus the calls in flight; a pool never closed has its full number idle when no call holds a client of it |
| PoolCalls.IdleClientServes | mikrotik/manager.go:149-185 | an undisturbed call holds the client that waited longest and puts it at the end of the channel |
| PoolCalls.NewConnectionServes | mikrotik/manager.go:153-177 | one that waited in vain holds a new connection, which stays if there is room and is closed if not |
| PoolCalls.NoConnectionServes | mikrotik/manager.go:153-162 | without an answer nothing changes |
| PoolCalls.AddedPool | mikrotik/manager.go:36-55 | a device is registered with a full pool of the size asked for, or of five |
| PoolCalls.RemovedPool | mikrotik/manager.go:99-112 | removing closes exactly the idle clients of that pool |
| PoolLeaks.CloseIsComplete | mikrotik/manager.go:115-122 | after any interleaving Close closes everything ever dialled iff no call holds a client and no dropped pool has an idle one |
| PoolLeaks.StrayByHistory | mikrotik/manager.go:36-220 | after any interleaving the idle clients of dropped pools are those that were replaced or dropped with their pool or returned to it later, and not taken or closed since |
| PoolLeaks.CloseIsCompleteByHistory | mikrotik/manager.go:36-220 | so Close is complete iff no call holds a client and the history leaves none of these |
| ClosingRounds.RoundsEmpty | mikrotik/manager.go:211-220 | the rounds of a Close with no call in between empty the channel |
| ClosingRounds.UndisturbedRemove | mikrotik/manager.go:99-112 | Remove in one step is what its rounds and the unregistering come to when undisturbed |
| ClosingRounds.CloseSweeps | mikrotik/manager.go:149-220 | whatever comes between and after the rounds of a Close, once it has ended every idle client of the pool was returned to it since the Close began |
| PoolLeaks.OpenForGood | mikrotik/manager.go:50-112 | the clients of a dropped pool without calls are never closed, whatever follows |
| PoolLeaks.ReplacedPoolLeaks | mikrotik/manager.go:50-52 | a device added twice leaves the first connection open after Close |
| PoolLeaks.LateReturnLeaks | mikrotik/manager.go:99-177 | a client returned after its device was removed stays open in the dropped channel |
| DeviceManager.Manager.AddDevice | mikrotik/manager.go:36-55 | a pool of the given or default size is registered, or the dials made are undone |
| DeviceManager.Manager.RemoveDevice | mikrotik/manager.go:99-112 | the idle clients of the device's pool are closed, it is unregistered, and no other pool changes |
| DeviceManager.Manager.CloseAllDevices | mikrotik/manager.go:115-122 | all idle connections of all registered pools are closed, in any order |
| PoolLeaks.ManagerCloseIsComplete | mikrotik/manager.go:50-122 | when commands come at rest, with any calls in between, Close closes everything ever dialled iff no pool with idle clients was replaced under its id or dropped unclosed |
| TokenBlacklist.Service.Logout | handler/logout.go:18-80 | SET and EXPIREAT for both tokens, each of which may fail and ends the handler |
| TokenBlacklist.LogoutIsFinal | service/security.go:20-83 | in every run, after a successful logout an access or refresh token passes later iff it is before exp and not before nbf, in seconds, and JWT, Redis or invalidation is off |
| TokenBlacklist.OthersAreUnaffected | service/security.go:43-56 | a token that no logout names passes iff it is within exp and nbf and the list, if consulted, answers |
| TokenBlacklist.LogoutAnswer | handler/logout.go:18-80 | 200 iff no command fails that is come to; no other key changes |
| TokenBlacklist.HalfLogout | handler/logout.go:36-56 | a failed SET lists nothing, a failed EXPIREAT lists for good |
| TokenBlacklist.ListForgets | handler/logout.go:36-80 | an identifier is listed exactly as long as its token lives |
| EmailChange.Service.CreateUserAuth | handler/auth.go:28-167 | the whole new state in both storage modes and for every failure, with the row refused or lost |
| EmailChange.Service.UpdateEmail | handler/auth.go:188-392 | the change is refused, made at once or written to the one pending row; a failed lookup by digest counts as a free address |
| EmailChange.Service.VerifyUpdatedEmail | handler/verification.go:212-397 | the pending address becomes the account's if nobody uses it; code and pending row go, each write refused or lost |
| EmailAnswers.RegistrationAnswer | handler/auth.go:28-167 | for any table: 201 iff the address is valid, in no account seen, in plain text or as digest, no digest is there in plain-text mode, and nothing fails; the row written, or nothing |
| EmailAnswers.RequestAnswer | handler/auth.go:188-392 | for any table: 200 iff the password is right, the address is valid, not found and not pending, and neither mail nor write is refused; 401, 400 and 500 exactly otherwise |
| EmailAnswers.RequestWrites | handler/auth.go:296-389 | no change before the mail, so none with a wrong password; then the code, and the account at once or the user's one pending row, as mail and write go |
| EmailAnswers.CodeAnswer | handler/verification.go:212-309 | an unknown code changes nothing; any other is deleted |
| EmailAnswers.VerificationAnswer | handler/verification.go:310-397 | 200 iff nobody uses the address of the first row asked for and its account exists; row and account as the writes go |
| EmailChange.UniqueIffNeverOverlooks | handler/auth.go:43-118 | over every interleaving of registration, request and verification, whatever fails, addresses and digests stay unique throughout iff no call overlooked the holder of the address it gave away |
| EmailChange.ChangeOverHeldAddress | service/auth.go:25-53 | a request keeps addresses unique iff it is not an immediate change, after a failed lookup by digest, to an address someone else holds |
| EmailChange.OneAccountPerAddress | handler/auth.go:43-118 | in particular without authIDs and with lookups by digest that answer or changes that are verified; also one pending change per account |
| AddressMixups.FailedDigestLookup | service/auth.go:32-53 | two registrations and one such change end with one digest in two accounts |
| EmailChange.FreeAddressIsRegistered | handler/auth.go:43-167 | an ordinary registration succeeds iff nobody holds the address, and the new account then holds it |
| EmailChange.ImmediateChange | handler/auth.go:205-389 | a change without verification is made iff the address is free and not already pending, and to that account only |
| EmailChange.RegistrationWithId | handler/auth.go:43-59 | a registration keeps addresses unique iff it is not written with an authID other than that of the account that holds the address |
| AddressMixups.RegisteredTwice | handler/auth.go:43-59 | a second registration with the authID 9 puts the address into a second account |
| EmailChange.CodeServesFirstRequest | handler/verification.go:270-309 | the requester gets the address iff no earlier pending row asks for it |
| AddressMixups.BobVerifiesForAnn | handler/verification.go:270-309 | two users ask for one address, and the code mailed to the second gives it to the first |
| Texts.RemovingSpaces | lib/removeAllSpace.go:11-13 | a text with blanks put in anywhere reduces to the text, and only such texts do |
| TemplateModel.StrArrHTMLModel | lib/htmlEmailModel.go:12-30 | the pairs of the segments with one colon, trimmed; even length, no separator left |
| TemplateModel.TrimFirst | lib/htmlEmailModel.go:18-26 | trimming the whole segment first changes nothing |
| TemplateModel.HTMLModel | lib/htmlEmailModel.go:34-44 | the loop builds the map of the listed pairs |
| TemplateModel.LastValueWins | lib/htmlEmailModel.go:39-41 | the keys are those listed, and each has the value of its last occurrence |
| TemplateModel.WrittenPairsAreReadBack | lib/htmlEmailModel.go:12-30 | any list of clean pairs written with any blanks is read back |

## Left out

- Cryptography: hashes are injective, a sealed value opens under its key only, and comparing a password with its hash is equality; JWT signatures always hold for issued tokens.
- The TOTP library: a secret is a seed with counters, and whether an OTP is accepted is a parameter; QR images and their files are not modelled.
- Calendar formats and time zones: a stored expiry is a number of seconds.
- SQL collation, isolation between concurrent transactions and row ids: a handler is one step, and strings are compared exactly.
- The reply-attribute and group operations on a single row (server/handler/hotspot_user.go:577-728) and GetHotspotUser: the same shape as the check-attribute operations, or a plain read.
- Subscriptions.ManageHotspotUser: an empty SELECT gives an empty, non-nil slice, so the 404 for home users arises from a failed read only.
- The manager's lock and the dials of AddDevice: each command but Close is one step; rounds of Close may come between any other steps, which is more than the lock allows.
- Expired session values: the store keeps them until it is compacted, and so does the model; no read finds them.
- Lengths: passwords, OTPs and recovery keys are counted in characters, where Go counts bytes.
- TwoFactor.Service.Login: which account an e-mail address belongs to, and the secret code of PasswordRecover in Redis, are parameters.
- TwoFactor.Service.CreateBackup2FA: the random generation of the codes is a parameter.
- Settlement.Shop.MpesaStkHandlerCallback: parsing of the callback, the router login command, websocket messages and the HTTP answer are not modelled.
- The verification of a new account's address, resending of codes, HTTP controllers, cookies, rate limits, configuration loading, device, order and payment CRUD, and the WebSocket hub.
