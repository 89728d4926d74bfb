# Lending dashboard: read aggregation and view selection

This project is a Dafny model of the logic inside the loaders of a browser
dashboard for an external lending contract. They reconstruct the queue of
pending loan requests, build the system-wide loan ledger, do the collateral
arithmetic in wei, run a few small classifiers (score bands, colours, error
messages, history icons, the administrator check) and choose which tabs the
page shows.

The repository carries three divergent copies of this logic, and each is
modelled as written:
- app.js is the controller. Its users come from `getAllUsers` and its debt from `calculateTotalDebt`. It has six score bands. The administrator hides every user tab.
- web3-utils.js is the wallet layer. Its borrowers come from `LoanRequested` events. It sums the debt itself, counts late payments and parses error messages. It has five score bands. Approval sends the requested amount.
- frontend/web3-utils.js is an earlier copy of the wallet layer. It tests a 0.01 ETH staking bonus, has no registry button and no late-payment count, and approval sends no value.

Contract reads become inputs:
- A per-address read is a function `Address -> Option<seq<T>>`, where `None` is a call that threw.
- A single read is an `Option` value.
- `ethers.isAddress` is an uninterpreted predicate of the session.
- Amounts are exact integers in wei.

The page is modelled as a value:
- the display of each tab button that exists;
- the set of tab contents that exist;
- the active content and the active button;
- the score card.

The `loadUserData` refresh is a function of the reads' results. It returns the new page and the trace of reads it issued, so that properties such as "an unregistered user's refresh reads nothing after the registration check" can be stated.

Modules:
- Chain: the contract's record types.
- Reads: the read trace.
- Text: JavaScript `toLowerCase`, `includes` and `substring`.
- Rules: first-match chains, threshold bands and ranks.
- Identity: `isAdmin` and `formatAddress`.
- Aggregate: the pending filter, owner tagging, `[...new Set]`, and the stable descending sort used for `Array.prototype.sort`.
- Dom: the page and `switchTab`.
- Scoring: the registry colour.
- Views: the tab layouts shared by the two wallet files.
- Wallet: the session class over the module globals.
- Scan: the event-driven administrator loaders, which are the same in the two wallet files.
- App, Web3Utils and FrontendUtils: one module per source file.

The loader loops are methods whose loop invariants tie them to the reference functions in Aggregate and Scan. The wallet globals are fields of the class `Wallet.Session`, and the operations that change them are its methods.

Two behaviours of the code differ from what the dashboard's documentation describes. The model follows the code:
- The ledger's "Remaining" figure is `totalAmountToRepay - repaidAmount` with no clamp at zero, so an over-repaid loan shows a negative remainder (`App.RemainingCanBeNegative`).
- The code tests `loan.isLate`, but the contract's loan tuple has no such field, so on decoded loans the LATE status cannot occur. The model keeps the field so that the code's branch is represented.

## Model

| member | source | states |
|---|---|---|
| Text.Lower | web3-utils.js:161 | `toLowerCase` on ASCII: same length, each letter folded, other characters kept |
| Text.LowerIgnoresCase | web3-utils.js:161 | lowering is idempotent and erases an earlier upper-casing |
| Text.ContainsAt | app.js:1111 | `includes` holds exactly when the needle occurs at some offset |
| Text.ContainsInfix | app.js:1111 | a string contains any needle placed inside it |
| Text.Substring | web3-utils.js:888 | `substring` never returns more than the string, and within bounds it is the slice between the two indices |
| Text.SubstringSwap | web3-utils.js:888 | the two indices may come in either order |
| Text.SubstringClampsIndices | web3-utils.js:888 | an index below 0 or past the end acts as the nearest end |
| Text.SubstringWhole | web3-utils.js:888 | from 0 to the length is the whole string |
| Text.SubstringPastEnd | web3-utils.js:888 | starting at or past the end (as `substring(38)` on a short address) gives the empty string |
| Text.SubstringSplit | web3-utils.js:888 | the piece before an index and the piece from it join back into the string |
| Rules.FirstMatchEarliest | web3-utils.js:44-72 | an if-chain returns the result of the earliest rule that fires |
| Rules.FirstMatchFallback | web3-utils.js:71 | an if-chain in which no rule fires returns the fallback |
| Rules.Band | app.js:1227-1234 | the band of a score is the number of thresholds it reaches |
| Rules.BandMonotone | app.js:1227-1234 | a higher score never falls in a lower band |
| Rules.BandExact | app.js:1227-1234 | a score is in band k exactly when it reaches threshold k-1 and not threshold k |
| Rules.RankOfDistinct | app.js:1227-1234 | in a table without repeats, the rank of its k-th entry is k |
| Identity.IsAdmin | web3-utils.js:160-162 | the administrator is never a missing or empty address; a match needs equal lengths (the same code is in frontend/web3-utils.js) |
| Identity.IsAdminCaseInsensitive | web3-utils.js:160-162 | re-casing the user's or the administrator's address does not change the answer |
| Identity.AdminRecognised | frontend/web3-utils.js:122-124 | the configured address, in any case, is recognised as administrator |
| Identity.DisconnectedIsNotAdmin | frontend/web3-utils.js:122-124 | no connected address, or an empty one, is never administrator |
| Identity.FormatAddress | web3-utils.js:887-889 | a 42-character address becomes its first 6 and last 4 characters around "..."; shorter inputs keep their prefix (the same code is in app.js and frontend/web3-utils.js) |
| Identity.FormatAddressCollides | app.js:833-835 | two addresses sharing the first 6 and last 4 characters are displayed alike |
| Aggregate.PendingIn | app.js:693-720 | every kept entry is an active, unapproved request of that owner at its recorded index |
| Aggregate.PendingInComplete | app.js:707 | every active, unapproved request of the owner is kept, with its index |
| Aggregate.PendingInOrdered | app.js:693 | the kept entries of one owner are in ascending index order |
| Aggregate.CollectPending | app.js:693-721 | the inner loop keeps exactly the pending requests of one user, each with its index, in index order |
| Aggregate.PendingOfExact | app.js:688-725 | an entry is in the queue exactly when its owner is a listed user whose fetch succeeded and the entry is a pending request at that index |
| Aggregate.PendingOfMembers | app.js:722-724 | the queue holds exactly the pending requests of users whose fetch succeeded; a failed fetch contributes nothing |
| Aggregate.PendingOfAppend | app.js:688 | the queue over two user lists is the first list's queue followed by the second's: users in listed order |
| Aggregate.Tag | app.js:898-902 | each loan is kept, in order, annotated with the address it was fetched for |
| Aggregate.TagEach | app.js:898-903 | the inner loop pushes every loan of one user, in order, with that user as owner |
| Aggregate.FlattenExact | app.js:895-907 | an annotated loan is in the flattened list exactly when its owner is listed and the loan is in that owner's fetched array |
| Aggregate.Dedup | web3-utils.js:402 | `[...new Set]` has no duplicates and holds exactly the input's elements |
| Aggregate.DedupFirstOccurrenceOrder | web3-utils.js:795 | the de-duplicated list keeps first-occurrence order |
| Aggregate.DedupDistinct | frontend/web3-utils.js:322 | a list without repeats is left unchanged |
| Aggregate.SortDesc | app.js:915 | sorting is a permutation of its input |
| Aggregate.SortDescSorted | app.js:915 | the sorted list is non-increasing in the key |
| Dom.SetDisplay | web3-utils.js:186-189 | the named buttons that exist get the display, every other button keeps its own |
| Dom.SwitchTab | web3-utils.js:965-972 | after `switchTab(t)` the only active content and button are those named t, if they exist |
| Dom.SwitchTabLastWins | frontend/web3-utils.js:785-792 | a second switch undoes the first |
| Dom.SetDisplayIdempotent | web3-utils.js:186-189 | applying the same display twice is applying it once |
| Scoring.ScoreColor | app.js:618-621 | red below 550, orange below 650, yellow below 700, green from 700 (the same code is in both wallet files) |
| Scoring.ScoreColorMonotone | web3-utils.js:678-681 | a higher score never gets a worse colour |
| Views.ResetTabs | web3-utils.js:183-204 | every user tab shown, admin hidden, registry untouched, dashboard active |
| Views.ResetTabsIdempotent | frontend/web3-utils.js:145-166 | resetting twice is resetting once |
| Views.ClearAllData | web3-utils.js:206-213 | the score card shows "-" and "Connect wallet" |
| Views.ClearAllDataCommutes | web3-utils.js:152-158 | clearing the data and resetting the tabs touch disjoint parts of the page |
| Views.AdminLayout | web3-utils.js:224-249 | admin shown, registry shown where the file does so, dashboard, request, register and collateral hidden, history and loans untouched, admin active |
| Views.UserLayout | web3-utils.js:261-277 | admin hidden; dashboard, loan request and collateral shown; activity untouched |
| Views.UnregisteredLayout | web3-utils.js:373-377 | register shown, score "-", "Register first" |
| Views.RegisteredLayout | frontend/web3-utils.js:243-249 | register hidden; a user on the register tab is moved to the dashboard |
| Views.RegistryNeverHiddenAgain | web3-utils.js:183-204 | once shown, no reset or user layout hides the registry button again |
| Wallet.Session.constructor | web3-utils.js:2-6 | no user, no signer and no contract handle at load; the configured contract address |
| Wallet.Session.Connect | web3-utils.js:136-143 | the account becomes the user with a signer; a handle is built only for a non-empty valid contract address; the tab bar is then what the status update leaves: reset for an empty account, otherwise the administrator's or the user's layout when a handle exists |
| Wallet.Session.SetContractAddress | web3-utils.js:75-87 | answers true exactly for a valid address; an invalid one changes nothing; a valid one is stored and re-targets the handle when a signer exists |
| Wallet.Session.Disconnect | web3-utils.js:152-158 | user and signer dropped, tabs reset and data cleared, contract handle kept (the same code is in frontend/web3-utils.js) |
| Scan.Project | web3-utils.js:413-423 | each system loan carries the event-derived borrower, not the loan's own borrower field |
| Scan.CollectLoans | web3-utils.js:411-424 | the inner loop rebuilds every loan of one borrower, in order, with the event-derived borrower |
| Scan.SystemLoansExact | frontend/web3-utils.js:324-348 | every loan of every event borrower whose fetch succeeded is in the system ledger |
| Scan.SystemLoansSound | web3-utils.js:404-428 | every ledger entry is a loan of an event borrower whose fetch succeeded |
| Scan.PendingOfEvents | web3-utils.js:795-813 | the queue over de-duplicated events holds exactly the pending requests of event borrowers |
| Scan.LedgerStatus | web3-utils.js:440-449 | "Closed (Repaid)" iff repaid, else "Defaulted" iff defaulted, else "Active" |
| Scan.LoadAllSystemLoans | web3-utils.js:385-431 | no container: untouched; failed query: error; no events: empty message; else the ledger sorted by descending id, a permutation of all event borrowers' loans (the same code is in frontend/web3-utils.js) |
| Scan.LoadAdminRequests | web3-utils.js:784-819 | no container or contract: untouched; failed query: error; else exactly the pending requests of event borrowers, or the empty message (the same code is in frontend/web3-utils.js) |
| App.ScoreDescription | app.js:1227-1234 | six descriptions at 550/600/650/700/750 |
| App.ScoreDescriptionMonotone | app.js:1227-1234 | a higher score never gets a worse description |
| App.ScoreDescriptionBands | app.js:1227-1234 | each description is given to exactly the scores of its band |
| App.ScoreColorFollowsDescription | app.js:618-621 | two scores with the same description have the same registry colour |
| App.HistoryStyle | app.js:1108-1126 | a type containing "Loan" always gets the loan icon, and the note icon is given exactly when none of the five keywords occurs |
| App.HistoryStyleByRules | app.js:1108-1126 | the icon is the first of Loan, Repayment, Default, Late, Stake that the type contains, else the note |
| App.HistoryStyleLoanFirst | app.js:1111-1113 | any type containing "Loan" gets the loan icon, whatever else it contains |
| App.HistoryStyleOther | app.js:1108-1109 | a type containing none of the five words gets the note icon |
| App.LoanStatus | app.js:931-943 | repaid, else defaulted, else late, else active, each as an if-and-only-if |
| App.StatusColor | app.js:931-943 | each status badge gets a CSS hex colour |
| App.StatusColorIdentifiesStatus | app.js:931-943 | two rows share a colour exactly when they share a status, and green marks exactly the repaid loans |
| App.Remaining | app.js:923 | the remainder plus the repaid amount is the total to repay |
| App.ShowsRemaining | app.js:984 | the remainder is shown exactly for late and active loans |
| App.RemainingCanBeNegative | app.js:923 | an over-repaid loan has a negative remainder |
| App.LoadAllSystemLoans | app.js:881-915 | no container: untouched; no contract or failed user list: error; else every user's loans, owner-tagged, as a permutation sorted by descending id |
| App.LoadAdminRequests | app.js:666-732 | no container: untouched; no contract: "not initialized"; failed user list: error; else exactly the pending requests of users whose fetch succeeded, in user then index order |
| App.ApproveRequest | app.js:795-801 | only the administrator with a contract sends the approval, funded with the given amount |
| App.ApproveTargetsListedRequest | app.js:717-718 | approving a queue entry addresses a pending request at that owner's index and funds its amount |
| App.AvailableToUnstake | app.js:854 | the stake above the debt when it covers it, else 0; never more than the stake |
| App.StakingData | app.js:838-877 | no user, contract or panel: unchanged; a failed read: error; shown exactly when both reads succeed, with the stake, the contract's debt and `AvailableToUnstake` of the two |
| App.AdminLayout | app.js:450-470 | every user tab hidden, admin and registry restored, admin active only if both its button and content exist |
| App.UnregisteredLayout | app.js:476-490 | register shown and active, "Please register to view your credit score" |
| App.RegisteredLayout | app.js:493-507 | register hidden; the dashboard made active only when leaving the register tab and both its parts exist |
| App.LoadUserData | app.js:438-568 | no wallet or contract: nothing; the score is read only for a registered non-administrator; each read only after every earlier one succeeded |
| App.AdminViewLocksUserTabs | app.js:443-470 | the administrator loads the admin panels, reads nothing of its own and sees no user tab |
| App.UserViewChecksRegistrationFirst | app.js:471-474 | anyone else's refresh starts with the registration check and never loads the admin panels |
| App.UnregisteredReadsOnlyRegistration | app.js:476-491 | an unregistered user's refresh stops after the registration check, on the register tab |
| App.RegisteredLeavesRegisterTab | app.js:493-507 | a registered user never keeps the register button or tab |
| App.ShownScoreWasRead | app.js:509-513 | a changed score card shows the score that was read, with its description |
| App.RegisteredUserSeesScore | app.js:493-559 | a registered non-administrator always has the score read; once it is read it is shown with its description, and the profile, history and staking reads follow until the first failure |
| App.RegistrationFailureStops | app.js:473-567 | a registration check that throws ends the refresh with the page untouched |
| Web3Utils.ParseErrorMessage | web3-utils.js:44-72 | never empty; the revert reason verbatim when present, else one of the five fixed messages |
| Web3Utils.ParseErrorMessageByRules | web3-utils.js:44-72 | the priority order: reason, rejection, insufficient funds, revert, gas estimate, fallback |
| Web3Utils.InsufficientFundsIgnoresCase | web3-utils.js:56 | "insufficient funds" is matched in any case |
| Web3Utils.RejectionReported | web3-utils.js:46-53 | a rejection is reported unless a revert reason takes precedence |
| Web3Utils.ScoreDescription | web3-utils.js:510-516 | five descriptions at 550/650/700/750 |
| Web3Utils.ScoreDescriptionMonotone | web3-utils.js:510-516 | a higher score never gets a worse description |
| Web3Utils.ScoreDescriptionBands | web3-utils.js:510-516 | each description is given to exactly the scores of its band |
| Web3Utils.ScoreColorFollowsDescription | web3-utils.js:678-681 | two scores with the same description have the same registry colour |
| Web3Utils.LatePaymentCount | web3-utils.js:337-339 | never more than the history's length |
| Web3Utils.LatePaymentCountIsMultiplicity | web3-utils.js:337-339 | the count is the number of entries whose type is exactly "Late Payment", whatever their order |
| Web3Utils.LatePaymentCountAppend | web3-utils.js:337-339 | the count is additive over concatenated histories |
| Web3Utils.OutstandingMatchesLedger | web3-utils.js:907-910 | a loan's debt is 0 when repaid, else its remainder; defaulted loans count; it is the ledger's remainder on shown loans |
| Web3Utils.DebtOfPermutation | web3-utils.js:905-912 | the debt does not depend on the order of the loans |
| Web3Utils.DebtOfNonnegative | web3-utils.js:905-912 | with no loan over-repaid, the debt is never negative |
| Web3Utils.Available | web3-utils.js:917-920 | the stake above the debt when strictly greater, else 0 |
| Web3Utils.AvailableAgreesWithApp | web3-utils.js:917-920 | for a debt that is not negative this equals the controller's `>=` version |
| Web3Utils.OverRepaymentInflatesAvailable | web3-utils.js:908-920 | an over-repaid open loan makes the available amount exceed the stake |
| Web3Utils.DebtOf | web3-utils.js:905-912 | the debt summed over the loans not yet repaid; a list of repaid loans owes nothing (its order does not matter: `Web3Utils.DebtOfPermutation`) |
| Web3Utils.StakingMessage | web3-utils.js:940-942 | the locked note exactly while the debt is positive, otherwise the "no active debt" note |
| Web3Utils.FreeMessageMeansWholeStake | web3-utils.js:940-942 | with no over-repaid loan, "no active debt" shows exactly when the debt is 0, and then the whole stake is available |
| Web3Utils.LoadStakingData | web3-utils.js:892-953 | no user, contract or panel: unchanged; a failed read: error; drawn exactly when both reads succeed, with the stake, the loop's debt sum, the available amount and the message |
| Web3Utils.ApproveRequest | web3-utils.js:849-855 | only a confirmed approval by the administrator with a contract is sent, funded with the amount in wei |
| Web3Utils.ApproveFundsListedRequest | web3-utils.js:802-807 | approving a scanned queue entry with its amount funds the pending request at that index of an event borrower |
| Web3Utils.Refresh | web3-utils.js:216-382 | no wallet or contract: nothing; the score is read only for a registered non-administrator; history only after the profile reads; a drawn profile carries the late count |
| Web3Utils.AdminViewKeepsHistoryAndLoans | web3-utils.js:221-258 | the administrator sees admin and registry, loses four user tabs, keeps history and loans, lands on admin |
| Web3Utils.UnregisteredReadsOnlyRegistration | web3-utils.js:373-377 | an unregistered user's refresh stops after the check, with register shown and "Register first" |
| Web3Utils.RegisteredLeavesRegisterTab | web3-utils.js:284-290 | a registered user loses the register button and leaves its tab |
| Web3Utils.RegisteredUserSeesProfile | web3-utils.js:293-371 | a registered user whose score is read sees it with its description; with the profile reads successful, the history and staking reads follow and the profile shows the history's late-payment count |
| Web3Utils.HistoryFailureContained | web3-utils.js:354-371 | a failed history read still draws the profile with 0 late payments and loads staking |
| Web3Utils.LoadUserData | web3-utils.js:216-382 | the session's page and profile become the refresh's; the wallet state is unchanged |
| Web3Utils.RefreshAfterDisconnectIsInert | web3-utils.js:217 | with no user the refresh changes nothing and reads nothing |
| FrontendUtils.ScoreDescription | frontend/web3-utils.js:430-436 | five descriptions at 550/650/700/750, the last with its garbled check mark |
| FrontendUtils.ScoreDescriptionMonotone | frontend/web3-utils.js:430-436 | a higher score never gets a worse description |
| FrontendUtils.ScoreDescriptionBands | frontend/web3-utils.js:430-436 | each description is given to exactly the scores of its band |
| FrontendUtils.ScoreColorFollowsDescription | frontend/web3-utils.js:574-577 | two scores with the same description have the same registry colour |
| FrontendUtils.BonusLine | frontend/web3-utils.js:763-765 | the bonus line shows exactly when the stake is at least 1/100 of 10^18 wei |
| FrontendUtils.BonusLineMonotone | frontend/web3-utils.js:763 | staking more never loses the bonus line |
| FrontendUtils.BonusThresholdExact | frontend/web3-utils.js:763 | 10^16 - 1 wei is refused and 10^16 wei earns the bonus |
| FrontendUtils.StakingData | frontend/web3-utils.js:748-773 | no user, contract or panel: unchanged; a failed read: error; drawn exactly when the stake is read, with its bonus line |
| FrontendUtils.ApproveRequest | frontend/web3-utils.js:726-731 | only a confirmed approval by the administrator with a contract is sent |
| FrontendUtils.ApproveNeverFunds | frontend/web3-utils.js:731 | the approval carries no value, whatever the request asks for |
| FrontendUtils.Refresh | frontend/web3-utils.js:178-302 | no wallet or contract: nothing; history and staking read together, only after all profile reads; a drawn profile has no late count |
| FrontendUtils.AdminViewLeavesRegistry | frontend/web3-utils.js:183-217 | the administrator sees admin, loses four user tabs and lands on admin; the registry button is not touched |
| FrontendUtils.UnregisteredReadsOnlyRegistration | frontend/web3-utils.js:293-297 | an unregistered user's refresh stops after the check, with register shown and "-" |
| FrontendUtils.RegisteredLeavesRegisterTab | frontend/web3-utils.js:243-249 | a registered user on the register tab is moved to the dashboard, and the register button is hidden |
| FrontendUtils.RegisteredUserReadsAll | frontend/web3-utils.js:252-291 | a registered user whose score is read sees it; a failed `getUserInfo` stops before the profile; with the info and detail reads successful, the profile is drawn and the history and staking reads follow |
| FrontendUtils.ProfileDrawnBeforeDetails | frontend/web3-utils.js:257-267 | the profile is drawn straight after `getUserInfo`, so a later failed read leaves it shown |
| FrontendUtils.LoadUserData | frontend/web3-utils.js:178-302 | the session's page and profile become the refresh's; the wallet state is unchanged |

## Left out

- Wallet connection, network switching and the account and chain listeners (`connectWallet`, `initWeb3`) are provider I/O. Only the state connecting leaves is modelled (`Wallet.Session.Connect`): the session fields and the tab bar set before the refresh's first contract read. The rest of that refresh is `Web3Utils.LoadUserData` / `FrontendUtils.LoadUserData`. The status line `updateWalletStatus` writes is not modelled.
- The contract calls, the event queries and `tx.wait` are given as input values or read functions. A thrown call is `None`. The model has no timing, concurrency or interleaving of the un-awaited loaders.
- `ethers.isAddress` is an uninterpreted predicate. `formatEther` and `parseEther` are not modelled; every amount stays an integer in wei.
- Not modelled: HTML building, the rendering of each row, the repayment-form card, the loans header title, the refresh button and the four "Connect wallet" placeholders of `clearAllData`. Only the score card and the tab bar are modelled.
- Alerts, prompts and `confirm` are not modelled; the answer to `confirm` is a parameter of the approval.
- `rejectRequest` is a prompt followed by a transaction, with no aggregation logic.
- The `getUserName` lookups in the app.js loaders are not modelled. The lookup catches its own errors and yields 'Unknown User', so it never aborts a rendering loop; only the shown name depends on it.
- The reads of a failed refresh are all-or-nothing per group. In the model, "profile" covers the basic, stats, breakdown and loan reads of web3-utils.js and app.js.
- App.LoadUserData, Web3Utils.Refresh: a `Number()` conversion of the score above 2^53 would lose precision. Scores are modelled as exact integers.
- The comparator `Number(b.loanId) - Number(a.loanId)` is modelled as an exact comparison of ids: rounding above 2^53 is not modelled. A stable sort is assumed, as the language guarantees.
- Text.Lower: only ASCII letters are folded. Non-ASCII case folding is not modelled; contract addresses are ASCII hex.
- Dates, `toLocaleString` and the progress percentages are floating-point or locale formatting.
- `showStatus` and console output are not modelled.
- Not modelled: `loadAdminDashboard`, `loadUserRegistry` (apart from its score colour), `loadAdminHistory`, `displayUserLoans`, `displayFinancialHistory` (apart from the app.js icon choice), `displayScoreBreakdown` and `displayUserProfile`. They are rendering or further reads with no aggregation logic. The trace records the first four only as "admin loaders".
- frontend/app.js holds only form handlers: DOM reads, number parsing and transaction submission. It is not part of this model.
- `getContractAddress` is a field read.
- `localStorage` is the `stored` field.
