# finpay wallet core, modelled in Dafny

finpay is a multi-currency wallet backend. This project models its core:

- **Ledger** (`TransactionService`). It posts single ledger entries and
  batches of entries. It answers the filtered, newest-first, paginated
  listing of a user's entries. It looks entries up by id, by reference and
  by batch id, and it computes the per-currency income / expenses / net
  summary over completed entries.
- **Wallet provisioning** (`WalletService`, `VirtualAccountService`,
  `UserService.createUser`). Sign-up checks that the email is free. It then
  runs one store transaction that creates the user, creates a wallet with a
  zero balance in each of NGN, USD, GBP and EUR, and obtains a virtual bank
  account for the NGN balance from an external provider. The provider call
  is bounded: up to three retries with 1 s, 2 s and 4 s backoff. Either all
  of those rows are kept or none is.
- **Read helpers**: `getUserWallet`, `getBalance`, `getBalances`,
  `getVirtualAccount`, `findByEmail`, `findById` and `updateRefreshToken`.

The store is an immutable value, `Store.Db`, holding one sequence of rows
per table. A create checks the unique and foreign-key constraints the
services rely on. A violation is a `Fault` and leaves the store unchanged.

`Store.RunTransaction` is the interactive store transaction:
- the body runs on a snapshot;
- its final store is kept if it succeeds;
- the original store is kept if it fails.

`Store.Valid` is the conjunction of all constraints. Every write preserves
it.

Service calls return a `Step`, which pairs the new store with a `Result`.
The error side mirrors the exceptions the services throw: BadRequest,
NotFound, Conflict and InternalServerError, or an untranslated store error.

The provider is an oracle: `oracle[k]` is what attempt `k` observes. It is
either a transport error (any HTTP error status, a network failure, or the
15 s timeout) or a delivered body. Waiting is not performed. The delays the
retry would wait are computed and returned.

The following are parameters:
- the clock (`Date.now()`);
- the `randomUUID()` draws;
- the row ids the store assigns;
- the password hash, which is an uninterpreted function `hash`.

Amounts are `real`, which is exact like the decimal type the services use.

Modules:
- `Wrappers`: Option and Result.
- `Sorting`: filter, stable sort by key, first-match search, unique keys.
- `Text`: JavaScript `trim` and decimal rendering.
- `Store`: the data model.
- `Ledger`: the transaction service.
- `LedgerSummary`: the summary.
- `VirtualAccounts`: the provider call.
- `Wallets`: the wallet service.
- `Users`: the user service.

## Behaviour the model keeps as written

Some of the services' behaviour departs from what a reader might expect. The
model keeps each of these as the code has it:
- **Retries.** The usual policy would retry only transient provider
  failures. The `retry` operator retries after every error, including 4xx
  statuses. A delivered body that fails validation is not retried, because
  validation runs after the retry pipe.
- **Provider errors.** Every failure of the provider step becomes one
  InternalServerError with one message. That includes storage errors while
  writing the account row, so transport, validation and storage failures
  cannot be told apart.
- **Batch lookup.** The lookups by id and by reference signal NotFound when
  nothing matches. The lookup by batch id returns an empty list instead.
- **Status of a single posting.** A single posting takes whatever status is
  given and is COMPLETED only when none is given, so FAILED is accepted too.
- **Status of a batch entry.** Batch entries are COMPLETED whatever status
  the entry carries.
- **Storage errors in the ledger.** `createTransaction` and
  `createBatchTransactions` pass store errors through untranslated.

## Model

| member | source | states |
|---|---|---|
| Ledger.EffectiveLimit | src/transaction/transaction.service.ts:59 | `limit \|\| 50`: a given non-zero limit is used as is, a missing or zero limit means 50, so a page is never empty by its limit |
| Ledger.GetUserTransactions | src/transaction/transaction.service.ts:39-62 | the listing holds at most `limit \|\| 50` entries, newest first, and no entry more often than it matches; Ledger.ListingIsSortedSelection and Ledger.FirstPageIsComplete state which entries |
| Ledger.Page | src/transaction/transaction.service.ts:59-60 | the `skip`/`take` window: it holds min(limit, stored - offset) entries, each the entry at the same position after the skipped ones |
| Ledger.PageOfSorted | src/transaction/transaction.service.ts:56-61 | a page of an ordering is still ordered and holds nothing the ordering does not |
| Ledger.ListingIsSortedSelection | src/transaction/transaction.service.ts:42-61 | the listing holds only the user's stored entries that pass every supplied filter (type, currency, status, start and end of the date range). It is newest first, has exactly min(limit or 50, matches - offset) entries, and repeats no entry more often than the store holds it |
| Ledger.FirstPageStartsWithNewest | src/transaction/transaction.service.ts:56-61 | with no offset and at least one match, the listing is non-empty and no matching entry is newer than its first entry |
| Ledger.FirstPageIsComplete | src/transaction/transaction.service.ts:56-61 | with no offset and a limit that covers every match, the listing holds every matching entry exactly as often as the store does |
| Ledger.ListingWithPaging | src/transaction/transaction.service.ts:56-61 | a non-zero limit and an offset select exactly that window of the model's newest-first ordering of the matches (ties between equal instants are ordered as the store holds them) |
| Ledger.PagesConcatenate | src/transaction/transaction.service.ts:59-60 | consecutive pages of one fixed ordering tile it, so paging neither skips nor repeats an entry as long as every page sees the same order |
| Ledger.MatchingIgnoresPaging | src/transaction/transaction.service.ts:42-55 | which entries match does not depend on limit and offset |
| Ledger.GetTransactionById | src/transaction/transaction.service.ts:64-74 | NotFound("Transaction not found") exactly when no entry has the id; otherwise an entry with that id, the only one in a consistent store |
| Ledger.GetTransactionByReference | src/transaction/transaction.service.ts:76-86 | NotFound exactly when no entry has the reference; otherwise the entry with that reference, unique in a consistent store |
| Sorting.SortByStable | src/transaction/transaction.service.ts:58 | the sort standing for `orderBy` is a non-decreasing rearrangement that keeps the elements of any one key in their original order |
| Ledger.ListingTiesInStoreOrder | src/transaction/transaction.service.ts:56-58 | in the model's newest-first ordering, the matching entries created at one instant appear in the order the store holds them |
| Ledger.BatchTiesInStoreOrder | src/transaction/transaction.service.ts:88-93 | in the model's batch lookup, the batch's entries created at one instant (all of a batch written at once) appear in the order the store holds them |
| Ledger.GetTransactionsByBatchId | src/transaction/transaction.service.ts:88-93 | every stored entry of the batch, each as often as stored, oldest first; an unknown batch id gives the empty list and never an error |
| Ledger.CreateTransaction | src/transaction/transaction.service.ts:95-120 | the entry takes the given status, else COMPLETED. Its reference is "TXN-" followed by the fresh uuid, it has no batch id, and it keeps the input's owner, wallet, amount, currency, type, description, external reference and metadata, with the given creation instant. It is written exactly when the store's constraints accept it; otherwise it fails with the store's error and writes nothing |
| Ledger.CreatedTransactionIsFound | src/transaction/transaction.service.ts:95-120 | the posted entry is what the lookups by its reference and by its id then return |
| Ledger.BatchEntryDescription | src/transaction/transaction.service.ts:149-151 | a batch entry has no description exactly when neither the batch nor the entry has one (an empty batch description counts as none). With a batch description the result is trimmed: it neither starts nor ends with whitespace |
| Ledger.DescriptionKeptWithoutBatchDescription | src/transaction/transaction.service.ts:149-151 | without a (non-empty) batch description a batch entry keeps its own description |
| Ledger.DescriptionJoinsBoth | src/transaction/transaction.service.ts:149-151 | with a batch description and an entry description that are already trimmed, the entry reads "batch - own" |
| Ledger.DescriptionWithoutOwn | src/transaction/transaction.service.ts:149-151 | with a batch description and no entry description, trimming leaves "batch -" |
| Ledger.InsertTxns | src/transaction/transaction.service.ts:146-178 | the batched creates are all kept or none is; when kept, the new entries have pairwise distinct references and ids, none already stored |
| Ledger.CreateBatchTransactions | src/transaction/transaction.service.ts:122-178 | an empty batch is BadRequest and writes nothing. A batch with an entry of another owner is BadRequest and writes nothing. Any failure writes nothing. On success exactly one entry per input entry, in input order, is appended. The entries share one "BATCH-" id, are all COMPLETED, have distinct fresh references and the joined description, carry one creation instant, and keep each input's wallet, amount, currency, type, external reference and metadata. Ledger.CreateBatchSucceeds says when it succeeds |
| Ledger.InsertTxnsSucceeds | src/transaction/transaction.service.ts:146-178 | the batched creates are kept exactly when their ids and references are pairwise distinct and unused, and every owner and wallet exists |
| Ledger.CreateBatchSucceeds | src/transaction/transaction.service.ts:122-178 | a batch is written exactly when it is non-empty, every entry belongs to the batch's owner, the owner and every entry's wallet exist, and the fresh references and row ids are pairwise distinct and unused; otherwise it fails |
| Ledger.TwoEntryBatch | src/transaction/transaction.service.ts:122-178 | a batch of +100 NGN deposit and -30 NGN withdrawal for an existing user and wallet succeeds and appends two entries, 100 and -30 in that order |
| Ledger.BatchIsFound | src/transaction/transaction.service.ts:131-178 | a batch written under a batch id no earlier entry carries is exactly what the lookup by that id returns |
| LedgerSummary.Selected | src/transaction/transaction.service.ts:197-216 | the summary counts exactly the user's COMPLETED stored entries that pass the currency and date filters, each as often as the store holds it |
| LedgerSummary.NetIsIncomeMinusExpenses | src/transaction/transaction.service.ts:233-239 | per currency, the signed sum equals income minus expenses, and neither of those is negative |
| LedgerSummary.GroupIndex | src/transaction/transaction.service.ts:220-222 | the lookup `acc[currency]` finds the one group of that currency, or reports that there is none |
| LedgerSummary.AccumulateNew | src/transaction/transaction.service.ts:219-242 | an entry in a currency with no group yet opens one group at the end, holding just that entry |
| LedgerSummary.AccumulateExisting | src/transaction/transaction.service.ts:219-242 | an entry in a currency that has a group changes that group and no other |
| LedgerSummary.Accumulate | src/transaction/transaction.service.ts:219-242 | one reduce step keeps every group's place and currency, lists the entry's currency afterwards, adds a group only for a currency that had none, and leaves the groups of other currencies unchanged |
| LedgerSummary.AccumulateStep | src/transaction/transaction.service.ts:219-242 | one reduce step keeps the summary invariant: one group per currency seen, and each group holds the reference sums |
| LedgerSummary.Summarize | src/transaction/transaction.service.ts:218-246 | the reduction has exactly one group per currency that occurs, and each group's income, expenses and net equal the reference sums |
| LedgerSummary.GetTransactionSummary | src/transaction/transaction.service.ts:181-247 | the summary has one group per currency among the counted entries, holding their reference sums; LedgerSummary.SummaryProperties adds the signs |
| LedgerSummary.SummaryProperties | src/transaction/transaction.service.ts:197-246 | the summary lists each counted currency once and no other. Income is the sum of positive amounts and is at least 0. Expenses is the sum of the absolute non-positive amounts and is at least 0. Net is the signed sum, equal to income minus expenses |
| LedgerSummary.UncountedEntryIgnored | src/transaction/transaction.service.ts:197-211 | an entry that is pending or failed, belongs to another user, or falls outside the filters does not change the summary |
| LedgerSummary.WorkedExample | src/transaction/transaction.service.ts:218-246 | +100 NGN, -30 NGN, +50 USD summarize to NGN 100/30/70 followed by USD 50/0/50 |
| Text.TrimIsSlice | src/transaction/transaction.service.ts:150 | `trim` keeps one contiguous slice of its input and removes only whitespace at either end |
| Text.TrimIdempotent | src/transaction/transaction.service.ts:150 | trimming twice is trimming once |
| Text.DecimalRoundTrip | src/virtual-account/virtual-account.service.ts:42 | the decimal rendering of the clock is all digits and reads back as the same number |
| Text.DecimalInjective | src/virtual-account/virtual-account.service.ts:42 | different instants render differently |
| VirtualAccounts.TxRefDistinctTimes | src/virtual-account/virtual-account.service.ts:42 | two calls for the same user at different instants carry different `tx_ref`s |
| VirtualAccounts.BuildRequest | src/virtual-account/virtual-account.service.ts:42-53 | the request always carries currency NGN, is permanent, and carries the fixed BVN and narration. Its `tx_ref` is "v-acct-", the user id, "-" and the clock in decimal, which reads back as the clock. It passes on the user's email and names |
| VirtualAccounts.BackoffSchedule | src/virtual-account/virtual-account.service.ts:73-75 | the retry delays are 1000, 2000 and 4000 ms |
| VirtualAccounts.BackoffAtLeastOneSecond | src/virtual-account/virtual-account.service.ts:73-75 | every retry waits at least one second |
| VirtualAccounts.BackoffDoubles | src/virtual-account/virtual-account.service.ts:73-75 | each delay is twice the previous one, so the delays strictly increase |
| VirtualAccounts.RetryFrom | src/virtual-account/virtual-account.service.ts:69-81 | from attempt k on, each errored attempt is followed by the next one after the backoff delay for its retry number, while retries remain. The first delivered response ends the call. Failure means the last attempt errored |
| VirtualAccounts.CallWithRetry | src/virtual-account/virtual-account.service.ts:57-83 | between 1 and 1 + 3 attempts, with delays 2^(k-1)·1000 before retry k. A response is obtained exactly when some attempt delivers one, and it is the first delivered one, every earlier attempt having errored. Failure comes only after all four attempts errored, with the last attempt's error |
| VirtualAccounts.TwoFailuresThenSuccess | src/virtual-account/virtual-account.service.ts:69-81 | two errors then a response give three attempts, after waits of 1 s and 2 s |
| VirtualAccounts.AllAttemptsFail | src/virtual-account/virtual-account.service.ts:69-81 | four errors give four attempts, after waits of 1, 2 and 4 s, and fail with the last error |
| VirtualAccounts.ValidData | src/virtual-account/virtual-account.service.ts:85-97 | a body is accepted exactly when its status is "success", it has data, and the account number and bank name are non-empty |
| VirtualAccounts.AccountRow | src/virtual-account/virtual-account.service.ts:100-112 | the row has the given id, belongs to the balance, is NGN / FLUTTERWAVE, and carries the validated account number and bank name |
| VirtualAccounts.ProviderRow | src/virtual-account/virtual-account.service.ts:55-112 | a row is produced exactly when the provider delivers a valid body, and it is the row built from that body with the request's `tx_ref` as the last fallback reference |
| VirtualAccounts.AccountRowDefaults | src/virtual-account/virtual-account.service.ts:100-112 | the row is NGN / FLUTTERWAVE for the balance. A missing account name becomes "first last" and a missing provider id becomes the account number. The provider reference is the first of order_ref, flw_ref and tx_ref that is present. So every text column is non-empty |
| VirtualAccounts.CreateVirtualAccountWithTransaction | src/virtual-account/virtual-account.service.ts:37-133 | every failure (transport, invalid body, storage) is the one InternalServerError and writes nothing. Success means a valid response was obtained and exactly one row was appended: the one built from the first delivered body's data with the request's `tx_ref` for this user and instant. Store consistency is preserved |
| VirtualAccounts.CreateVirtualAccountSucceeds | src/virtual-account/virtual-account.service.ts:55-112 | the account is written exactly when some attempt delivers a valid body and the store accepts the row (the balance exists and has no account yet) |
| VirtualAccounts.GetVirtualAccount | src/virtual-account/virtual-account.service.ts:151-155 | null exactly when no account belongs to the balance; otherwise an account of that balance |
| VirtualAccounts.GetVirtualAccountUnique | src/virtual-account/virtual-account.service.ts:151-155 | in a consistent store the account found is the balance's only one |
| VirtualAccounts.CreatedAccountIsFound | src/virtual-account/virtual-account.service.ts:99-112 | the account just written is what `getVirtualAccount` returns for that balance |
| Store.UserById | src/wallet/wallet.service.ts:109-111 | `user.findUnique` by id: null exactly when no user has the id, otherwise a stored user with that id |
| Store.UserByEmail | src/user/user.service.ts:20-22 | `user.findUnique` by email: null exactly when no user has the email, otherwise a stored user with that email |
| Store.InsertUser | src/user/user.service.ts:33-38 | the user row is appended exactly when its id and email are free; consistency is preserved |
| Store.InsertWallet | src/wallet/wallet.service.ts:28-30 | the wallet is appended exactly when its id is free, its owner exists and has no wallet yet |
| Store.InsertBalance | src/wallet/wallet.service.ts:31-36 | a balance is appended exactly when its id is free, its wallet exists and does not yet hold that currency |
| Store.InsertAccount | src/virtual-account/virtual-account.service.ts:100-112 | the account is appended exactly when its id is free, its balance exists and has no account yet |
| Store.InsertTxn | src/transaction/transaction.service.ts:117-119 | the entry is appended exactly when its id and reference are free and its owner and wallet exist |
| Store.RunTransaction | src/user/user.service.ts:30-48 | an interactive transaction keeps the body's store on success and the original store on failure, passing the body's error on |
| Wallets.InsertBalances | src/wallet/wallet.service.ts:31-36 | the nested balance creates are kept together or not at all |
| Wallets.CreateWallet | src/wallet/wallet.service.ts:28-41 | the nested create writes the wallet for the user and one zero balance per currency, atomically |
| Wallets.ProvisionWith | src/wallet/wallet.service.ts:24-58 | on success the store gains the wallet, its zero balances and one account, the row built from the provider's data for the first NGN balance. Failure is a store error, "Failed to create NGN balance", or the provider error |
| Wallets.NgnGuard | src/wallet/wallet.service.ts:43-47 | without an NGN balance provisioning fails with "Failed to create NGN balance", whatever the provider would answer |
| Wallets.CreateUserWalletWithTransaction | src/wallet/wallet.service.ts:24-58 | on success: one wallet for the user, with one zero balance for each of NGN, USD, GBP and EUR, and the account row built from the provider's data on the NGN balance. The resulting store is the original plus exactly these rows, and no other table changes. Failure is a store error or the provider error |
| Wallets.InsertBalancesSucceeds | src/wallet/wallet.service.ts:31-36 | the balance creates are kept exactly when their ids are pairwise distinct and unused, no wallet gets a currency twice, and every wallet exists |
| Wallets.CreateWalletSucceeds | src/wallet/wallet.service.ts:28-41 | in a consistent store the nested create succeeds exactly when the wallet id is free, the user exists and has no wallet, the balance ids are distinct and unused, and the currencies are distinct |
| Wallets.ProvisioningSucceeds | src/wallet/wallet.service.ts:24-58 | in a consistent store provisioning succeeds exactly when the user exists and has no wallet, the new wallet, balance and account ids are fresh, and the provider delivers a valid body |
| Wallets.DefaultsPassNgnGuard | src/wallet/wallet.service.ts:10-47 | with the default currencies the NGN guard never fires and the account goes to the first balance |
| Wallets.FindWallet | src/wallet/wallet.service.ts:61-63 | null exactly when the user owns no wallet, otherwise a wallet the user owns |
| Wallets.BalancesOf | src/wallet/wallet.service.ts:64-69 | a wallet's balances in ascending currency order: each stored balance of the wallet exactly as often as the store holds it, and no other |
| Wallets.WithAccounts | src/wallet/wallet.service.ts:65-67 | each balance comes with its virtual account, or with none exactly when the balance has none |
| Wallets.GetUserWallet | src/wallet/wallet.service.ts:60-78 | NotFound("Wallet not found") exactly when the user has no wallet. Otherwise it returns the user's wallet with its balances in ascending currency order, each stored balance of the wallet exactly as often as the store holds it, each with its account |
| Wallets.GetBalance | src/wallet/wallet.service.ts:80-89 | 0 when the user owns no balance in the currency, otherwise the amount of such a balance |
| Wallets.GetBalances | src/wallet/wallet.service.ts:91-102 | [] without a wallet; otherwise balances the user owns, in ascending currency order: every stored balance of the wallet found, exactly as often as the store holds it |
| Wallets.GetBalancesMatchesWallet | src/wallet/wallet.service.ts:91-102 | `getBalances` lists the same balances as `getUserWallet`, in the same order |
| Wallets.GetBalanceOfListed | src/wallet/wallet.service.ts:80-89 | in a consistent store `getBalance` returns the amount of the listed balance in that currency |
| Wallets.GetBalanceOfUnlisted | src/wallet/wallet.service.ts:80-89 | in a consistent store a currency `getBalances` does not list has balance 0 |
| Wallets.CreateUserWallet | src/wallet/wallet.service.ts:104-120 | NotFound("User not found") for an unknown user, before any transaction. Otherwise provisioning runs in its own transaction, all or nothing. On success the store gains exactly the wallet, its four zero balances and the provider's account row, and nothing else changes |
| Wallets.CreateUserWalletSucceeds | src/wallet/wallet.service.ts:104-120 | in a consistent store the legacy call succeeds exactly when the user exists and has no wallet, the new ids are fresh, and the provider delivers a valid body |
| Wallets.NewWalletListed | src/wallet/wallet.service.ts:91-102 | a wallet newly written with balances in ascending currency order is what `getBalances` lists for its owner |
| Wallets.ProvisionedBalancesListed | src/wallet/wallet.service.ts:24-102 | after provisioning, `getBalances` lists exactly the four new zero balances, NGN, USD, GBP, EUR |
| Users.WithoutPasswordForgets | src/user/user.service.ts:50-51 | the returned user does not depend on the stored password |
| Users.SignUpBody | src/user/user.service.ts:31-43 | the transaction body appends exactly the user, its wallet, its four zero balances and the provider's account row, changes nothing else, and never fails with Conflict |
| Users.CreateUser | src/user/user.service.ts:19-66 | a taken email is Conflict("Email already in use") with nothing written. Any other failure is InternalServerError("Failed to create user account. Please try again.") with nothing written. Success returns the new user without the password. The store then is the original plus exactly the user (hashed password, no token), its wallet, its four zero balances and the provider's account row; the ledger and every other row are unchanged. Consistency is preserved |
| Users.SignUpSucceeds | src/user/user.service.ts:19-66 | in a consistent store sign-up succeeds exactly when the email and user id are free, the wallet, balance and account ids are fresh, and the provider delivers a valid body |
| Users.SignUpAfterTwoFailures | src/user/user.service.ts:19-66 | with free email and fresh ids, two provider errors followed by a valid body still give a successful sign-up |
| Users.FirstSignUp | src/user/user.service.ts:19-66 | on an empty store the first sign-up succeeds exactly when the balance ids are distinct and the provider delivers a valid body |
| Users.SignUpRollsBackOnProviderFailure | src/user/user.service.ts:28-65 | when every provider attempt errors, sign-up fails with the generic error and no user, wallet, balance or account row remains |
| Users.ProviderFailureFailsProvisioning | src/wallet/wallet.service.ts:49-55 | a provider that never answers makes provisioning fail |
| Users.FindByEmail | src/user/user.service.ts:68-70 | null exactly when no user has the email, otherwise a stored user with it |
| Users.FindById | src/user/user.service.ts:72-78 | null exactly when no user has the id, otherwise that user without the password |
| Users.SignedUpUserIsFound | src/user/user.service.ts:72-78 | the user returned by sign-up is what `findById` then returns |
| Users.UpdateRefreshToken | src/user/user.service.ts:80-91 | an unknown id is the store's missing-record error with nothing written. Otherwise only that user's token column changes: null for a null or empty token, the token's hash otherwise |
| Users.RefreshTokenRoundTrip | src/user/user.service.ts:80-91 | the token read back by id is the one just stored: null after clearing, the hash after setting |

## Left out

- Controllers, Nest modules, bootstrap, configuration and authentication
  (JWT signing, bcrypt comparison): HTTP routing, wiring and foreign calls.
- The exchange-rate service: floating-point conversion, an HTTP fetch and a
  wall-clock cache, outside this core.
- `getUserVirtualAccounts` is a relation-join query that adds nothing beyond
  the store model. The legacy `createVirtualAccount` is a thin transaction
  wrapper around the modelled call.
- Real timing:
  - `setTimeout` waits are not performed;
  - the 15 s per-attempt `timeout` appears only as the `TimedOut` outcome an
    attempt can observe;
  - the sign-up transaction's `maxWait` and `timeout` options, and their
    abort, are not modelled. The provider call runs inside that 30 s
    transaction, but its retries may take longer: up to 15 s per attempt
    plus waits of 1 s, 2 s and 4 s. After two timed-out attempts the third
    starts at least 31 s in, when the store has already aborted the
    transaction, so the account row cannot be written and sign-up fails.
    Users.SignUpAfterTwoFailures therefore matches the source only for
    provider errors that arrive quickly, not for timeouts.
- `Date.now()`, `randomUUID()` and store-assigned ids are parameters. So are
  the provider's answers, one per attempt.
- Logging, and the error details that are only logged.
- The database schema:
  - the schema is not part of this model. The unique and foreign-key
    constraints `Store.Valid` lists are those the services' `findUnique`
    calls and nested creates rely on, plus one assumed constraint: a wallet
    holds at most one balance per currency. No call depends on that one
    (`getBalance` uses `findFirst`). Wallets.GetBalanceOfListed and
    Wallets.GetBalanceOfUnlisted hold only under it;
  - the `Currency` order is taken as NGN, USD, GBP, EUR, which is the order
    the sorts use;
  - the transaction types are taken as deposit, withdrawal, conversion and
    fee.
- Columns and parameters reduced in the model:
  - the provider's numeric `id` is carried as its text rendering;
  - `metadata` is an optional string. In the source it is an optional
    object, so a present value is always truthy and is stored as given;
  - the sign-up request has only email, password and first and last name;
  - `limit` and `offset` are natural numbers, so negative values are not
    modelled.
- Concurrency: two sign-ups racing for one email are serialised by the
  store's unique email. In the sequential model the conflict check already
  sees any earlier user.
- Users.UpdateRefreshToken: `hash` is a function, so the model stores one
  fixed hash of the token. bcrypt salts each hash, so the source stores some
  hash of it.
- Wallets.CreateUserWalletWithTransaction: returns the new balances in the
  order they were created, NGN, USD, GBP, EUR. The source's
  `include: { balances: true }` has no `orderBy`, so the order it returns
  is the store's. The stored rows and the NGN lookup do not depend on it.
- Ledger.BatchIsFound: states equality as a multiset, not as a sequence. All
  entries of one batch share one creation instant, and the store's order
  among equal instants is unspecified.
- Ledger.GetUserTransactions: `orderBy createdAt desc` leaves the order of
  entries with equal creation instants to the store; the model fixes one (a
  stable sort keeping store order, Ledger.ListingTiesInStoreOrder). Batch
  entries share one instant. So
  Ledger.ListingWithPaging and Ledger.PagesConcatenate describe pages of the
  model's ordering; the store may order ties differently from one query to
  the next, and then pages can overlap or skip tied entries.
- LedgerSummary.GetTransactionSummary: the summary query has no `orderBy`, so
  the order of currency groups follows the order the store returns rows in.
  The model takes store order, so the group order it states (first occurrence
  first) is the model's; which groups exist and their sums do not depend on
  it.
- Ledger.GetTransactionsByBatchId: for entries with the same creation
  instant, the model fixes store order (Ledger.BatchTiesInStoreOrder), while
  the store leaves it unspecified. Its own contract states only the
  non-decreasing order of instants.
- Wallets.GetBalance: states that the result is the amount of some balance
  the user owns in that currency, not which one, because `findFirst` has no
  order. Wallets.GetBalanceOfListed shows there is only one in a consistent
  store.
