# Taco back end: a verified model

This project models the parts of the Taco chat back end that keep state and depend on each other: the friend-request
protocol, the request store with its sorted index, the destructive notice queue, account registration and passwords,
and the key names all of them share in one Redis database.

The friend-request protocol is distributed. `add` makes a request and hands it to the request service, which writes it
with three separate Redis commands. `call` reads it back, checks its expiry and dispatches it. `accept` writes two
friend rows in a Mongo transaction, asks the request service to remove the request, and commits or aborts. Nothing is
locked. The model is a step machine: one Redis or Mongo command, or one reading of the clock, is one step; any number
of processes interleave in any order; any step of an accept may fail, and the removal it asks for may be executed
after it has given up. Listings are processes too: one command reads the index, then one reads each field. Claims about
the protocol hold in every reachable state of every such run.

The services themselves are classes that update their stores in place, each method proved against a function of the
old store. The uninterrupted run of a service in the step machine is shown to do what that function says.

## Files

| file | content |
|---|---|
| `Wrappers.dfy` | optional values and results |
| `SortedSet.dfy` | Redis sorted sets and rank windows |
| `Requests.dfy` | requests, expiry, request ids |
| `RequestDb.dfy`, `RequestService.dfy` | the request hash and index, listing and paging; the service |
| `FriendRows.dfy`, `FriendsService.dfy` | the friend collection; the service |
| `Protocol.dfy` | the step machine |
| `ProtocolInvariant.dfy`, `ProtocolSteps.dfy` | its inductive invariant; what one step changes |
| `ProtocolConsent.dfy`, `ProtocolRows.dfy`, `ProtocolHash.dfy`, `ProtocolIndex.dfy`, `ProtocolExpiry.dfy`, `ProtocolKeys.dfy`, `ProtocolListing.dfy` | what holds in every reachable state |
| `ProtocolSerial.dfy` | uninterrupted services |
| `ProtocolRuns.dfy` | runs that break a property |
| `ProtocolRemoval.dfy`, `ProtocolFailure.dfy` | in which states exactly a removed request can still be committed, a number be left in its place or taken away again, and a failed accept take its request |
| `Notices.dfy`, `NoticeService.dfy` | the notice queue; the service |
| `Accounts.dfy`, `AccountService.dfy` | users, questions, passwords; the service |
| `Keyspace.dfy` | the shared keyspace |

## What turned out false of the code, and when it holds

- **A request is accepted at most once.** False: two calls that both read the request before either has it removed both
  commit, and the friendship is stored twice (`TwoCommitsHappen`). Two commits of one request come only from calls that
  overlap in this way (`DoubleCommitOverlaps`). Once its removal has been executed, a request can be committed (again)
  exactly if some process that read it is still on its way, with its expiry checks behind it or in time
  (`FurtherCommitIff`).
- **A removed request leaves nothing in the hash.** A removal between `hset` and `hsetnx` leaves a bare number there for
  good (`NumberLeftBehind`). Once the request is removed and its field empty, that can happen exactly if an `addRequest`
  is yet to execute its `hsetnx` on that field (`NumberPutBackIff`). Once it stands there, it can go exactly if another
  removal of the request is sent and not yet executed, or a process that read the request can still come to send one
  (`NumberTakenIff`). The number never counts as a request: calls answer not-found (`RemovedIsFinal`). The index keeps
  every removed id in any case (`IndexNeverShrinks`).
- **A failed accept changes nothing.** The friend rows do not change, but the removal is not undone: the request can be
  lost without a friendship (`RequestLost`). A failed accept takes its request away exactly if it has already done so, or
  its removal is sent and not yet executed and the request is stored (`FailedAcceptTakesIff`). So it takes nothing if it
  failed before it sent the removal, nor if the removal of another accept was executed first.
- **A removed request is never read again.** It is if its id is stored again (`ReusedIdIsReadAgain`), and only then
  (`ReadAgainWasStoredAgain`): a call finds exactly the request stored last, unless that was removed (`CallFindsLast`).
- **`remove` ends a friendship.** It looks for a row whose target is the document id of the user, while rows hold user
  ids. As long as no document id is a user id no friendship ever ends (`FriendshipsNeverEnd`); if one is, a friendship
  can be lost on one side only. The relation is always symmetric, and no step ever ends a friendship, exactly when no
  document id is a user id (`AlwaysSymmetricIff`).
- **An accepted request disappears.** Only if it carried its id when it was stored, as every request made by `add` does
  (`AddCallRemove`): `addRequest` serialises before it makes up a missing id.
- **A page of requests starts after the page before it.** The start is `page - 1 * size`, so a page below `size` counts
  from the end of the index: page 1 is empty as soon as there are `2 * size` requests (`PageEmptyIff`). When pages p and
  p + 1 have a request in common is said exactly by `PagesOverlapIff`; from page `size` on every page that is not empty
  overlaps the one before it. Every indexed request is still on some page (`EveryRequestOnSomePage`,
  `EveryFieldOnSomePage`).
- **A page of notices holds `size` notices and pages follow one another.** A page holds `size + 1`, and because a read
  deletes what it returns, reading pages in order passes over `size` notices after each. It delivers the whole queue
  exactly when that fits on the first page (`ForwardPagingCompleteIff`); reading page 1 repeatedly delivers everything
  (`DrainInOrder`).
- **A notice is lost only by being delivered.** Reading and deleting are two commands. A notice that arrives in between
  is deleted unread exactly when it lands in the window (`ArrivalLostIff`), and of two overlapping reads of a page the
  second deletes unread what the window then holds. For pages from 1 on these are the next `size + 1` notices, and
  nothing is lost exactly when the queue ends with the page; `OverlapLosesIff` says when for every page number.
- **The old password authorises a change.** The old password is compared with the stored digest as it comes, so a change
  takes effect exactly when the digest itself is sent; the session ends in any case (`ChangeTakesEffectIff`,
  `TokensFollowHistory`).
- **Request ids tell their parts.** For dash-free user ids (`RidDecodes`); with dashes two pairs can collide
  (`DashesCollide`). With one worker id two ids agree exactly when `sender-recive` and the hashes do (`OneWorkerIds`).
  Pairs that collide have different receivers, so their requests lie in different hashes: within the hash of one
  receiver the id always tells the sender (`OneReceiverIds`).
- **Keys of different services differ.** `KeysEqualIff` says for all ids when two keys are equal: when the hash of
  requests is that of an id `split:x` and the index that of x, or the access token that of `REFRESH:x` and the refresh
  token that of x. Runs over a set of addresses are as on separate stores exactly when no two of them clash in this way
  (`SeparateIff`). In the protocol a command whose key holds another type is not executed; no key ever holds both
  (`OneTypePerKey`), and an uninterrupted `add` runs to its end exactly when both keys of the receiver are free
  (`AddAloneIff`).

The comment on `isExpired` says that a request whose expiry equals the time is expired; the code says it is not, and
the model follows the code.

## Assumptions

- A request id is used for one `hset` only, where a claim says so (`HashedOnce`). Distinct ids for the requests of each
  pair of users are enough, whatever the user ids (`PairwiseIdsSuffice`). What the hash holds without this assumption is
  said by `HashFollowsLog`.
- `friend.add.accept` is reached only through `call`, each remote call is executed at most once, and callers are
  registered users.
- MD5 and SHA-256 are left open: the MD5 digest is chosen by the run, SHA-256 is any function.
- The classes `RequestService` and `AccountService` keep their hash, index and tokens apart, as the keyspace does for
  users whose ids do not begin with `split:` or `REFRESH:` (`PlainApart`, `RunSimulates`). The step machine does not
  assume this.
- `setNotice` calls `zadd` without a score, which is not a command Redis accepts. The model covers both answers: a
  refusal, which changes nothing, and, should the score be supplied, an insertion at any rank.

## Model

| member | source | states |
|---|---|---|
| `SortedSet.ZaddScore` | apps/main/src/request/request.service.ts:45-51 | `zadd` sets the score of its member and of no other |
| `SortedSet.Ascends` | apps/main/src/request/request.service.ts:45-51 | a valid index ascends: scores by `<=`, equal scores by id |
| `SortedSet.LexMeans` | apps/main/src/request/request.service.ts:45-51 | ids are ordered by the first character that differs, a proper prefix first |
| `SortedSet.ZaddValid` | apps/main/src/request/request.service.ts:45-51 | `zadd` keeps the index valid: ordered by (score, id), one entry per id |
| `SortedSet.WindowRanks` | apps/main/src/request/request.service.ts:72-84 | a rank window lists exactly the ranks between its ends, both included, negative ends counted from the end of the set |
| `SortedSet.WindowSplits` | apps/main/src/notice/notice.service.ts:22-25 | reading a window and deleting it loses and duplicates nothing |
| `Requests.ExpiresAfter` | libs/factory/src/request.ts:36-76 | a request is valid for its expiry from when it is made, or up to it when it is given as a time, the last moment included |
| `Requests.RidLayout` | libs/factory/src/request.ts:78-86 | sender, receiver and worker id stand in the id in this order between dashes, and its last 16 characters are the first 16 of the digest |
| `Requests.RidDecodes` | libs/factory/src/request.ts:78-86 | for dash-free ids sender, receiver, worker and hash can be read back from the request id |
| `Requests.RidInjective` | libs/factory/src/request.ts:78-86 | two request ids agree exactly when all four parts do |
| `Requests.DashesCollide` | libs/factory/src/request.ts:84-85 | with dashes in user ids different pairs get the same id |
| `Requests.OneWorkerIds` | libs/factory/src/request.ts:78-86 | with one worker id, two ids agree exactly when `sender-recive` and the first 16 characters of the digests do |
| `Requests.OneReceiverIds` | libs/factory/src/request.ts:78-86 | for one receiver, two ids agree exactly when the senders and the first 16 characters of the digests do, dashes or not |
| `RequestDb.AddedShape` | apps/main/src/request/request.service.ts:28-53 | uninterrupted, `hsetnx` has no effect: the field holds the request as it came, the score is its expiry plus the configured one |
| `RequestDb.ServeConsistent` | apps/main/src/request/request.service.ts:28-64 | over every serial run no field is bare, each request is under its receiver and id, and its score is its stored expiry plus the configured one |
| `RequestDb.ServeFollowsOps` | apps/main/src/request/request.service.ts:28-64 | after a serial run a field holds a request exactly if the last operation on it stored that request |
| `RequestDb.AddCallRemove` | apps/main/src/request/request.service.ts:28-132 | in any store an added request is dispatched unchanged unless expired; removing it by its id takes it away exactly when it carried one |
| `RequestDb.UnpagedIsWhole` | apps/main/src/request/request.service.ts:72-77 | without a page, or with page 0, the listing covers the index exactly when that has no more than 2^53 members |
| `RequestDb.PageFaithful` | apps/main/src/request/request.service.ts:65-92 | every page has one entry per key, no key twice, and its requests come by ascending stored expiry, equal ones by id |
| `RequestDb.ListingFaithful` | apps/main/src/request/request.service.ts:65-92 | the unpaged listing has one entry per index member, each scored field at exactly one place, requests by ascending stored expiry, equal ones by id |
| `RequestDb.SerialListing` | apps/main/src/request/request.service.ts:65-92 | after any serial run the listing shows every request of the user and nothing else but nulls |
| `RequestDb.PageRanks` | apps/main/src/request/request.service.ts:78-84 | which ranks page p lists |
| `RequestDb.PageEmptyIff` | apps/main/src/request/request.service.ts:78-84 | when a page is empty; page 1 from 2 * size requests on |
| `RequestDb.PagesOverlapIff` | apps/main/src/request/request.service.ts:78-84 | when exactly pages p and p + 1 list an entry in common; from page size on, whenever page p + 1 is not empty |
| `RequestDb.EveryRankHasPage` | apps/main/src/request/request.service.ts:78-84 | every rank is on some page |
| `RequestDb.EveryRequestOnSomePage` | apps/main/src/request/request.service.ts:78-92 | every indexed field is listed on some page |
| `ProtocolIndex.EveryFieldOnSomePage` | apps/main/src/request/request.service.ts:78-92 | in every reachable state every field is on some page, unless its addRequest has yet to execute its `zadd` |
| `RequestService.RequestService.AddRequest` | apps/main/src/request/request.service.ts:28-53 | the new store, that the id returned is the one the request came with or else a fresh one, and that the store stays consistent |
| `RequestService.RequestService.RemoveRequest` | apps/main/src/request/request.service.ts:60-64 | deletes that one field of the hash, leaves every other field and the index alone |
| `RequestService.RequestService.GetAllRequest` | apps/main/src/request/request.service.ts:65-92 | the loop returns the listing, its requests by ascending expiry on every page |
| `RequestService.RequestService.Call` | apps/main/src/request/request.service.ts:93-132 | not found, expired, or the stored request sent to the handler of its module, action and status |
| `FriendRows.SetTagPairs` | apps/main/src/friends/friends.service.ts:115-125 | a tag change sets the tag of the first matching row, leaves every other row and the relation alone, and changes nothing without a match |
| `FriendRows.DeleteOneRows` | apps/main/src/friends/friends.service.ts:91-94 | `deleteOne` takes away the first matching row and leaves the others as they are, in order |
| `FriendRows.DeleteOnePairs` | apps/main/src/friends/friends.service.ts:91-94 | of the relation it takes away one matching pair or nothing |
| `FriendRows.BothRowsPairs` | apps/main/src/friends/friends.service.ts:209-219 | the two rows of a friendship keep a symmetric relation symmetric |
| `FriendRows.DeleteKeepsSymmetryIff` | apps/main/src/friends/friends.service.ts:91-94 | deleting one row keeps the relation symmetric exactly when the row is absent or a loop |
| `FriendsService.FriendsService.Add` | apps/main/src/friends/friends.service.ts:46-74 | friends are refused; otherwise one request with sender, receiver, expiry and id is stored |
| `FriendsService.FriendsService.Accept` | apps/main/src/friends/friends.service.ts:194-239 | both rows or none, for every point of failure; the request goes once its removal has been executed |
| `FriendsService.FriendsService.UpdateTag` | apps/main/src/friends/friends.service.ts:108-127 | strangers are refused and no row changes; otherwise the tag changes and the relation does not |
| `FriendsService.FriendsService.Remove` | apps/main/src/friends/friends.service.ts:75-107 | the row (source, document id) goes; the friendship goes only if that id is the target |
| `FriendsService.FriendsService.Exchange` | apps/main/src/friends/friends.service.ts:46-239 | add, call and accept in a row make both friends exactly when the answer is in time, and the request cannot be called again |
| `ProtocolInvariant.StepInv` | apps/main/src/request/request.service.ts:28-132 | every step of every process keeps the invariant that accounts for all events, fields, scores and transactions |
| `ProtocolInvariant.ReachableInv` | apps/main/src/friends/friends.service.ts:46-239 | so it holds in every reachable state |
| `ProtocolConsent.Consent` | apps/main/src/friends/friends.service.ts:194-239 | each committed friendship traces back, in order, to one add by the sender, its storage under the receiver, a read by the receiver with status accept, two expiry checks and the removal |
| `ProtocolConsent.OneOutcome` | apps/main/src/friends/friends.service.ts:208-238 | an accept commits at most once, and never after aborting |
| `ProtocolConsent.AcceptTouchesItsOwn` | apps/main/src/friends/friends.service.ts:220-227 | what an accept removes is the one entry its call read |
| `ProtocolRows.RowTracesBack` | apps/main/src/friends/friends.service.ts:46-239 | every friend row of every reachable state traces back to an add by one end, a call with status accept by the other, checks in time, the removal and the commit, whatever the document ids are |
| `ProtocolRows.RowsStep` | apps/main/src/friends/friends.service.ts:203-228 | a step adds the rows of the friendship it commits and never takes rows away |
| `ProtocolRows.AtomicSymmetry` | apps/main/src/friends/friends.service.ts:181-239 | in every reachable state the rows are two per committed accept, the relation and `hasFriend` are symmetric |
| `ProtocolRows.FriendshipsNeverEnd` | apps/main/src/friends/friends.service.ts:75-107 | no run takes a friendship away while document ids are not user ids |
| `ProtocolHash.HashFollowsLog` | apps/main/src/request/request.service.ts:28-64 | in every reachable state the hash holds a request exactly when the latest `hset` or removal of its field was its `hset`; every read returns what was stored last; numbers stand only in fields that were removed |
| `ProtocolHash.ReadAgainWasStoredAgain` | apps/main/src/request/request.service.ts:93-118 | between a removal and a later read of a field lies another `hset` of it |
| `ProtocolHash.CallFindsLast` | apps/main/src/request/request.service.ts:93-118 | a call reads exactly the request stored last, and fails with not-found if that was removed; it can read exactly when the key holds no index |
| `ProtocolHash.StoredUntilRemoved` | apps/main/src/request/request.service.ts:35-44 | the hash holds a request exactly from its `hset` to its removal; numbers stand only for removed requests; a removed request is never read |
| `ProtocolHash.RemovedIsFinal` | apps/main/src/request/request.service.ts:93-118 | a call on a removed request fails with not-found, even where `hsetnx` has put a number |
| `ProtocolHash.DoubleCommitOverlaps` | apps/main/src/request/request.service.ts:111-132 | two commits of one request come from two calls that both read it before any removal of it was executed |
| `ProtocolHash.DistinctIdsHashedOnce` | apps/main/src/friends/friends.service.ts:65-72 | distinct ids per receiver mean that no field is stored twice |
| `ProtocolHash.PairwiseIdsSuffice` | libs/factory/src/request.ts:78-86 | distinct ids for the requests of each pair of users mean that no field is stored twice |
| `ProtocolIndex.IndexCoversStore` | apps/main/src/request/request.service.ts:35-51 | every field is in the index or held by an addRequest between `hset` and `zadd` |
| `ProtocolIndex.IndexNeverShrinks` | apps/main/src/request/request.service.ts:60-64 | no run takes a member out of the index |
| `ProtocolIndex.ScoreIsShiftedExpiry` | apps/main/src/request/request.service.ts:30-34 | in every reachable state a stored request's score is its stored expiry plus the configured one |
| `ProtocolIndex.ListingSnapshot` | apps/main/src/request/request.service.ts:65-92 | evaluated on the stores of any one reachable state, the unpaged listing is faithful |
| `ProtocolListing.ListingEntries` | apps/main/src/request/request.service.ts:65-92 | under any interleaving a listing has one entry per key, no key twice; each request shown is the user's and was stored under that id; where none is shown that id's request had been removed |
| `ProtocolListing.FieldReadIsLast` | apps/main/src/request/request.service.ts:85-90 | each `hget` of a listing finds the request stored last under its key, and none if that was removed |
| `ProtocolListing.ListingOrdered` | apps/main/src/request/request.service.ts:72-91 | the requests shown come by ascending stored expiry, equal ones by id, whatever happened during the listing |
| `ProtocolListing.ListingComplete` | apps/main/src/request/request.service.ts:72-91 | a request indexed before an unpaged listing begins and stored when it has ended is shown at exactly one place |
| `ProtocolListing.ListingAlone` | apps/main/src/request/request.service.ts:65-92 | run without interruption, the list process returns the listing of the stores as they stand |
| `ProtocolKeys.OneTypePerKey` | apps/main/src/request/request.service.ts:14-16 | in every reachable state, whatever the user ids, no key holds both a hash of requests and an index |
| `ProtocolExpiry.ExpiryIsFinal` | apps/main/src/request/request.service.ts:119-124 | after a rejection as expired no call passes the request on and no accept admits it |
| `ProtocolExpiry.CommitAdmittedBeforeRejection` | apps/main/src/friends/friends.service.ts:197-202 | an accept that commits was admitted before any rejection of its request |
| `ProtocolSerial.AddAloneIff` | apps/main/src/friends/friends.service.ts:46-74 | an uninterrupted add between friends is refused and changes nothing; any other runs to its end exactly when the two keys of the receiver hold no other type |
| `ProtocolSerial.AddAlone` | apps/main/src/friends/friends.service.ts:46-74 | uninterrupted and with both keys free, the add process does to the store what `addRequest` is described to do |
| `ProtocolSerial.CallAlone` | apps/main/src/request/request.service.ts:93-132 | an uninterrupted call ends as its serial description says: not found, expired, without a handler, or at the accept |
| `ProtocolSerial.CallAtTime` | apps/main/src/request/request.service.ts:119-124 | a stored request is rejected by any call made after its expiry, and by none up to it, the expiry included |
| `ProtocolSerial.AcceptAlone` | apps/main/src/friends/friends.service.ts:194-239 | an accept that meets no failure, its removal included, removes the request and commits both rows |
| `ProtocolSerial.AcceptAborts` | apps/main/src/friends/friends.service.ts:208-238 | an accept that fails in its transaction, wherever it stands, aborts and changes no store |
| `ProtocolSerial.TagAlone` | apps/main/src/friends/friends.service.ts:108-127 | an uninterrupted tag change gives one row of the friendship the tag and leaves everything else alone |
| `ProtocolRuns.TwoCommitsHappen` | apps/main/src/request/request.service.ts:111-132 | two overlapping calls can both commit one request |
| `ProtocolRuns.NumberLeftBehind` | apps/main/src/request/request.service.ts:35-44 | a removal between `hset` and `hsetnx` leaves a number, listed under the removed id, that stays in every continuation storing no field twice |
| `ProtocolRuns.RequestLost` | apps/main/src/friends/friends.service.ts:220-235 | an aborted accept can have removed the request |
| `ProtocolRuns.ReusedIdIsReadAgain` | apps/main/src/request/request.service.ts:33-37 | an id stored again can be read after its removal |
| `ProtocolRemoval.NumberPutBackIff` | apps/main/src/request/request.service.ts:35-44 | a removed, empty field can come to hold a number exactly when an addRequest stands before its `hsetnx` on it and the key still takes a hash |
| `ProtocolRemoval.NumberTakenIff` | apps/main/src/request/request.service.ts:35-64 | a number in the place of a request stays in every continuation, unless another removal of that request is pending or a process that read it can still come to send one; then it can go |
| `ProtocolRemoval.FurtherCommitIff` | apps/main/src/friends/friends.service.ts:194-239 | once its removal is executed, a request can be committed exactly when some process that read it is on its way, checked or still in time, its removal executed or executable |
| `ProtocolFailure.FailedAcceptTakesIff` | apps/main/src/friends/friends.service.ts:220-235 | a failed accept takes its request away, the request being there, exactly when it already has, or its removal is sent and not executed, the key takes a hash and the request is stored |
| `ProtocolRuns.AlwaysSymmetricIff` | apps/main/src/friends/friends.service.ts:82-94 | with at least two users, the relation is symmetric in all reachable states exactly when no document id is a user id, and exactly then no step ever takes a friendship away |
| `Notices.PageInOrder` | apps/main/src/notice/notice.service.ts:15-27 | reading pages in order, page k + 1 returns size + 1 entries from original rank k(2 size + 1) on, cut to the queue |
| `Notices.ForwardPagingCompleteIff` | apps/main/src/notice/notice.service.ts:15-27 | paging forward delivers the whole queue exactly when it fits on the first page |
| `Notices.DrainInOrder` | apps/main/src/notice/notice.service.ts:15-27 | reading page 1 repeatedly returns the queue in order and empties it after exactly ceil(n / (size + 1)) calls |
| `Notices.Conservation` | apps/main/src/notice/notice.service.ts:15-37 | over every serial run, notices accepted are those delivered and those remaining, each as often |
| `Notices.DeliveredAtMostOnce` | apps/main/src/notice/notice.service.ts:15-37 | a notice sent once is delivered at most once, and until then it is in the queue |
| `Notices.ArrivalLostIff` | apps/main/src/notice/notice.service.ts:22-25 | a notice arriving between the read and the delete is lost exactly when it lands in the window, for every page number and size |
| `Notices.OverlapLosesIff` | apps/main/src/notice/notice.service.ts:15-27 | of two overlapping reads of a page the second deletes unread what the window then holds, from page 1 on the size + 1 notices after the page; when exactly nothing is lost, for every page number |
| `NoticeService.NoticeService.GetNotice` | apps/main/src/notice/notice.service.ts:15-27 | returns the page and takes exactly it out of that user's queue |
| `NoticeService.NoticeService.SetNotice` | apps/main/src/notice/notice.service.ts:34-37 | refused by Redis it changes nothing; accepted it adds a new notice to that user's queue, where the others keep their order, a present one not again |
| `Accounts.StoreFollowsHistory` | apps/main/src/account/account.service.ts:135-279 | over every serial run ids are 1 to the pool in order, emails distinct, one question record per user, and each digest is that of the last effective password |
| `Accounts.LoginIff` | apps/main/src/account/account.service.ts:167-189 | the credential check passes exactly for inputs with that digest |
| `Accounts.ChangeTakesEffectIff` | apps/main/src/account/account.service.ts:224-247 | a change takes effect exactly when the stored digest is sent as the old password; no other user moves; exactly this user's token goes |
| `Accounts.ResetIff` | apps/main/src/account/account.service.ts:248-279 | a reset is accepted exactly for the right answer, or the quoted `{}` where there is no question; then the digest and the token of this user change and nothing else; a refused one changes nothing |
| `Accounts.TokensFollowHistory` | apps/main/src/account/account.service.ts:135-279 | over every serial run a user has an access token exactly if a login of theirs succeeded and no change and no successful reset of theirs came after it |
| `AccountService.AccountService.Registe` | apps/main/src/account/account.service.ts:135-166 | refuses a taken email and changes nothing, else allocates the next id; no token changes; the store keeps following the history |
| `AccountService.AccountService.Login` | apps/main/src/account/account.service.ts:167-191 | succeeds exactly for the last effective password |
| `AccountService.AccountService.ChangePassWord` | apps/main/src/account/account.service.ts:224-247 | always answers true; exactly this user's token goes; the store keeps following the history |
| `AccountService.AccountService.ForgetPassword` | apps/main/src/account/account.service.ts:248-279 | resets exactly on the right answer and then ends this user's session only; a refused reset changes nothing |
| `Keyspace.KeyDecodes` | libs/redis-utils/src/namespaces.ts:1-2 | every key can be read back, up to the two prefixes that a longer key shares |
| `Keyspace.KeysEqualIff` | apps/main/src/request/request.service.ts:14-16 | for all ids: two addresses share a key exactly when they are equal or one of the two prefix cases applies |
| `Keyspace.SeparateIff` | apps/main/src/request/request.service.ts:12-21 | every run over a set of addresses answers as separate stores would exactly when no two of them clash |
| `Keyspace.ClashAnswers` | apps/main/src/request/request.service.ts:12-21 | a request hash and an index that share a key meet as different types; two tokens that do read each other's value |
| `Keyspace.RunSimulates` | apps/main/src/request/request.service.ts:12-21 | any run over addresses that share no key, from related stores, answers as separate stores would, meets no value of another type, and leaves related stores |

## Left out

- Registering concurrently: the pool is read and incremented in separate commands, so ids are claimed for serial runs only.
- A registration that fails half way, after the user is inserted and before the pool is incremented.
- Token creation and refresh: `login` is modelled up to the presence of an access token; `alive` and `refresh` are not.
- `checkAnswer` and `getQuestion`: single reads.
- An unknown outcome of `commitTransaction`: a commit either applies or fails.
- The message broker: a removal call is delivered at most once, other calls are steps; payloads arrive as they were sent.
- Status refuse and group actions: no handler exists; such calls read and check the request and end there.
- `FriendsService.get` and the black list: aggregation pipelines and single set operations.
- The notice that `remove` publishes.
- That a call of the request service gives up on a key of another type: its process waits instead. The key of a hash is
  never free again; the key of an index can be, so the machine has runs in which the process goes on, besides those of
  the code, in which it never steps again.
- Page arguments that are missing (for notices) or not whole numbers.
- The choice between a service's own page size and the global one: the size is a parameter.
- Controllers, data transfer objects, guards, filters and the history and pusher applications.
