# CoinDrip payment streams, modelled in Dafny

CoinDrip is a MultiversX smart contract for token streaming. A sender locks a
fungible deposit in a stream. The deposit vests to a recipient at a fixed rate
per second between a start time and an end time. The rate is counted in the
token's smallest unit and is the deposit divided by the duration, floored.
The recipient claims what has vested. Either party may cancel, and a cancel
pays both parties their shares.

The repository holds two versions of the contract, and both are modelled:

- `src/coindrip-protocol.rs` is module `CoinDripProtocol` (`protocol.dfy`).
  The stored record tracks `lastClaim`. A claim pays everything vested since
  the last claim. The claim at or after the end pays what remains, including
  the rounding residue of the floored rate, and removes the stream. Streams
  may be created as not cancellable.
- `src/empty.rs` is module `Empty` (`empty.dfy`).
  - The record has no `lastClaim`; what has streamed so far is computed from
    the start time.
  - A claim may name an amount; without one, everything available is claimed.
  - The stream is removed when a claim empties it.
  - Cancel has no cancellable flag.
  - A paginated view lists an address's streams with their records.
- `src/storage.rs` is module `Storage` (`storage.dfy`). The per-address id
  sets (`UnorderedSetMapper`) are modelled as duplicate-free sequences with
  `insert` and `swap_remove`. The module also holds the invariant tying the
  sets to the stored records, stated once for both record types.

Each contract is a class. Its fields are the three storage mappers
(`streamById`, `streamsList`, `lastStreamId`) plus `payouts`, the log of every
`send().direct` made. Endpoints are methods that return `Err` and change
nothing where the source's `require!` aborts the transaction. Every method
keeps `Valid()`, the storage invariant:

- each id set holds each id once;
- every stored stream is in its sender's and its recipient's set;
- every listed id is a stored stream of which that address is a party;
- every stored stream sits under an id in `1..lastStreamId`;
- every stored stream is in the shape its balance arithmetic needs.

That shape, for the protocol contract, is `startTime <= lastClaim < endTime`,
with `remainingBalance == deposit - rate * (lastClaim - startTime) > 0`. It
makes every `BigUint` subtraction of the source safe. For `Empty` the shape is
also relative to the block time: what has been claimed never exceeds what the
rate has vested.

`scenarios.dfy` replays the call sequences of the repository's tests on the
pure functions: 3000 units of a token over two minutes, half claimable at mid-stream.

## Model

| member | source | states |
|---|---|---|
| Arith.FloorRateBound | src/coindrip-protocol.rs:59-60 | with the rate floored from deposit over duration, the rate times any elapsed time up to the duration never exceeds the deposit, and stays below it short of the duration |
| Storage.IndexOf | src/storage.rs:31 | the slot that holds an id of a set, and that the id occurs in no earlier slot |
| Storage.Insert | src/coindrip-protocol.rs:80-81 | `insert` adds exactly the given id, pushes it at the end, keeps the set duplicate-free, and changes nothing if the id was there |
| Storage.SwapRemove | src/coindrip-protocol.rs:206-207 | `swap_remove` deletes exactly the given id from a duplicate-free set, keeps it duplicate-free, and changes nothing for an absent id |
| Storage.SwapRemoveSlots | src/coindrip-protocol.rs:206-207 | after `swap_remove` the set is one shorter, the last id sits in the removed id's slot, and every other slot keeps its id |
| Storage.LenCountsDistinct | src/storage.rs:31 | `len` of a duplicate-free set is the number of distinct ids it holds |
| Storage.AddIdMember | src/coindrip-protocol.rs:80-81 | inserting an id into one address's set adds exactly that membership and keeps every set duplicate-free |
| Storage.RemoveIdMember | src/coindrip-protocol.rs:206-207 | swap-removing an id from one address's set removes exactly that membership and keeps every set duplicate-free |
| Storage.IndexedWithId | src/coindrip-protocol.rs:78-81 | sets that gained exactly a new id under both parties of a new record index the records with that record added |
| Storage.IndexedAfterCreate | src/coindrip-protocol.rs:78-81 | storing a record under a fresh id and inserting the id into the sender's and then the recipient's set keeps the sets duplicate-free and the index exact, and lists the id under both parties |
| Storage.ListedIsStored | src/storage.rs:26-31 | an id listed under an address is a stored record of which that address is the sender or the recipient |
| Storage.ListSlotsStored | src/empty.rs:202-207 | every slot of an address's set holds the id of a stored record, so `get_stream` on it cannot fail |
| Storage.IndexedWithoutId | src/coindrip-protocol.rs:202-208 | sets that lost exactly the id of a dropped record still index the remaining records |
| Storage.IndexedAfterRemove | src/coindrip-protocol.rs:202-208 | clearing a record and swap-removing its id from the recipient's and then the sender's set keeps the index exact, and the id is then in no set |
| Storage.IndexedAfterUpdate | src/coindrip-protocol.rs:164-166 | overwriting a stored record with one that has the same parties keeps the index exact |
| CoinDripProtocol.DeltaOfRecipient | src/coindrip-protocol.rs:86-97 | the seconds vested since the last claim are the block time clamped into [lastClaim, endTime] less lastClaim, never more than the window left |
| CoinDripProtocol.RecipientBalanceWithinRemaining | src/coindrip-protocol.rs:99-112 | rate times delta never exceeds what remains, and stays strictly below it before the end: `sender_balance` and the claim's subtraction never underflow |
| CoinDripProtocol.SenderBalance | src/coindrip-protocol.rs:108-112 | the sender's share is the complement of the recipient's in what remains, and is positive before the end |
| CoinDripProtocol.RecipientBalance | src/coindrip-protocol.rs:99-106 | the rate times delta: nothing up to the last claim, rate times the seconds since the last claim before the end, rate times the whole window left at or after the end; RecipientBalanceWithinRemaining proves it never exceeds what remains |
| CoinDripProtocol.IsStreamFinalized | src/coindrip-protocol.rs:137-142 | `is_stream_finalized` is `now >= endTime`; for a stream whose last claim is before its end, that holds exactly when the whole window after the last claim has vested |
| CoinDripProtocol.BalanceOf | src/coindrip-protocol.rs:114-135 | the recipient gets all that remains once finalized (a positive amount) and the vested amount before; the sender gets the complement before the end and nothing after; anyone else gets nothing |
| CoinDripProtocol.SharesSumToRemaining | src/coindrip-protocol.rs:114-135 | the recipient's and the sender's shares add up to the remaining balance at every instant |
| CoinDripProtocol.FinalClaimReleasesResidue | src/coindrip-protocol.rs:119-121 | the finalizing claim pays the vested amount plus the rounding residue `deposit - rate * duration` |
| CoinDripProtocol.CreateCheck | src/coindrip-protocol.rs:43-54 | the six `create_stream` checks in source order: each error exactly when the earlier checks pass and its own fails, and success exactly when all six hold |
| CoinDripProtocol.NewStream | src/coindrip-protocol.rs:56-77 | the created record: the deposited token and nonce, remaining equal to the deposit, last claim at the start, rate the deposit over the duration floored, cancellable unless `Some(false)` is given; it is in the stored shape and nothing is vested at its start |
| CoinDripProtocol.CancelPayouts | src/coindrip-protocol.rs:186-197 | the cancel's transfers: at most two, in the stream's token, each positive; the sender is paid exactly when its `balance_of` is positive and then exactly that amount, likewise the recipient, and the sender is paid first |
| CoinDripProtocol.CancelPaysRemaining | src/coindrip-protocol.rs:186-197 | a cancel pays out exactly the remaining balance, to the sender and the recipient only |
| CoinDripProtocol.ClaimCheck | src/coindrip-protocol.rs:149-156 | a claim fails with ErrOnlyRecipientClaim exactly when the caller is not the recipient, with ErrZeroClaim exactly when the recipient's balance is 0, and passes otherwise |
| CoinDripProtocol.FinalClaimSucceeds | src/coindrip-protocol.rs:152-161 | a claim by the recipient at or after the end never fails, and it pays all that remains |
| CoinDripProtocol.CancelCheck | src/coindrip-protocol.rs:179-184 | ErrCantCancel is checked before ErrCancelOnlyOwners; a cancel passes exactly for a cancellable stream and one of its two parties |
| CoinDripProtocol.StoredConsistent | src/coindrip-protocol.rs:56-81 | under the storage invariant a stored stream has an id in 1..lastStreamId and is in the stored shape |
| CoinDripProtocol.IssuedAfterCreate | src/coindrip-protocol.rs:56-57 | the next id `lastStreamId + 1` is not in use, so creation never overwrites a stream |
| CoinDripProtocol.LedgerAfterCreate | src/coindrip-protocol.rs:56-81 | creation under the next id, with the id inserted into both parties' sets, keeps the storage invariant |
| CoinDripProtocol.AfterClaim | src/coindrip-protocol.rs:164-165 | a claim before the end moves the last claim to the block time, lowers the remaining balance by exactly the recipient's balance, and changes no other field |
| CoinDripProtocol.AfterClaimConsistent | src/coindrip-protocol.rs:161-167 | a paying claim before the end keeps the stream in its shape: the new last claim is below the end and what remains stays positive |
| CoinDripProtocol.LedgerAfterPartialClaim | src/coindrip-protocol.rs:163-167 | storing the claimed stream keeps the storage invariant |
| CoinDripProtocol.LedgerAfterRemove | src/coindrip-protocol.rs:202-208 | removal keeps the storage invariant and leaves the id in no address's set |
| CoinDripProtocol.CoinDrip.constructor | src/coindrip-protocol.rs:28-32 | a deployed contract has empty storage, a zero counter and no payments, and satisfies the invariant |
| CoinDripProtocol.CoinDrip.StreamsList | src/storage.rs:29-31 | `getStreamListByAddress`: a duplicate-free set; an address that never had a stream has the empty set |
| CoinDripProtocol.CoinDrip.StoredStream | src/coindrip-protocol.rs:210-215 | a stored stream read under the invariant is in the stored shape |
| CoinDripProtocol.CoinDrip.GetStream | src/coindrip-protocol.rs:210-215 | `getStreamData` returns the stored record, and ErrInvalidStream exactly when the mapper is empty |
| CoinDripProtocol.CoinDrip.GetBalanceOf | src/coindrip-protocol.rs:114-135 | `getBalanceOf` is ErrInvalidStream exactly for an unknown id, otherwise the address's share, never more than what remains |
| CoinDripProtocol.CoinDrip.CreateStream | src/coindrip-protocol.rs:34-84 | fails exactly as CreateCheck says and changes nothing; on success the counter is increased and the new record is stored under it; the id is inserted into the sender's and then the recipient's set; nothing is paid; the invariant holds |
| CoinDripProtocol.CoinDrip.RemoveStream | src/coindrip-protocol.rs:202-208 | ErrInvalidStream exactly for an unknown id; otherwise the record is cleared, the id swap-removed from the recipient's then the sender's set, and afterwards no set lists it |
| CoinDripProtocol.CoinDrip.StoreClaimed | src/coindrip-protocol.rs:163-166 | the record is overwritten with the claimed stream; the sets, counter and payments are untouched |
| CoinDripProtocol.CoinDrip.SendDirect | src/coindrip-protocol.rs:169 | `send().direct` appends the transfers to the log in order and leaves storage and the invariant untouched |
| CoinDripProtocol.CoinDrip.PayClaim | src/coindrip-protocol.rs:154-169 | the amount is computed once; a finalized stream is removed and any other is updated; that amount is paid to the recipient |
| CoinDripProtocol.CoinDrip.ClaimFromStream | src/coindrip-protocol.rs:144-172 | unknown id gives ErrInvalidStream; otherwise the result is the one ClaimCheck gives, a failure changes nothing, and a success pays the recipient's balance and removes or updates the stream as PayClaim says |
| CoinDripProtocol.CoinDrip.CancelStream | src/coindrip-protocol.rs:174-200 | unknown id gives ErrInvalidStream; otherwise the result is the one CancelCheck gives; a success removes the stream and pays the positive shares, the sender's first, computed before removal |
| Empty.DeltaOf | src/empty.rs:73-84 | the seconds streamed are the block time clamped into [start, end] less the start, never more than the duration |
| Empty.CoveredLater | src/empty.rs:86-104 | a stored stream's shape survives the passing of time: what was claimed stays within what the rate has vested |
| Empty.Claimed | src/empty.rs:97-98 | the amount claimed so far, `deposit - remaining_balance`, is positive exactly when the guard `deposit > remaining_balance` holds, and never exceeds the deposit |
| Empty.StreamedSoFar | src/empty.rs:86-104 | never more than what remains; all that remains once the end is reached; before it, together with what was claimed, exactly rate times delta (so the subtraction never underflows) |
| Empty.BalanceOf | src/empty.rs:106-122 | the recipient gets what streamed so far, the sender what remains besides, anyone else nothing |
| Empty.SharesSumToRemaining | src/empty.rs:106-122 | the two parties' shares add up to the remaining balance |
| Empty.NothingBeforeStart | src/empty.rs:73-104 | before the start nothing is available to the recipient and the whole deposit is the sender's |
| Empty.CreateCheck | src/empty.rs:35-46 | the six `create_stream` checks in source order with their messages: each error exactly when the earlier checks pass and its own fails |
| Empty.NewStream | src/empty.rs:48-66 | the created record: the deposited token and nonce, remaining equal to the deposit, and the rate the deposit over the duration, floored |
| Empty.NewStreamCovered | src/empty.rs:48-66 | a new stream is in the stored shape at any block time up to its start |
| Empty.ClaimAmount | src/empty.rs:135-136 | the amount claimed is the given one, or all that is available when none is given |
| Empty.ClaimCheck | src/empty.rs:130-140 | "Only recipient can claim" exactly for another caller, "amount is zero" exactly for a zero amount, "amount exceeds the available balance" exactly for an amount above what streamed so far; passes otherwise |
| Empty.AfterClaim | src/empty.rs:142-148 | a claim that leaves something lowers the remaining balance by exactly the amount and changes no other field |
| Empty.AfterClaimCovered | src/empty.rs:142-148 | the updated stream is still in the stored shape |
| Empty.EmptiedOnlyAtEnd | src/empty.rs:142-145 | a claim can empty the stream (and remove it) only at or after the end |
| Empty.CancelCheck | src/empty.rs:159-162 | a cancel passes exactly for one of the stream's two parties, and fails with "Only recipient or sender can cancel stream" otherwise |
| Empty.CancelPayouts | src/empty.rs:164-175 | the cancel's transfers: at most two, in the stream's token, each positive; the sender is paid exactly when its `balance_of` is positive and then exactly that amount, likewise the recipient, and the sender is paid first |
| Empty.CancelPaysRemaining | src/empty.rs:164-175 | a cancel pays out exactly the remaining balance, to the two parties only |
| Empty.PageStart | src/empty.rs:202 | `skip(page * page_size)` starts at slot `page * page_size` when that is inside the list, and at its end otherwise |
| Empty.PageEnd | src/empty.rs:202 | `take(page_size)` ends exactly a page size after the page start, or at the end of the list when that comes first |
| Empty.Page | src/empty.rs:202 | a page holds at most `page_size` ids, the list's ids from slot `page * page_size` on, in order |
| Empty.PagesCoverList | src/empty.rs:202 | with a positive page size every id of the list is on the page its slot divides into |
| Empty.PageEndsBeforeLater | src/empty.rs:202 | a page ends no later than where any later page starts |
| Empty.PagesDisjoint | src/empty.rs:202 | two different pages of a duplicate-free list share no id |
| Empty.Details | src/empty.rs:204-209 | the loop pairs each id of the page, in order, with its stored record |
| Empty.StoredCovered | src/empty.rs:48-70 | under the storage invariant a stored stream has an id in 1..lastStreamId and is in the stored shape at any later block time |
| Empty.IssuedLater | src/empty.rs:86-104 | the shape of every stored stream survives the passing of time |
| Empty.LedgerAfterCreate | src/empty.rs:48-70 | creation under the next id, unused until then, keeps the storage invariant |
| Empty.LedgerAfterPartialClaim | src/empty.rs:146-148 | storing a stream a claim left non-empty keeps the storage invariant |
| Empty.LedgerAfterRemove | src/empty.rs:178-184 | removal keeps the storage invariant and leaves the id in no set |
| Empty.EmptyContract.constructor | src/empty.rs:21-25 | a deployed contract has empty storage and satisfies the invariant |
| Empty.EmptyContract.GetStream | src/empty.rs:186-191 | `getStreamData` returns the stored record, and "Stream does not exist" exactly when the mapper is empty |
| Empty.EmptyContract.GetBalanceOf | src/empty.rs:106-122 | `getBalanceOf` fails exactly for an unknown id; otherwise the recipient's, the sender's or nobody's share, as BalanceOf states |
| Empty.EmptyContract.CoveredStream | src/empty.rs:186-191 | a stored stream read at a block time no earlier than the last call is in the stored shape |
| Empty.EmptyContract.CreateStream | src/empty.rs:27-71 | fails exactly as CreateCheck says and changes nothing; on success the next id, the new record, and the id inserted into both parties' sets |
| Empty.EmptyContract.RemoveStream | src/empty.rs:178-184 | "Stream does not exist" for an unknown id; otherwise the record is cleared and the id swap-removed from the recipient's then the sender's set, leaving it in no set |
| Empty.EmptyContract.StoreClaimed | src/empty.rs:146-148 | the record is overwritten with the stream less the amount; the sets, counter and payments are untouched |
| Empty.EmptyContract.SendDirect | src/empty.rs:151 | `send().direct` appends the transfers to the log in order and leaves storage and the invariant untouched |
| Empty.EmptyContract.PayClaim | src/empty.rs:142-151 | the amount is paid to the recipient; a claim of all that remains happens only at or after the end and removes the stream; any smaller claim updates it |
| Empty.EmptyContract.ClaimFromStream | src/empty.rs:124-152 | unknown id gives "Stream does not exist"; otherwise the result is the one ClaimCheck gives, a failure changes nothing, and a success pays the amount and removes or updates the stream as PayClaim says |
| Empty.EmptyContract.CancelStream | src/empty.rs:154-176 | unknown id gives "Stream does not exist"; otherwise the result is CancelCheck's; a success removes the stream and pays the positive shares, the sender's first, computed before removal |
| Empty.EmptyContract.GetStreamListWithDetails | src/empty.rs:193-212 | "Address have no streams" exactly for an empty set; otherwise each id of the requested page (100 ids by default), in order, with its stored record |
| Scenarios.ProtocolClaims | tests/coindrip_protocol_test.rs:140-247 | 3000 tokens streamed from T+60 to T+180 (rate 25). The owner's claim is refused, and nothing is due at T. 1500 is claimable at T+120 and the rest, 1500, at T+300, which finalizes the stream. Removal empties both parties' sets |
| Scenarios.ProtocolCancels | src/coindrip-protocol.rs:179-197 | on the inputs of the repository's cancel test: a third party may not cancel; a stream created with `Some(false)` refuses to be cancelled; the code pays 1500 to each party at mid-stream, the sender first, where the test (tests/coindrip_protocol_test.rs:300-301) expects the sender to get no refund |
| Scenarios.ProtocolRounding | tests/coindrip_protocol_test.rs:500-570 | 2 tokens over 30 minutes floor to rate 0, so the claim at minute 26 is refused with ErrZeroClaim, and both tokens are the recipient's after the end |
| Scenarios.ProtocolSecondId | tests/coindrip_protocol_test.rs:260-326 | in a fresh contract, a stream is created, cancelled by its recipient at mid-stream, and a second one created: the cancel succeeds and the second stream gets id 2, so a removed id is not reused |
| Scenarios.EmptyClaims | tests/empty_rust_test.rs:204-296 | the owner's claim is refused; at T "amount is zero", and 100 tokens exceed what is due; 1500 at mid-stream, then the last 1500 after the end empties the stream |

## Left out

- Events (`src/events.rs` and its calls) are not modelled: they have no effect on storage.
- Token movements are modelled as the `payouts` log. The deposit that arrives with `create_stream` is a parameter (`token`, `nonce`, `amount`). Account balances are not modelled.
- The caller, the contract's own address and the block timestamp are parameters of each endpoint.
- Integer widths: `u64` ids and timestamps, `usize` page numbers and `BigUint` amounts are unbounded naturals. An overflow of `last_stream_id + 1` or of `page * page_size` is not modelled. `BigUint` subtraction cannot underflow, which the lemmas prove.
- Empty.EmptyContract.ClaimFromStream: like every endpoint of `Empty`, it requires that the block time is no earlier than that of the last successful call. The chain's monotone timestamps give this, and the model keeps it in a ghost `clock`. The source states no such requirement.
- The record declared in `src/storage.rs` (with `claimed_amount` and `balances_after_cancel`) and `BalancesAfterCancel` are modelled as declared, but no modelled operation uses them. The endpoints of `src/coindrip-protocol.rs` build a record with `remaining_balance`, `last_claim` and `rate_per_second`, which `src/storage.rs` does not declare. The model follows the endpoints.
- The `errors` module is not part of this model. Its constants are the constructors of `CoinDripProtocol.Error`; `Empty` uses its message strings verbatim.
- The commented-out `get_stream_list_with_details` in `src/coindrip-protocol.rs:217-236` is dead code and not modelled. The live one in `src/empty.rs` is modelled.
- Some test files exercise a contract version that is not part of this model (`claim_from_stream_after_cancel`, a cancel that freezes balances, a two-argument `cancel_stream`, proportional rounding). Scenarios.ProtocolRounding and Scenarios.ProtocolCancels state what the modelled code does on those tests' inputs instead. The cancel test expects the sender to get no refund at mid-stream (tests/coindrip_protocol_test.rs:301), while the code refunds the sender's share (src/coindrip-protocol.rs:186-193); the model follows the code.
- Encoding derives (`TopEncode`, `TypeAbi`, ...) are not modelled.
- `UnorderedSetMapper` keeps an index map beside its vector. The model keeps the vector only and recomputes the index (`Storage.IndexOf`), so storage layout is not modelled. Membership, order and `swap_remove`'s slot movement are.
