/** The earlier variant of the contract (`EmptyContract`): vesting is
    measured from `startTime`, and what was already claimed (`deposit -
    remainingBalance`) is subtracted from it. A claim may ask for part of
    the available balance; a stream is removed once nothing remains.
    Either party may cancel. A paginated view lists an address's streams.
    Errors are the contract's literal messages.

    The subtraction in `streamed_so_far` stays non-negative only because
    the block time never goes backwards between calls: the contract keeps a
    ghost `clock`, the time of its last successful call, and every entry
    point requires `clock <= now`. */
module Empty {
  import opened Results
  import opened Host
  import Arith
  import Storage

  type Error = string

  const ErrStreamToSc: Error := "stream to the current smart contract"
  const ErrStreamToCaller: Error := "stream to the caller"
  const ErrOnlyFungible: Error := "you can only stream fungible tokens"
  const ErrZeroDeposit: Error := "deposit is zero"
  const ErrStartTime: Error := "start time before current time"
  const ErrEndTime: Error := "end time before the start time"
  const ErrOnlyRecipientClaim: Error := "Only recipient can claim"
  const ErrZeroAmount: Error := "amount is zero"
  const ErrAmountExceeds: Error := "amount exceeds the available balance"
  const ErrCancelOnlyOwners: Error := "Only recipient or sender can cancel stream"
  const ErrNoStream: Error := "Stream does not exist"
  const ErrNoStreams: Error := "Address have no streams"

  /** The page size of `get_stream_list_with_details` when none is given. */
  const DefaultPageSize: nat := 100

  /** The stream record of this variant. */
  datatype Stream = Stream(
    sender: Addr,
    recipient: Addr,
    paymentToken: TokenId,
    paymentNonce: nat,
    deposit: nat,
    remainingBalance: nat,
    ratePerSecond: nat,
    startTime: nat,
    endTime: nat)

  function SenderOf(s: Stream): Addr { s.sender }

  function RecipientOf(s: Stream): Addr { s.recipient }

  // ---------------------------------------------------------------------
  // Balance calculator
  // ---------------------------------------------------------------------

  /** `delta_of`: seconds vested since the start, `now` clamped into
      [startTime, endTime], less `startTime`. */
  function DeltaOf(s: Stream, now: nat): (delta: nat)
    requires s.startTime <= s.endTime
    ensures delta == Clamp(now, s.startTime, s.endTime) - s.startTime
    ensures delta <= s.endTime - s.startTime
  {
    if now <= s.startTime then 0
    else if now < s.endTime then now - s.startTime
    else s.endTime - s.startTime
  }

  /** What the recipient has taken out so far: `deposit -
      remaining_balance`. It is positive exactly when the guard
      `deposit > remaining_balance` of `streamed_so_far` holds, and it never
      exceeds the deposit. */
  function Claimed(s: Stream): (c: nat)
    requires s.remainingBalance <= s.deposit
    ensures 0 < c <==> s.remainingBalance < s.deposit
    ensures c <= s.deposit
  {
    s.deposit - s.remainingBalance
  }

  /** The shape of a stored stream, seen from a clock time `clock` that no
      later call precedes: the parties differ, the window is not empty, the
      rate is the floor of deposit over duration, something remains, and
      before the end what was claimed does not exceed what the rate vested
      by `clock`. */
  ghost predicate Covered(s: Stream, clock: nat)
  {
    && s.sender != s.recipient
    && s.startTime < s.endTime
    && s.ratePerSecond == s.deposit / (s.endTime - s.startTime)
    && 0 < s.remainingBalance <= s.deposit
    && (clock < s.endTime ==> Claimed(s) <= s.ratePerSecond * DeltaOf(s, clock))
  }

  /** Time moving forward keeps a stream covered: the vested amount only
      grows. */
  lemma CoveredLater(s: Stream, clock: nat, now: nat)
    requires Covered(s, clock) && clock <= now
    ensures Covered(s, now)
  {
    if now < s.endTime {
      Arith.MulMono(s.ratePerSecond, DeltaOf(s, clock), DeltaOf(s, now));
    }
  }

  /** `streamed_so_far`: everything that remains once the whole duration
      has passed, otherwise what the rate vested less what was claimed. */
  function StreamedSoFar(s: Stream, now: nat): (r: nat)
    requires Covered(s, now)
    ensures r <= s.remainingBalance
    ensures now >= s.endTime ==> r == s.remainingBalance
    ensures now < s.endTime ==> r + Claimed(s) == s.ratePerSecond * DeltaOf(s, now)
  {
    var delta := DeltaOf(s, now);
    if delta == s.endTime - s.startTime then s.remainingBalance
    else
      Arith.FloorRateBound(s.deposit, s.endTime - s.startTime, delta);
      var vested := s.ratePerSecond * delta;
      if s.deposit > s.remainingBalance then vested - Claimed(s) else vested
  }

  /** `balance_of`: the recipient gets what streamed so far, the sender what
      remains besides, anyone else nothing. */
  function BalanceOf(s: Stream, now: nat, address: Addr): (r: nat)
    requires Covered(s, now)
    ensures r <= s.remainingBalance
    ensures address == s.recipient ==> r == StreamedSoFar(s, now)
    ensures address == s.sender ==> r + StreamedSoFar(s, now) == s.remainingBalance
    ensures address != s.sender && address != s.recipient ==> r == 0
  {
    var recipientBalance := StreamedSoFar(s, now);
    if address == s.recipient then recipientBalance
    else if address == s.sender then s.remainingBalance - recipientBalance
    else 0
  }

  /** The recipient's and the sender's shares add up to what remains. */
  lemma SharesSumToRemaining(s: Stream, now: nat)
    requires Covered(s, now)
    ensures BalanceOf(s, now, s.recipient) + BalanceOf(s, now, s.sender) == s.remainingBalance
  {
  }

  /** Nothing of the deposit is available before the start. */
  lemma NothingBeforeStart(s: Stream, now: nat)
    requires Covered(s, now) && now <= s.startTime
    ensures StreamedSoFar(s, now) == 0
    ensures BalanceOf(s, now, s.sender) == s.remainingBalance
  {
  }

  // ---------------------------------------------------------------------
  // Creation
  // ---------------------------------------------------------------------

  /** The `require!` checks of `create_stream`, in order. */
  function CreateCheck(caller: Addr, scAddress: Addr, now: nat, recipient: Addr,
                       nonce: nat, amount: nat, startTime: nat, endTime: nat): (e: Option<Error>)
    ensures e.None? <==>
      recipient != scAddress && recipient != caller && nonce == 0 && amount > 0
      && startTime >= now && endTime > startTime
    ensures e == Some(ErrStreamToSc) <==> recipient == scAddress
    ensures e == Some(ErrStreamToCaller) <==> recipient != scAddress && recipient == caller
    ensures e == Some(ErrOnlyFungible) <==> recipient != scAddress && recipient != caller && nonce != 0
    ensures e == Some(ErrZeroDeposit) <==>
      recipient != scAddress && recipient != caller && nonce == 0 && amount == 0
    ensures e == Some(ErrStartTime) <==>
      recipient != scAddress && recipient != caller && nonce == 0 && amount > 0 && startTime < now
    ensures e == Some(ErrEndTime) <==>
      recipient != scAddress && recipient != caller && nonce == 0 && amount > 0
      && startTime >= now && endTime <= startTime
  {
    if recipient == scAddress then Some(ErrStreamToSc)
    else if recipient == caller then Some(ErrStreamToCaller)
    else if nonce != 0 then Some(ErrOnlyFungible)
    else if amount == 0 then Some(ErrZeroDeposit)
    else if startTime < now then Some(ErrStartTime)
    else if endTime <= startTime then Some(ErrEndTime)
    else None
  }

  /** The stream a successful `create_stream` stores: nothing claimed, the
      rate floored. Created no later than its start, it is covered. */
  function NewStream(sender: Addr, recipient: Addr, token: TokenId, nonce: nat, amount: nat,
                     startTime: nat, endTime: nat): (s: Stream)
    requires startTime < endTime
    ensures s.sender == sender && s.recipient == recipient
    ensures s.deposit == amount && s.remainingBalance == amount
    ensures s.startTime == startTime && s.endTime == endTime
    ensures s.ratePerSecond == amount / (endTime - startTime)
    ensures s.paymentToken == token && s.paymentNonce == nonce
  {
    Stream(sender, recipient, token, nonce, amount, amount, amount / (endTime - startTime), startTime, endTime)
  }

  /** A stream created no later than its start, between different parties
      and with a positive deposit, is covered then. */
  lemma NewStreamCovered(sender: Addr, recipient: Addr, token: TokenId, nonce: nat, amount: nat,
                         startTime: nat, endTime: nat, now: nat)
    requires startTime < endTime && now <= startTime
    requires sender != recipient && 0 < amount
    ensures Covered(NewStream(sender, recipient, token, nonce, amount, startTime, endTime), now)
  {
    assert DeltaOf(NewStream(sender, recipient, token, nonce, amount, startTime, endTime), now) == 0;
  }

  // ---------------------------------------------------------------------
  // Claims and cancels on one stream
  // ---------------------------------------------------------------------

  /** The amount a claim pays: the one asked for, or all that is available. */
  function ClaimAmount(available: nat, amount: Option<nat>): (a: nat)
    ensures amount.None? ==> a == available
    ensures amount.Some? ==> a == amount.value
  {
    amount.GetOr(available)
  }

  /** The `require!` checks of `claim_from_stream` on a stored stream, in
      order: only the recipient claims, and the amount (all that is
      available when none is given) is positive and within what is
      available. */
  function ClaimCheck(s: Stream, now: nat, caller: Addr, amount: Option<nat>): (e: Option<Error>)
    requires Covered(s, now)
    ensures e.None? <==>
      caller == s.recipient && 0 < ClaimAmount(StreamedSoFar(s, now), amount) <= StreamedSoFar(s, now)
    ensures e == Some(ErrOnlyRecipientClaim) <==> caller != s.recipient
    ensures e == Some(ErrZeroAmount) <==>
      caller == s.recipient && ClaimAmount(StreamedSoFar(s, now), amount) == 0
    ensures e == Some(ErrAmountExceeds) <==>
      caller == s.recipient && 0 < ClaimAmount(StreamedSoFar(s, now), amount) && StreamedSoFar(s, now) < ClaimAmount(StreamedSoFar(s, now), amount)
  {
    if caller != s.recipient then Some(ErrOnlyRecipientClaim)
    else
      var available := BalanceOf(s, now, caller);
      var a := ClaimAmount(available, amount);
      if a == 0 then Some(ErrZeroAmount)
      else if available < a then Some(ErrAmountExceeds)
      else None
  }

  /** The stream after a claim that leaves something: only the remaining
      balance shrinks. */
  function AfterClaim(s: Stream, amount: nat): (s': Stream)
    requires amount < s.remainingBalance
    ensures s'.remainingBalance + amount == s.remainingBalance
    ensures s'.sender == s.sender && s'.recipient == s.recipient && s'.deposit == s.deposit
    ensures s' == s.(remainingBalance := s'.remainingBalance)
  {
    s.(remainingBalance := s.remainingBalance - amount)
  }

  /** A claim within the available balance that leaves something keeps the
      stream covered at the time of the claim. */
  lemma AfterClaimCovered(s: Stream, now: nat, amount: nat)
    requires Covered(s, now)
    requires amount <= StreamedSoFar(s, now) && amount < s.remainingBalance
    ensures Covered(AfterClaim(s, amount), now)
  {
  }

  /** A claim within the available balance empties the stream only once the
      whole duration has passed: before the end, what the rate vested stays
      below the deposit. */
  lemma EmptiedOnlyAtEnd(s: Stream, now: nat, amount: nat)
    requires Covered(s, now)
    requires amount <= StreamedSoFar(s, now) && amount == s.remainingBalance
    ensures now >= s.endTime
  {
    if now < s.endTime {
      Arith.FloorRateBound(s.deposit, s.endTime - s.startTime, DeltaOf(s, now));
    }
  }

  /** What a cancel pays: the sender's share, then the recipient's, each
      only when positive. */
  function CancelPayouts(s: Stream, now: nat): (ps: seq<Payout>)
    requires Covered(s, now)
    ensures |ps| <= 2
    ensures forall p :: p in ps ==> p.token == s.paymentToken && p.nonce == s.paymentNonce && 0 < p.amount
    ensures (exists p :: p in ps && p.to == s.sender) <==> 0 < BalanceOf(s, now, s.sender)
    ensures (exists p :: p in ps && p.to == s.recipient) <==> 0 < BalanceOf(s, now, s.recipient)
    ensures |ps| == 2 ==> ps[0].to == s.sender && ps[1].to == s.recipient
    ensures forall p :: p in ps && p.to == s.sender ==> p.amount == BalanceOf(s, now, s.sender)
    ensures forall p :: p in ps && p.to == s.recipient ==> p.amount == BalanceOf(s, now, s.recipient)
  {
    var senderBalance := BalanceOf(s, now, s.sender);
    var recipientBalance := BalanceOf(s, now, s.recipient);
    (if senderBalance > 0 then [Payout(s.sender, s.paymentToken, s.paymentNonce, senderBalance)] else [])
    + (if recipientBalance > 0 then [Payout(s.recipient, s.paymentToken, s.paymentNonce, recipientBalance)] else [])
  }

  /** The one `require!` check of `cancel_stream`: the caller is one of
      the stream's two parties. */
  function CancelCheck(s: Stream, caller: Addr): (e: Option<Error>)
    ensures e.None? <==> caller == s.recipient || caller == s.sender
    ensures e.Some? <==> e == Some(ErrCancelOnlyOwners)
  {
    if caller != s.recipient && caller != s.sender then Some(ErrCancelOnlyOwners) else None
  }

  /** A cancel pays out exactly what remains, to the two parties only. */
  lemma CancelPaysRemaining(s: Stream, now: nat)
    requires Covered(s, now)
    ensures TotalAmount(CancelPayouts(s, now)) == s.remainingBalance
    ensures forall p :: p in CancelPayouts(s, now) ==> p.to == s.sender || p.to == s.recipient
  {
    var senderBalance := BalanceOf(s, now, s.sender);
    var recipientBalance := BalanceOf(s, now, s.recipient);
    var ps := CancelPayouts(s, now);
    SharesSumToRemaining(s, now);
    var toSender := Payout(s.sender, s.paymentToken, s.paymentNonce, senderBalance);
    var toRecipient := Payout(s.recipient, s.paymentToken, s.paymentNonce, recipientBalance);
    if senderBalance > 0 && recipientBalance > 0 {
      assert ps == [toSender, toRecipient];
      assert ps[1..] == [toRecipient];
      assert ps[1..][1..] == [];
      assert TotalAmount(ps[1..]) == recipientBalance + TotalAmount(ps[1..][1..]);
    } else if senderBalance > 0 {
      assert ps == [toSender];
      assert ps[1..] == [];
    } else if recipientBalance > 0 {
      assert ps == [toRecipient];
      assert ps[1..] == [];
    }
  }

  // ---------------------------------------------------------------------
  // Pagination
  // ---------------------------------------------------------------------

  /** The slots `skip(page * size).take(size)` visits in a list of `n`
      ids: [lo, hi). */
  function PageStart(n: nat, page: nat, size: nat): (lo: nat)
    ensures lo <= n
    ensures lo == n || lo == page * size
    ensures page * size < n ==> lo == page * size
  {
    if page * size < n then page * size else n
  }

  function PageEnd(n: nat, page: nat, size: nat): (hi: nat)
    ensures PageStart(n, page, size) <= hi <= n
    ensures hi - PageStart(n, page, size) <= size
    ensures hi == n || hi == PageStart(n, page, size) + size
  {
    var lo := PageStart(n, page, size);
    if lo + size < n then lo + size else n
  }

  /** The ids on one page. */
  function Page(ids: seq<nat>, page: nat, size: nat): (p: seq<nat>)
    ensures |p| == PageEnd(|ids|, page, size) - PageStart(|ids|, page, size) <= size
    ensures forall k :: 0 <= k < |p| ==> p[k] == ids[PageStart(|ids|, page, size) + k]
  {
    ids[PageStart(|ids|, page, size)..PageEnd(|ids|, page, size)]
  }

  /** With a positive page size, every id sits on the page its slot
      divides into, so the pages together list every id. */
  lemma PagesCoverList(ids: seq<nat>, size: nat, k: nat)
    requires 0 < size && k < |ids|
    ensures ids[k] in Page(ids, k / size, size)
  {
    var page := k / size;
    assert page * size <= k < page * size + size;
    assert PageStart(|ids|, page, size) == page * size;
    assert Page(ids, page, size)[k - page * size] == ids[k];
  }

  /** A page ends where any later page can start at the earliest. */
  lemma PageEndsBeforeLater(n: nat, size: nat, p: nat, q: nat)
    requires p < q
    ensures PageEnd(n, p, size) <= PageStart(n, q, size)
  {
    Arith.MulMono(size, p + 1, q);
    assert size * (p + 1) == p * size + size;
  }

  /** Distinct pages of a list share no id: pages do not overlap. */
  lemma PagesDisjoint(ids: seq<nat>, size: nat, p: nat, q: nat, x: nat)
    requires Storage.Distinct(ids) && p < q
    requires x in Page(ids, p, size)
    ensures x !in Page(ids, q, size)
  {
    var n := |ids|;
    var first, second := Page(ids, p, size), Page(ids, q, size);
    var i :| 0 <= i < |first| && first[i] == x;
    var a := PageStart(n, p, size) + i;
    PageEndsBeforeLater(n, size, p, q);
    forall j | 0 <= j < |second|
      ensures second[j] != x
    {
      var b := PageStart(n, q, size) + j;
      assert a < b < n && first[i] == ids[a] && second[j] == ids[b];
    }
  }

  /** Each id of `ids` paired with its stored stream, in the order of
      `ids`: the loop of `get_stream_list_with_details` that reads every
      id of the page with `get_stream`. */
  method Details(streams: map<nat, Stream>, ids: seq<nat>) returns (details: seq<(nat, Stream)>)
    requires forall k :: 0 <= k < |ids| ==> ids[k] in streams
    ensures |details| == |ids|
    ensures forall k :: 0 <= k < |ids| ==> details[k] == (ids[k], streams[ids[k]])
  {
    details := [];
    var j := 0;
    while j < |ids|
      invariant j <= |ids|
      invariant |details| == j
      invariant forall k :: 0 <= k < j ==> details[k] == (ids[k], streams[ids[k]])
    {
      details := details + [(ids[j], streams[ids[j]])];
      j := j + 1;
    }
  }

  // ---------------------------------------------------------------------
  // The ledger
  // ---------------------------------------------------------------------

  /** Every stored stream sits under an id already issued and is covered at
      `clock`. */
  ghost predicate Issued(streams: map<nat, Stream>, lastId: nat, clock: nat)
  {
    forall id: nat :: Storage.Stored(streams, id) ==> 1 <= id <= lastId && Covered(streams[id], clock)
  }

  /** The invariant of the contract's storage. */
  ghost predicate Ledger(streams: map<nat, Stream>, lists: map<Addr, seq<nat>>, lastId: nat, clock: nat)
  {
    && Storage.ListsDistinct(lists)
    && Storage.Indexed(streams, lists, SenderOf, RecipientOf)
    && Issued(streams, lastId, clock)
  }

  lemma StoredCovered(streams: map<nat, Stream>, lists: map<Addr, seq<nat>>, lastId: nat,
                      clock: nat, id: nat, now: nat)
    requires Ledger(streams, lists, lastId, clock)
    requires id in streams && clock <= now
    ensures 1 <= id <= lastId && Covered(streams[id], now)
  {
    assert Storage.Stored(streams, id);
    CoveredLater(streams[id], clock, now);
  }

  lemma IssuedLater(streams: map<nat, Stream>, lastId: nat, clock: nat, now: nat)
    requires Issued(streams, lastId, clock) && clock <= now
    ensures Issued(streams, lastId, now)
  {
    forall i: nat | Storage.Stored(streams, i)
      ensures 1 <= i <= lastId && Covered(streams[i], now)
    {
      CoveredLater(streams[i], clock, now);
    }
  }

  lemma IssuedAfterCreate(streams: map<nat, Stream>, lastId: nat, clock: nat, now: nat, s: Stream)
    requires Issued(streams, lastId, clock) && clock <= now
    requires Covered(s, now)
    ensures lastId + 1 !in streams
    ensures Issued(streams[lastId + 1 := s], lastId + 1, now)
  {
    IssuedLater(streams, lastId, clock, now);
    assert Storage.Stored(streams, lastId + 1) ==> lastId + 1 <= lastId;
    var streams' := streams[lastId + 1 := s];
    forall i: nat | Storage.Stored(streams', i)
      ensures 1 <= i <= lastId + 1 && Covered(streams'[i], now)
    {
      if i != lastId + 1 {
        assert Storage.Stored(streams, i);
      }
    }
  }

  /** A new stream goes under the next id, which no stored stream uses,
      and the ledger holds for the storage that results. */
  lemma LedgerAfterCreate(streams: map<nat, Stream>, lists: map<Addr, seq<nat>>, lastId: nat,
                          clock: nat, now: nat, s: Stream,
                          streams': map<nat, Stream>, lists': map<Addr, seq<nat>>)
    requires Ledger(streams, lists, lastId, clock) && clock <= now
    requires Covered(s, now)
    requires streams' == streams[lastId + 1 := s]
    requires lists' == Storage.AddId(Storage.AddId(lists, s.sender, lastId + 1), s.recipient, lastId + 1)
    ensures lastId + 1 !in streams
    ensures Ledger(streams', lists', lastId + 1, now)
  {
    IssuedAfterCreate(streams, lastId, clock, now, s);
    Storage.IndexedAfterCreate(streams, lists, SenderOf, RecipientOf, lastId + 1, s);
  }

  lemma IssuedAfterUpdate(streams: map<nat, Stream>, lastId: nat, clock: nat, now: nat, id: nat, s: Stream)
    requires Issued(streams, lastId, clock) && clock <= now
    requires id in streams && Covered(s, now)
    ensures Issued(streams[id := s], lastId, now)
  {
    IssuedLater(streams, lastId, clock, now);
    assert Storage.Stored(streams, id);
    var streams' := streams[id := s];
    forall i: nat | Storage.Stored(streams', i)
      ensures 1 <= i <= lastId && Covered(streams'[i], now)
    {
      if i != id {
        assert Storage.Stored(streams, i);
      }
    }
  }

  /** A claim that leaves something keeps the ledger at the claim's time. */
  lemma LedgerAfterPartialClaim(streams: map<nat, Stream>, lists: map<Addr, seq<nat>>, lastId: nat,
                                clock: nat, now: nat, id: nat, amount: nat, streams': map<nat, Stream>)
    requires Ledger(streams, lists, lastId, clock) && clock <= now
    requires id in streams
    requires Covered(streams[id], now)
    requires amount <= StreamedSoFar(streams[id], now) && amount < streams[id].remainingBalance
    requires streams' == streams[id := AfterClaim(streams[id], amount)]
    ensures Ledger(streams', lists, lastId, now)
  {
    AfterClaimCovered(streams[id], now, amount);
    IssuedAfterUpdate(streams, lastId, clock, now, id, AfterClaim(streams[id], amount));
    Storage.IndexedAfterUpdate(streams, lists, SenderOf, RecipientOf, id, AfterClaim(streams[id], amount));
  }

  lemma IssuedAfterRemove(streams: map<nat, Stream>, lastId: nat, clock: nat, now: nat, id: nat)
    requires Issued(streams, lastId, clock) && clock <= now
    ensures Issued(streams - {id}, lastId, now)
  {
    IssuedLater(streams, lastId, clock, now);
    var streams' := streams - {id};
    forall i: nat | Storage.Stored(streams', i)
      ensures 1 <= i <= lastId && Covered(streams'[i], now)
    {
      assert Storage.Stored(streams, i);
    }
  }

  /** Removing a stream keeps the ledger and leaves an id that no set
      lists any more. */
  lemma LedgerAfterRemove(streams: map<nat, Stream>, lists: map<Addr, seq<nat>>, lastId: nat,
                          clock: nat, now: nat, id: nat,
                          streams': map<nat, Stream>, lists': map<Addr, seq<nat>>)
    requires Ledger(streams, lists, lastId, clock) && clock <= now
    requires id in streams
    requires streams' == streams - {id}
    requires lists' == Storage.RemoveId(Storage.RemoveId(lists, streams[id].recipient, id), streams[id].sender, id)
    ensures Ledger(streams', lists', lastId, now)
    ensures forall a :: id !in Storage.ListOf(lists', a)
  {
    IssuedAfterRemove(streams, lastId, clock, now, id);
    Storage.IndexedAfterRemove(streams, lists, SenderOf, RecipientOf, id);
  }

  // ---------------------------------------------------------------------
  // The contract
  // ---------------------------------------------------------------------

  class EmptyContract {
    /** `stream_by_id`: an absent key is an empty mapper. */
    var streamById: map<nat, Stream>
    /** `streams_list`, one id set per address. */
    var streamsList: map<Addr, seq<nat>>
    /** `last_stream_id`. */
    var lastStreamId: nat
    /** Every `send().direct` requested so far, in order. */
    var payouts: seq<Payout>
    /** The block time of the last successful call. */
    ghost var clock: nat

    ghost predicate Valid()
      reads this
    {
      Ledger(streamById, streamsList, lastStreamId, clock)
    }

    /** `init`: empty storage. */
    constructor ()
      ensures Valid()
      ensures streamById == map[] && streamsList == map[] && lastStreamId == 0
      ensures payouts == [] && clock == 0
    {
      streamById := map[];
      streamsList := map[];
      lastStreamId := 0;
      payouts := [];
      clock := 0;
    }

    /** `get_stream`: the stored stream, or an error when its mapper is
        empty. */
    function GetStream(streamId: nat): (r: Result<Stream, Error>)
      reads this
      ensures r.Ok? <==> streamId in streamById
      ensures r.Ok? ==> r.value == streamById[streamId]
      ensures r.Err? ==> r.error == ErrNoStream
    {
      if streamId in streamById then Ok(streamById[streamId]) else Err(ErrNoStream)
    }

    /** The `getBalanceOf` view at block time `now`. */
    function GetBalanceOf(streamId: nat, address: Addr, now: nat): (r: Result<nat, Error>)
      reads this
      requires Valid() && clock <= now
      ensures r.Err? <==> streamId !in streamById
      ensures r.Err? ==> r.error == ErrNoStream
      ensures r.Ok? ==>
        var s := CoveredStream(streamId, now);
        && r.value <= s.remainingBalance
        && (address == s.recipient ==> r.value == StreamedSoFar(s, now))
        && (address == s.sender ==> r.value + StreamedSoFar(s, now) == s.remainingBalance)
        && (address != s.sender && address != s.recipient ==> r.value == 0)
    {
      if streamId in streamById then Ok(BalanceOf(CoveredStream(streamId, now), now, address))
      else Err(ErrNoStream)
    }

    /** A stored stream, seen at a block time no earlier than the last
        call: it is covered there, so every balance of it is defined. */
    function CoveredStream(streamId: nat, now: nat): (s: Stream)
      reads this
      requires Valid() && clock <= now && streamId in streamById
      ensures s == streamById[streamId]
      ensures Covered(s, now)
    {
      StoredCovered(streamById, streamsList, lastStreamId, clock, streamId, now);
      streamById[streamId]
    }

    /** `create_stream` at block time `now`. */
    method CreateStream(caller: Addr, scAddress: Addr, now: nat, token: TokenId, nonce: nat, amount: nat,
                        recipient: Addr, startTime: nat, endTime: nat)
      returns (r: Result<(), Error>)
      requires Valid() && clock <= now
      modifies this
      ensures Valid()
      ensures r.Err? <==> CreateCheck(caller, scAddress, now, recipient, nonce, amount, startTime, endTime).Some?
      ensures r.Err? ==> r.error == CreateCheck(caller, scAddress, now, recipient, nonce, amount, startTime, endTime).value
      ensures r.Err? ==> unchanged(this)
      ensures r.Ok? ==>
        var id := old(lastStreamId) + 1;
        && id !in old(streamById)
        && lastStreamId == id
        && streamById == old(streamById)[id := NewStream(caller, recipient, token, nonce, amount, startTime, endTime)]
        && streamsList == Storage.AddId(Storage.AddId(old(streamsList), caller, id), recipient, id)
        && payouts == old(payouts)
        && clock == now
    {
      var failed := CreateCheck(caller, scAddress, now, recipient, nonce, amount, startTime, endTime);
      if failed.Some? {
        return Err(failed.value);
      }

      var streamId := lastStreamId + 1;
      lastStreamId := streamId;
      var stream := NewStream(caller, recipient, token, nonce, amount, startTime, endTime);
      streamById := streamById[streamId := stream];
      streamsList := Storage.AddId(streamsList, caller, streamId);
      streamsList := Storage.AddId(streamsList, recipient, streamId);
      clock := now;
      NewStreamCovered(caller, recipient, token, nonce, amount, startTime, endTime, now);
      LedgerAfterCreate(old(streamById), old(streamsList), old(lastStreamId), old(clock), now, stream,
                        streamById, streamsList);
      r := Ok(());
    }

    /** `remove_stream`: clear the record and swap-remove the id from the
        recipient's and then the sender's set. The source takes no time;
        `now` is here only to move the ghost `clock` forward to the block
        time of the endpoint that calls it. */
    method RemoveStream(streamId: nat, now: nat) returns (r: Result<(), Error>)
      requires Valid() && clock <= now
      modifies this
      ensures Valid()
      ensures r.Err? <==> streamId !in old(streamById)
      ensures r.Err? ==> r.error == ErrNoStream && unchanged(this)
      ensures r.Ok? ==>
        var s := old(streamById[streamId]);
        && streamById == old(streamById) - {streamId}
        && streamsList == Storage.RemoveId(Storage.RemoveId(old(streamsList), s.recipient, streamId), s.sender, streamId)
        && (forall a :: streamId !in Storage.ListOf(streamsList, a))
        && lastStreamId == old(lastStreamId)
        && payouts == old(payouts)
        && clock == now
    {
      if streamId !in streamById {
        return Err(ErrNoStream);
      }
      var stream := streamById[streamId];
      streamById := streamById - {streamId};
      streamsList := Storage.RemoveId(streamsList, stream.recipient, streamId);
      streamsList := Storage.RemoveId(streamsList, stream.sender, streamId);
      clock := now;
      LedgerAfterRemove(old(streamById), old(streamsList), lastStreamId, old(clock), now, streamId,
                        streamById, streamsList);
      r := Ok(());
    }

    /** The update of a stream that a claim of `amount` leaves running. */
    method StoreClaimed(streamId: nat, now: nat, amount: nat)
      requires Valid() && clock <= now && streamId in streamById
      requires amount < streamById[streamId].remainingBalance
      requires amount <= StreamedSoFar(CoveredStream(streamId, now), now)
      modifies this
      ensures Valid()
      ensures streamById == old(streamById)[streamId := AfterClaim(old(streamById[streamId]), amount)]
      ensures streamsList == old(streamsList) && lastStreamId == old(lastStreamId) && payouts == old(payouts)
      ensures clock == now
    {
      streamById := streamById[streamId := AfterClaim(streamById[streamId], amount)];
      clock := now;
      LedgerAfterPartialClaim(old(streamById), streamsList, lastStreamId, old(clock), now, streamId, amount, streamById);
    }

    /** `send().direct`, once per transfer in order: the transfers out of
        the contract are appended to the log; storage is untouched. */
    method SendDirect(ps: seq<Payout>)
      requires Valid()
      modifies this
      ensures Valid()
      ensures payouts == old(payouts) + ps
      ensures streamById == old(streamById) && streamsList == old(streamsList)
      ensures lastStreamId == old(lastStreamId) && clock == old(clock)
    {
      payouts := payouts + ps;
    }

    /** The effect of a claim of `amount` that passed its checks: the
        amount is paid to the recipient, and the stream is removed when that
        empties it, updated otherwise. */
    method PayClaim(streamId: nat, now: nat, amount: nat)
      requires Valid() && clock <= now && streamId in streamById
      requires 0 < amount <= StreamedSoFar(CoveredStream(streamId, now), now)
      modifies this
      ensures Valid()
      ensures
        var s := old(CoveredStream(streamId, now));
        && payouts == old(payouts) + [Payout(s.recipient, s.paymentToken, s.paymentNonce, amount)]
        && lastStreamId == old(lastStreamId)
        && clock == now
        && (amount == s.remainingBalance ==>
              && now >= s.endTime
              && streamById == old(streamById) - {streamId}
              && streamsList == Storage.RemoveId(Storage.RemoveId(old(streamsList), s.recipient, streamId), s.sender, streamId))
        && (amount < s.remainingBalance ==>
              && streamById == old(streamById)[streamId := AfterClaim(s, amount)]
              && streamsList == old(streamsList))
    {
      var stream := CoveredStream(streamId, now);
      if stream.remainingBalance - amount == 0 {
        EmptiedOnlyAtEnd(stream, now, amount);
        var removed := RemoveStream(streamId, now);
      } else {
        StoreClaimed(streamId, now, amount);
      }
      SendDirect([Payout(stream.recipient, stream.paymentToken, stream.paymentNonce, amount)]);
    }

    /** `claim_from_stream` by `caller` at block time `now`, for `amount`
        or, when none is given, everything available. */
    method ClaimFromStream(caller: Addr, now: nat, streamId: nat, amount: Option<nat>) returns (r: Result<(), Error>)
      requires Valid() && clock <= now
      modifies this
      ensures Valid()
      ensures streamId !in old(streamById) ==> r == Err(ErrNoStream)
      ensures streamId in old(streamById) ==>
        var failed := ClaimCheck(old(CoveredStream(streamId, now)), now, caller, amount);
        r == if failed.Some? then Err(failed.value) else Ok(())
      ensures r.Err? ==> unchanged(this)
      ensures r.Ok? ==>
        var s := old(CoveredStream(streamId, now));
        var a := ClaimAmount(StreamedSoFar(s, now), amount);
        && payouts == old(payouts) + [Payout(caller, s.paymentToken, s.paymentNonce, a)]
        && lastStreamId == old(lastStreamId)
        && clock == now
        && (a == s.remainingBalance ==>
              && now >= s.endTime
              && streamById == old(streamById) - {streamId}
              && streamsList == Storage.RemoveId(Storage.RemoveId(old(streamsList), s.recipient, streamId), s.sender, streamId))
        && (a < s.remainingBalance ==>
              && streamById == old(streamById)[streamId := AfterClaim(s, a)]
              && streamsList == old(streamsList))
    {
      if streamId !in streamById {
        return Err(ErrNoStream);
      }
      var failed := ClaimCheck(CoveredStream(streamId, now), now, caller, amount);
      if failed.Some? {
        return Err(failed.value);
      }
      PayClaim(streamId, now, ClaimAmount(BalanceOf(CoveredStream(streamId, now), now, caller), amount));
      r := Ok(());
    }

    /** `cancel_stream` by `caller` at block time `now`: both shares are
        computed before the stream is removed, then each positive one is
        paid, the sender's first. */
    method CancelStream(caller: Addr, now: nat, streamId: nat) returns (r: Result<(), Error>)
      requires Valid() && clock <= now
      modifies this
      ensures Valid()
      ensures streamId !in old(streamById) ==> r == Err(ErrNoStream)
      ensures streamId in old(streamById) ==>
        var failed := CancelCheck(old(streamById[streamId]), caller);
        r == if failed.Some? then Err(failed.value) else Ok(())
      ensures r.Err? ==> unchanged(this)
      ensures r.Ok? ==>
        var s := old(CoveredStream(streamId, now));
        && payouts == old(payouts) + CancelPayouts(s, now)
        && streamById == old(streamById) - {streamId}
        && streamsList == Storage.RemoveId(Storage.RemoveId(old(streamsList), s.recipient, streamId), s.sender, streamId)
        && lastStreamId == old(lastStreamId)
        && clock == now
    {
      if streamId !in streamById {
        return Err(ErrNoStream);
      }
      var stream := CoveredStream(streamId, now);
      var failed := CancelCheck(stream, caller);
      if failed.Some? {
        return Err(failed.value);
      }

      var sends := CancelPayouts(stream, now);
      var removed := RemoveStream(streamId, now);
      SendDirect(sends);
      r := Ok(());
    }

    /** `get_stream_list_with_details`: the ids of `address` on page `page`
        (`pageSize` ids a page, 100 by default), each with its record; an
        error when the address has no stream. */
    method GetStreamListWithDetails(address: Addr, page: nat, pageSize: Option<nat>)
      returns (r: Result<seq<(nat, Stream)>, Error>)
      requires Valid()
      ensures r.Err? <==> |Storage.ListOf(streamsList, address)| == 0
      ensures r.Err? ==> r.error == ErrNoStreams
      ensures r.Ok? ==>
        var ids := Storage.ListOf(streamsList, address);
        var p := Page(ids, page, pageSize.GetOr(DefaultPageSize));
        && |r.value| == |p|
        && forall k :: 0 <= k < |p| ==> r.value[k].0 == p[k] && p[k] in streamById && r.value[k].1 == streamById[p[k]]
    {
      var ids := Storage.ListOf(streamsList, address);
      if |ids| == 0 {
        return Err(ErrNoStreams);
      }
      var size := pageSize.GetOr(DefaultPageSize);
      var onPage := Page(ids, page, size);
      Storage.ListSlotsStored(streamById, streamsList, SenderOf, RecipientOf, address);
      var result := Details(streamById, onPage);
      r := Ok(result);
    }
  }
}
