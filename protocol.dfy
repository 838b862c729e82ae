/** The current CoinDrip contract: a sender locks a fungible deposit that
    vests to a recipient at a fixed rate per second, in the token's smallest
    unit and floored from the deposit over the duration, between
    `startTime` and `endTime`. A claim pays what vested since the last claim
    and moves `lastClaim` forward; the claim at or after `endTime` pays all
    that remains (the rounding residue included) and removes the stream. A
    party may cancel a cancellable stream, which pays both parties their
    share and removes it. */
module CoinDripProtocol {
  import opened Results
  import opened Host
  import Arith
  import Storage

  /** The error constants the contract raises. */
  datatype Error =
    | ErrStreamToSc
    | ErrStreamToCaller
    | ErrStreamOnlyFungible
    | ErrZeroDeposit
    | ErrStartTime
    | ErrEndTime
    | ErrOnlyRecipientClaim
    | ErrZeroClaim
    | ErrCantCancel
    | ErrCancelOnlyOwners
    | ErrInvalidStream

  /** The record `create_stream` builds and stores. */
  datatype Stream = Stream(
    sender: Addr,
    recipient: Addr,
    paymentToken: TokenId,
    paymentNonce: nat,
    deposit: nat,
    remainingBalance: nat,
    lastClaim: nat,
    ratePerSecond: nat,
    canCancel: bool,
    startTime: nat,
    endTime: nat)

  function SenderOf(s: Stream): Addr { s.sender }

  function RecipientOf(s: Stream): Addr { s.recipient }

  /** The shape every stored stream keeps: the parties differ, the last
      claim lies in [start, end), the rate is the floor of deposit over
      duration, and what remains is the deposit less what the rate vested
      up to the last claim, and is positive. */
  ghost predicate Consistent(s: Stream)
  {
    && s.sender != s.recipient
    && s.startTime <= s.lastClaim < s.endTime
    && s.ratePerSecond == s.deposit / (s.endTime - s.startTime)
    && 0 < s.remainingBalance
    && s.remainingBalance + s.ratePerSecond * (s.lastClaim - s.startTime) == s.deposit
  }

  // ---------------------------------------------------------------------
  // Balance calculator: one stream at one instant
  // ---------------------------------------------------------------------

  /** Seconds vested since the last claim: `now` clamped into
      [lastClaim, endTime], less `lastClaim`. */
  function DeltaOfRecipient(s: Stream, now: nat): (delta: nat)
    requires s.lastClaim <= s.endTime
    ensures delta == Clamp(now, s.lastClaim, s.endTime) - s.lastClaim
    ensures delta <= s.endTime - s.lastClaim
  {
    if now <= s.lastClaim then 0
    else if now < s.endTime then now - s.lastClaim
    else s.endTime - s.lastClaim
  }

  /** `recipient_balance`: what the rate has vested since the last claim.
      Nothing has vested up to the last claim, and never more than the rate
      over the whole window left. */
  function RecipientBalance(s: Stream, now: nat): (r: nat)
    requires s.lastClaim <= s.endTime
    ensures now <= s.lastClaim ==> r == 0
    ensures r <= s.ratePerSecond * (s.endTime - s.lastClaim)
    ensures s.lastClaim < now < s.endTime ==> r == s.ratePerSecond * (now - s.lastClaim)
    ensures s.endTime <= now ==> r == s.ratePerSecond * (s.endTime - s.lastClaim)
  {
    Arith.MulMono(s.ratePerSecond, DeltaOfRecipient(s, now), s.endTime - s.lastClaim);
    s.ratePerSecond * DeltaOfRecipient(s, now)
  }

  /** What the rate vested since the last claim never exceeds what remains,
      and stays strictly below it before `endTime`: the subtraction in
      `sender_balance` and the one that shrinks the remaining balance on a
      claim never underflow. */
  lemma RecipientBalanceWithinRemaining(s: Stream, now: nat)
    requires Consistent(s)
    ensures RecipientBalance(s, now) <= s.remainingBalance
    ensures now < s.endTime ==> RecipientBalance(s, now) < s.remainingBalance
  {
    var duration := s.endTime - s.startTime;
    var rate := s.ratePerSecond;
    var before := s.lastClaim - s.startTime;
    var delta := DeltaOfRecipient(s, now);
    Arith.FloorRateBound(s.deposit, duration, before + delta);
    assert rate * before + rate * delta == rate * (before + delta);
  }

  /** The sender's share before the end: the complement of the recipient's. */
  function SenderBalance(s: Stream, now: nat): (r: nat)
    requires Consistent(s)
    ensures r + RecipientBalance(s, now) == s.remainingBalance
    ensures now < s.endTime ==> 0 < r
  {
    RecipientBalanceWithinRemaining(s, now);
    s.remainingBalance - RecipientBalance(s, now)
  }

  /** `is_stream_finalized`: the block time has reached `endTime`. For a
      stream still running after its last claim, that is exactly when the
      whole window after the last claim has vested. */
  predicate IsStreamFinalized(s: Stream, now: nat): (b: bool)
    ensures s.lastClaim < s.endTime ==> (b <==> DeltaOfRecipient(s, now) == s.endTime - s.lastClaim)
  {
    now >= s.endTime
  }

  /** `balance_of`: the recipient gets everything that remains once the
      stream is finalized and the vested amount before; the sender gets the
      rest before the end and nothing after; anyone else gets nothing. */
  function BalanceOf(s: Stream, now: nat, address: Addr): (r: nat)
    requires Consistent(s)
    ensures r <= s.remainingBalance
    ensures address != s.sender && address != s.recipient ==> r == 0
    ensures address == s.recipient && IsStreamFinalized(s, now) ==> r == s.remainingBalance > 0
    ensures address == s.sender && IsStreamFinalized(s, now) ==> r == 0
    ensures address == s.recipient && !IsStreamFinalized(s, now) ==> r == RecipientBalance(s, now)
    ensures address == s.sender && !IsStreamFinalized(s, now) ==> r + RecipientBalance(s, now) == s.remainingBalance
  {
    if address == s.recipient then
      if IsStreamFinalized(s, now) then s.remainingBalance
      else
        RecipientBalanceWithinRemaining(s, now);
        RecipientBalance(s, now)
    else if address == s.sender && !IsStreamFinalized(s, now) then
      SenderBalance(s, now)
    else
      0
  }

  /** The recipient's and the sender's shares always add up to what remains. */
  lemma SharesSumToRemaining(s: Stream, now: nat)
    requires Consistent(s)
    ensures BalanceOf(s, now, s.recipient) + BalanceOf(s, now, s.sender) == s.remainingBalance
  {
  }

  /** The finalizing claim pays what the rate vested since the last claim
      plus the rounding residue `deposit - rate * duration` that the rate
      never releases. */
  lemma FinalClaimReleasesResidue(s: Stream, now: nat)
    requires Consistent(s) && IsStreamFinalized(s, now)
    ensures BalanceOf(s, now, s.recipient)
         == RecipientBalance(s, now) + (s.deposit - s.ratePerSecond * (s.endTime - s.startTime))
  {
    var rate := s.ratePerSecond;
    assert DeltaOfRecipient(s, now) == s.endTime - s.lastClaim;
    assert rate * (s.lastClaim - s.startTime) + rate * (s.endTime - s.lastClaim) == rate * (s.endTime - s.startTime);
  }

  // ---------------------------------------------------------------------
  // Creation
  // ---------------------------------------------------------------------

  /** The `require!` checks of `create_stream`, in order: the first that
      fails names the error, and none fails exactly when all six hold. */
  function CreateCheck(caller: Addr, scAddress: Addr, now: nat, recipient: Addr,
                       nonce: nat, amount: nat, startTime: nat, endTime: nat): (e: Option<Error>)
    ensures e.None? <==>
      recipient != scAddress && recipient != caller && nonce == 0 && amount > 0
      && startTime >= now && endTime > startTime
    ensures e == Some(ErrStreamToSc) <==> recipient == scAddress
    ensures e == Some(ErrStreamToCaller) <==> recipient != scAddress && recipient == caller
    ensures e == Some(ErrStreamOnlyFungible) <==> recipient != scAddress && recipient != caller && nonce != 0
    ensures e == Some(ErrZeroDeposit) <==>
      recipient != scAddress && recipient != caller && nonce == 0 && amount == 0
    ensures e == Some(ErrStartTime) <==>
      recipient != scAddress && recipient != caller && nonce == 0 && amount > 0 && startTime < now
    ensures e == Some(ErrEndTime) <==>
      recipient != scAddress && recipient != caller && nonce == 0 && amount > 0
      && startTime >= now && endTime <= startTime
  {
    if recipient == scAddress then Some(ErrStreamToSc)
    else if recipient == caller then Some(ErrStreamToCaller)
    else if nonce != 0 then Some(ErrStreamOnlyFungible)
    else if amount == 0 then Some(ErrZeroDeposit)
    else if startTime < now then Some(ErrStartTime)
    else if endTime <= startTime then Some(ErrEndTime)
    else None
  }

  /** The stream a successful `create_stream` stores: nothing claimed yet,
      the last claim at the start, the rate floored, cancellable unless said
      otherwise. It is in the shape every stored stream keeps, and nothing
      has vested for anyone at its start. */
  function NewStream(sender: Addr, recipient: Addr, token: TokenId, nonce: nat, amount: nat,
                     startTime: nat, endTime: nat, canCancel: Option<bool>): (s: Stream)
    requires startTime < endTime
    ensures s.sender == sender && s.recipient == recipient && s.deposit == amount
    ensures s.remainingBalance == amount && s.lastClaim == startTime
    ensures s.startTime == startTime && s.endTime == endTime
    ensures s.paymentToken == token && s.paymentNonce == nonce
    ensures s.ratePerSecond == amount / (endTime - startTime)
    ensures s.canCancel == (canCancel != Some(false))
    ensures sender != recipient && 0 < amount ==> Consistent(s)
    ensures RecipientBalance(s, startTime) == 0
  {
    Stream(sender, recipient, token, nonce, amount, amount, startTime,
           amount / (endTime - startTime), canCancel.GetOr(true), startTime, endTime)
  }

  /** What a cancel pays: the sender's share, then the recipient's, each
      only when positive. */
  function CancelPayouts(s: Stream, now: nat): (ps: seq<Payout>)
    requires Consistent(s)
    ensures |ps| <= 2
    ensures forall p :: p in ps ==> p.token == s.paymentToken && p.nonce == s.paymentNonce && 0 < p.amount
    ensures (exists p :: p in ps && p.to == s.sender) <==> 0 < BalanceOf(s, now, s.sender)
    ensures (exists p :: p in ps && p.to == s.recipient) <==> 0 < BalanceOf(s, now, s.recipient)
    ensures |ps| == 2 ==> ps[0].to == s.sender && ps[1].to == s.recipient
    ensures forall p :: p in ps && p.to == s.sender ==> p.amount == BalanceOf(s, now, s.sender)
    ensures forall p :: p in ps && p.to == s.recipient ==> p.amount == BalanceOf(s, now, s.recipient)
  {
    var senderBalance := BalanceOf(s, now, s.sender);
    var recipientBalance := BalanceOf(s, now, s.recipient);
    (if senderBalance > 0 then [Payout(s.sender, s.paymentToken, s.paymentNonce, senderBalance)] else [])
    + (if recipientBalance > 0 then [Payout(s.recipient, s.paymentToken, s.paymentNonce, recipientBalance)] else [])
  }

  /** A cancel pays out exactly what remains, to the two parties only. */
  lemma CancelPaysRemaining(s: Stream, now: nat)
    requires Consistent(s)
    ensures TotalAmount(CancelPayouts(s, now)) == s.remainingBalance
    ensures forall p :: p in CancelPayouts(s, now) ==> p.to == s.sender || p.to == s.recipient
  {
    var senderBalance := BalanceOf(s, now, s.sender);
    var recipientBalance := BalanceOf(s, now, s.recipient);
    var ps := CancelPayouts(s, now);
    SharesSumToRemaining(s, now);
    var toSender := Payout(s.sender, s.paymentToken, s.paymentNonce, senderBalance);
    var toRecipient := Payout(s.recipient, s.paymentToken, s.paymentNonce, recipientBalance);
    if senderBalance > 0 && recipientBalance > 0 {
      assert ps == [toSender, toRecipient];
      assert ps[1..] == [toRecipient];
      assert ps[1..][1..] == [];
      assert TotalAmount(ps[1..]) == recipientBalance + TotalAmount(ps[1..][1..]);
    } else if senderBalance > 0 {
      assert ps == [toSender];
      assert ps[1..] == [];
    } else if recipientBalance > 0 {
      assert ps == [toRecipient];
      assert ps[1..] == [];
    }
  }

  /** The `require!` checks of `claim_from_stream` on a stored stream, in
      order: only the recipient claims, and only a positive balance. */
  function ClaimCheck(s: Stream, now: nat, caller: Addr): (e: Option<Error>)
    requires Consistent(s)
    ensures e.None? <==> caller == s.recipient && 0 < BalanceOf(s, now, caller)
    ensures e == Some(ErrOnlyRecipientClaim) <==> caller != s.recipient
    ensures e == Some(ErrZeroClaim) <==> caller == s.recipient && BalanceOf(s, now, caller) == 0
  {
    if caller != s.recipient then Some(ErrOnlyRecipientClaim)
    else if BalanceOf(s, now, caller) == 0 then Some(ErrZeroClaim)
    else None
  }

  /** A claim by the recipient at or after the end never fails: what
      remains is positive and all of it is the recipient's. */
  lemma FinalClaimSucceeds(s: Stream, now: nat)
    requires Consistent(s) && IsStreamFinalized(s, now)
    ensures ClaimCheck(s, now, s.recipient).None?
    ensures BalanceOf(s, now, s.recipient) == s.remainingBalance
  {
  }

  /** The `require!` checks of `cancel_stream` on a stored stream, in
      order: the stream must be cancellable, then the caller one of its
      two parties. */
  function CancelCheck(s: Stream, caller: Addr): (e: Option<Error>)
    ensures e.None? <==> s.canCancel && (caller == s.recipient || caller == s.sender)
    ensures e == Some(ErrCantCancel) <==> !s.canCancel
    ensures e == Some(ErrCancelOnlyOwners) <==> s.canCancel && caller != s.recipient && caller != s.sender
  {
    if !s.canCancel then Some(ErrCantCancel)
    else if caller != s.recipient && caller != s.sender then Some(ErrCancelOnlyOwners)
    else None
  }

  // ---------------------------------------------------------------------
  // The ledger: stored streams, the per-address sets and the counter
  // ---------------------------------------------------------------------

  /** The stored streams: each under an id already issued, each in its
      shape. */
  ghost predicate Issued(streams: map<nat, Stream>, lastId: nat)
  {
    forall id: nat :: Storage.Stored(streams, id) ==> 1 <= id <= lastId && Consistent(streams[id])
  }

  /** The invariant of the contract's storage: the per-address sets hold
      each id once, they index exactly the stored streams, and every stored
      stream is in its shape under an id already issued. */
  ghost predicate Ledger(streams: map<nat, Stream>, lists: map<Addr, seq<nat>>, lastId: nat)
  {
    && Storage.ListsDistinct(lists)
    && Storage.Indexed(streams, lists, SenderOf, RecipientOf)
    && Issued(streams, lastId)
  }

  /** What the ledger knows about one stored stream. */
  lemma StoredConsistent(streams: map<nat, Stream>, lists: map<Addr, seq<nat>>, lastId: nat, id: nat)
    requires Ledger(streams, lists, lastId)
    requires id in streams
    ensures 1 <= id <= lastId && Consistent(streams[id])
  {
    assert Storage.Stored(streams, id);
  }

  lemma IssuedAfterCreate(streams: map<nat, Stream>, lastId: nat, s: Stream)
    requires Issued(streams, lastId)
    requires Consistent(s)
    ensures lastId + 1 !in streams
    ensures Issued(streams[lastId + 1 := s], lastId + 1)
  {
    assert Storage.Stored(streams, lastId + 1) ==> lastId + 1 <= lastId;
    var streams' := streams[lastId + 1 := s];
    forall i: nat | Storage.Stored(streams', i)
      ensures 1 <= i <= lastId + 1 && Consistent(streams'[i])
    {
      if i != lastId + 1 {
        assert Storage.Stored(streams, i);
      }
    }
  }

  /** A new stream goes under the next id, which no stored stream uses,
      and the ledger holds for the storage that results. */
  lemma LedgerAfterCreate(streams: map<nat, Stream>, lists: map<Addr, seq<nat>>, lastId: nat, s: Stream,
                          streams': map<nat, Stream>, lists': map<Addr, seq<nat>>)
    requires Ledger(streams, lists, lastId)
    requires Consistent(s)
    requires streams' == streams[lastId + 1 := s]
    requires lists' == Storage.AddId(Storage.AddId(lists, s.sender, lastId + 1), s.recipient, lastId + 1)
    ensures lastId + 1 !in streams
    ensures Ledger(streams', lists', lastId + 1)
  {
    IssuedAfterCreate(streams, lastId, s);
    Storage.IndexedAfterCreate(streams, lists, SenderOf, RecipientOf, lastId + 1, s);
  }

  /** The stream after a claim before the end: the last claim moves to
      `now` and the vested amount leaves the remaining balance. */
  function AfterClaim(s: Stream, now: nat): (s': Stream)
    requires Consistent(s) && now < s.endTime
    ensures s'.remainingBalance + RecipientBalance(s, now) == s.remainingBalance
    ensures s'.lastClaim == now
    ensures s' == s.(lastClaim := s'.lastClaim, remainingBalance := s'.remainingBalance)
  {
    RecipientBalanceWithinRemaining(s, now);
    s.(lastClaim := now, remainingBalance := s.remainingBalance - RecipientBalance(s, now))
  }

  /** A claim with something to pay keeps the stream in its shape. */
  lemma AfterClaimConsistent(s: Stream, now: nat)
    requires Consistent(s) && now < s.endTime
    requires 0 < RecipientBalance(s, now)
    ensures Consistent(AfterClaim(s, now))
  {
    var rate := s.ratePerSecond;
    assert now > s.lastClaim;
    assert DeltaOfRecipient(s, now) == now - s.lastClaim;
    assert rate * (s.lastClaim - s.startTime) + rate * (now - s.lastClaim) == rate * (now - s.startTime);
    RecipientBalanceWithinRemaining(s, now);
  }

  lemma IssuedAfterUpdate(streams: map<nat, Stream>, lastId: nat, id: nat, s: Stream)
    requires Issued(streams, lastId)
    requires id in streams && Consistent(s)
    ensures Issued(streams[id := s], lastId)
  {
    assert Storage.Stored(streams, id);
    var streams' := streams[id := s];
    forall i: nat | Storage.Stored(streams', i)
      ensures 1 <= i <= lastId && Consistent(streams'[i])
    {
      if i != id {
        assert Storage.Stored(streams, i);
      }
    }
  }

  /** A claim before the end keeps the ledger. */
  lemma LedgerAfterPartialClaim(streams: map<nat, Stream>, lists: map<Addr, seq<nat>>, lastId: nat,
                                id: nat, now: nat, streams': map<nat, Stream>)
    requires Ledger(streams, lists, lastId)
    requires id in streams && now < streams[id].endTime
    requires 0 < RecipientBalance(streams[id], now)
    requires streams' == streams[id := AfterClaim(streams[id], now)]
    ensures Ledger(streams', lists, lastId)
  {
    StoredConsistent(streams, lists, lastId, id);
    AfterClaimConsistent(streams[id], now);
    IssuedAfterUpdate(streams, lastId, id, AfterClaim(streams[id], now));
    Storage.IndexedAfterUpdate(streams, lists, SenderOf, RecipientOf, id, AfterClaim(streams[id], now));
  }

  lemma IssuedAfterRemove(streams: map<nat, Stream>, lastId: nat, id: nat)
    requires Issued(streams, lastId)
    ensures Issued(streams - {id}, lastId)
  {
    var streams' := streams - {id};
    forall i: nat | Storage.Stored(streams', i)
      ensures 1 <= i <= lastId && Consistent(streams'[i])
    {
      assert Storage.Stored(streams, i);
    }
  }

  /** Removing a stream keeps the ledger and leaves an id that no set
      lists any more. */
  lemma LedgerAfterRemove(streams: map<nat, Stream>, lists: map<Addr, seq<nat>>, lastId: nat, id: nat,
                          streams': map<nat, Stream>, lists': map<Addr, seq<nat>>)
    requires Ledger(streams, lists, lastId)
    requires id in streams
    requires streams' == streams - {id}
    requires lists' == Storage.RemoveId(Storage.RemoveId(lists, streams[id].recipient, id), streams[id].sender, id)
    ensures Ledger(streams', lists', lastId)
    ensures forall a :: id !in Storage.ListOf(lists', a)
  {
    IssuedAfterRemove(streams, lastId, id);
    Storage.IndexedAfterRemove(streams, lists, SenderOf, RecipientOf, id);
  }

  // ---------------------------------------------------------------------
  // The contract
  // ---------------------------------------------------------------------

  class CoinDrip {
    /** `stream_by_id`: an absent key is an empty mapper. */
    var streamById: map<nat, Stream>
    /** `streams_list`, one id set per address. */
    var streamsList: map<Addr, seq<nat>>
    /** `last_stream_id`. */
    var lastStreamId: nat
    /** Every `send().direct` requested so far, in order. */
    var payouts: seq<Payout>

    ghost predicate Valid()
      reads this
    {
      Ledger(streamById, streamsList, lastStreamId)
    }

    /** `init`: empty storage. */
    constructor ()
      ensures Valid()
      ensures streamById == map[] && streamsList == map[] && lastStreamId == 0
      ensures payouts == []
    {
      streamById := map[];
      streamsList := map[];
      lastStreamId := 0;
      payouts := [];
    }

    /** `streams_list(a)` read as a whole. */
    function StreamsList(a: Addr): (ids: seq<nat>)
      reads this
      requires Valid()
      ensures Storage.Distinct(ids)
      ensures forall id :: id in ids <==> a in streamsList && id in streamsList[a]
    {
      Storage.ListOf(streamsList, a)
    }

    /** A stored stream: it is in its shape. */
    function StoredStream(streamId: nat): (s: Stream)
      reads this
      requires Valid() && streamId in streamById
      ensures s == streamById[streamId]
      ensures Consistent(s)
    {
      StoredConsistent(streamById, streamsList, lastStreamId, streamId);
      streamById[streamId]
    }

    /** `get_stream`: the stored stream, or ErrInvalidStream when its
        mapper is empty. */
    function GetStream(streamId: nat): (r: Result<Stream, Error>)
      reads this
      ensures r.Ok? <==> streamId in streamById
      ensures r.Ok? ==> r.value == streamById[streamId]
      ensures r.Err? ==> r.error == ErrInvalidStream
    {
      if streamId in streamById then Ok(streamById[streamId]) else Err(ErrInvalidStream)
    }

    /** The `getBalanceOf` view: an address's share of a stored stream. */
    function GetBalanceOf(streamId: nat, address: Addr, now: nat): (r: Result<nat, Error>)
      reads this
      requires Valid()
      ensures r.Err? <==> streamId !in streamById
      ensures r.Err? ==> r.error == ErrInvalidStream
      ensures r.Ok? ==> r.value == BalanceOf(streamById[streamId], now, address)
      ensures r.Ok? ==> r.value <= streamById[streamId].remainingBalance
    {
      match GetStream(streamId)
      case Err(e) => Err(e)
      case Ok(s) =>
        StoredConsistent(streamById, streamsList, lastStreamId, streamId);
        Ok(BalanceOf(s, now, address))
    }

    /** `create_stream`, paid with `amount` of (`token`, `nonce`) by
        `caller` at block time `now`: the checks of CreateCheck in their
        order, then the next id, the record, and the id in the sender's and
        the recipient's set. */
    method CreateStream(caller: Addr, scAddress: Addr, now: nat, token: TokenId, nonce: nat, amount: nat,
                        recipient: Addr, startTime: nat, endTime: nat, canCancel: Option<bool>)
      returns (r: Result<(), Error>)
      requires Valid()
      modifies this
      ensures Valid()
      ensures r.Err? <==> CreateCheck(caller, scAddress, now, recipient, nonce, amount, startTime, endTime).Some?
      ensures r.Err? ==> r.error == CreateCheck(caller, scAddress, now, recipient, nonce, amount, startTime, endTime).value
      ensures r.Err? ==> unchanged(this)
      ensures r.Ok? ==>
        var id := old(lastStreamId) + 1;
        && id !in old(streamById)
        && lastStreamId == id
        && streamById == old(streamById)[id := NewStream(caller, recipient, token, nonce, amount, startTime, endTime, canCancel)]
        && streamsList == Storage.AddId(Storage.AddId(old(streamsList), caller, id), recipient, id)
        && payouts == old(payouts)
    {
      var failed := CreateCheck(caller, scAddress, now, recipient, nonce, amount, startTime, endTime);
      if failed.Some? {
        return Err(failed.value);
      }

      var streamId := lastStreamId + 1;
      lastStreamId := streamId;
      var stream := NewStream(caller, recipient, token, nonce, amount, startTime, endTime, canCancel);
      streamById := streamById[streamId := stream];
      streamsList := Storage.AddId(streamsList, caller, streamId);
      streamsList := Storage.AddId(streamsList, recipient, streamId);
      LedgerAfterCreate(old(streamById), old(streamsList), old(lastStreamId), stream, streamById, streamsList);
      r := Ok(());
    }

    /** `remove_stream`: clear the record and swap-remove the id from the
        recipient's and then the sender's set. */
    method RemoveStream(streamId: nat) returns (r: Result<(), Error>)
      requires Valid()
      modifies this
      ensures Valid()
      ensures r.Err? <==> streamId !in old(streamById)
      ensures r.Err? ==> r.error == ErrInvalidStream && unchanged(this)
      ensures r.Ok? ==>
        var s := old(streamById[streamId]);
        && streamById == old(streamById) - {streamId}
        && streamsList == Storage.RemoveId(Storage.RemoveId(old(streamsList), s.recipient, streamId), s.sender, streamId)
        && (forall a :: streamId !in StreamsList(a))
        && lastStreamId == old(lastStreamId)
        && payouts == old(payouts)
    {
      if streamId !in streamById {
        return Err(ErrInvalidStream);
      }
      var stream := streamById[streamId];
      streamById := streamById - {streamId};
      streamsList := Storage.RemoveId(streamsList, stream.recipient, streamId);
      streamsList := Storage.RemoveId(streamsList, stream.sender, streamId);
      LedgerAfterRemove(old(streamById), old(streamsList), lastStreamId, streamId, streamById, streamsList);
      r := Ok(());
    }

    /** The update of a stream that a claim leaves running. */
    method StoreClaimed(streamId: nat, now: nat)
      requires Valid() && streamId in streamById
      requires !IsStreamFinalized(streamById[streamId], now)
      requires 0 < RecipientBalance(StoredStream(streamId), now)
      modifies this
      ensures Valid()
      ensures streamById == old(streamById)[streamId := AfterClaim(old(StoredStream(streamId)), now)]
      ensures streamsList == old(streamsList) && lastStreamId == old(lastStreamId) && payouts == old(payouts)
    {
      streamById := streamById[streamId := AfterClaim(StoredStream(streamId), now)];
      LedgerAfterPartialClaim(old(streamById), streamsList, lastStreamId, streamId, now, streamById);
    }

    /** `send().direct`, once per transfer in order: the transfers out of
        the contract are appended to the log; storage is untouched. */
    method SendDirect(ps: seq<Payout>)
      requires Valid()
      modifies this
      ensures Valid()
      ensures payouts == old(payouts) + ps
      ensures streamById == old(streamById) && streamsList == old(streamsList)
      ensures lastStreamId == old(lastStreamId)
    {
      payouts := payouts + ps;
    }

    /** The effect of a claim that passed its checks: the amount is
        computed once and used both for the payment and for the update. */
    method PayClaim(streamId: nat, now: nat)
      requires Valid() && streamId in streamById
      requires 0 < BalanceOf(StoredStream(streamId), now, streamById[streamId].recipient)
      modifies this
      ensures Valid()
      ensures
        var s := old(StoredStream(streamId));
        var amount := BalanceOf(s, now, s.recipient);
        && payouts == old(payouts) + [Payout(s.recipient, s.paymentToken, s.paymentNonce, amount)]
        && lastStreamId == old(lastStreamId)
        && (IsStreamFinalized(s, now) ==>
              && streamById == old(streamById) - {streamId}
              && streamsList == Storage.RemoveId(Storage.RemoveId(old(streamsList), s.recipient, streamId), s.sender, streamId))
        && (!IsStreamFinalized(s, now) ==>
              && streamById == old(streamById)[streamId := AfterClaim(s, now)]
              && streamsList == old(streamsList))
    {
      var stream := StoredStream(streamId);
      var amount := BalanceOf(stream, now, stream.recipient);
      if IsStreamFinalized(stream, now) {
        var removed := RemoveStream(streamId);
      } else {
        StoreClaimed(streamId, now);
      }
      SendDirect([Payout(stream.recipient, stream.paymentToken, stream.paymentNonce, amount)]);
    }

    /** `claim_from_stream` by `caller` at block time `now`. */
    method ClaimFromStream(caller: Addr, now: nat, streamId: nat) returns (r: Result<(), Error>)
      requires Valid()
      modifies this
      ensures Valid()
      ensures streamId !in old(streamById) ==> r == Err(ErrInvalidStream)
      ensures streamId in old(streamById) ==>
        var failed := ClaimCheck(old(StoredStream(streamId)), now, caller);
        r == if failed.Some? then Err(failed.value) else Ok(())
      ensures r.Err? ==> unchanged(this)
      ensures r.Ok? ==>
        var s := old(StoredStream(streamId));
        var amount := BalanceOf(s, now, caller);
        && payouts == old(payouts) + [Payout(caller, s.paymentToken, s.paymentNonce, amount)]
        && lastStreamId == old(lastStreamId)
        && (IsStreamFinalized(s, now) ==>
              && streamById == old(streamById) - {streamId}
              && streamsList == Storage.RemoveId(Storage.RemoveId(old(streamsList), s.recipient, streamId), s.sender, streamId))
        && (!IsStreamFinalized(s, now) ==>
              && streamById == old(streamById)[streamId := AfterClaim(s, now)]
              && streamsList == old(streamsList))
    {
      if streamId !in streamById {
        return Err(ErrInvalidStream);
      }
      var failed := ClaimCheck(StoredStream(streamId), now, caller);
      if failed.Some? {
        return Err(failed.value);
      }
      PayClaim(streamId, now);
      r := Ok(());
    }

    /** `cancel_stream` by `caller` at block time `now`: both shares are
        computed at the same instant before the stream is removed, then
        each positive one is paid, the sender's first. */
    method CancelStream(caller: Addr, now: nat, streamId: nat) returns (r: Result<(), Error>)
      requires Valid()
      modifies this
      ensures Valid()
      ensures streamId !in old(streamById) ==> r == Err(ErrInvalidStream)
      ensures streamId in old(streamById) ==>
        var failed := CancelCheck(old(streamById[streamId]), caller);
        r == if failed.Some? then Err(failed.value) else Ok(())
      ensures r.Err? ==> unchanged(this)
      ensures r.Ok? ==>
        var s := old(StoredStream(streamId));
        && payouts == old(payouts) + CancelPayouts(s, now)
        && streamById == old(streamById) - {streamId}
        && streamsList == Storage.RemoveId(Storage.RemoveId(old(streamsList), s.recipient, streamId), s.sender, streamId)
        && lastStreamId == old(lastStreamId)
    {
      if streamId !in streamById {
        return Err(ErrInvalidStream);
      }
      var stream := StoredStream(streamId);
      var failed := CancelCheck(stream, caller);
      if failed.Some? {
        return Err(failed.value);
      }

      var sends := CancelPayouts(stream, now);
      var removed := RemoveStream(streamId);
      SendDirect(sends);
      r := Ok(());
    }
  }
}
