/** Concrete runs of both contracts, replaying the call sequences of the
    repository's tests: a stream of 3000 tokens from the owner to a first
    user, created at block time T, starting one minute after T and ending
    three minutes after it (a rate of 25 tokens per second). */
module Scenarios {
  import opened Results
  import opened Host
  import Storage
  import CoinDripProtocol
  import Empty

  const T: nat := 1668518731
  const Owner: Addr := 1
  const FirstUser: Addr := 2
  const SecondUser: Addr := 3
  const Contract: Addr := 100
  const Token: TokenId := Esdt("STRM-df6f26")

  /** The ids the two parties' sets hold after the stream with id 1 was
      created and then removed. */
  function ListsAfterRemoval(sender: Addr, recipient: Addr): map<Addr, seq<nat>>
  {
    var created := Storage.AddId(Storage.AddId(map[], sender, 1), recipient, 1);
    Storage.RemoveId(Storage.RemoveId(created, recipient, 1), sender, 1)
  }

  /** `claim_from_stream` in the protocol contract: the owner may not
      claim, nothing is due before the start, half the deposit is due at
      mid-stream and the rest after the end, which finalizes the stream, and
      removing it empties the recipient's set. */
  lemma ProtocolClaims()
    ensures CoinDripProtocol.CreateCheck(Owner, Contract, T, FirstUser, 0, 3000, T + 60, T + 180).None?
    ensures var s := CoinDripProtocol.NewStream(Owner, FirstUser, Token, 0, 3000, T + 60, T + 180, None);
      && s.ratePerSecond == 25
      && CoinDripProtocol.ClaimCheck(s, T, Owner) == Some(CoinDripProtocol.ErrOnlyRecipientClaim)
      && CoinDripProtocol.ClaimCheck(s, T, FirstUser) == Some(CoinDripProtocol.ErrZeroClaim)
      && CoinDripProtocol.ClaimCheck(s, T + 120, FirstUser).None?
      && CoinDripProtocol.BalanceOf(s, T + 120, FirstUser) == 1500
      && !CoinDripProtocol.IsStreamFinalized(s, T + 120)
      && var s' := CoinDripProtocol.AfterClaim(s, T + 120);
         && CoinDripProtocol.ClaimCheck(s', T + 300, FirstUser).None?
         && CoinDripProtocol.IsStreamFinalized(s', T + 300)
         && CoinDripProtocol.BalanceOf(s', T + 300, FirstUser) == 1500
    ensures Storage.ListOf(ListsAfterRemoval(Owner, FirstUser), FirstUser) == []
    ensures Storage.ListOf(ListsAfterRemoval(Owner, FirstUser), Owner) == []
  {
    var s := CoinDripProtocol.NewStream(Owner, FirstUser, Token, 0, 3000, T + 60, T + 180, None);
    assert CoinDripProtocol.Consistent(s);
    var s' := CoinDripProtocol.AfterClaim(s, T + 120);
    assert s'.remainingBalance == 1500 && s'.lastClaim == T + 120;
  }

  /** `cancel_stream` in the protocol contract, on the inputs of the
      repository's cancel test: a third party may not cancel; a stream
      created as not cancellable refuses to be cancelled even by its
      recipient. At mid-stream the code of this contract pays each party
      half, the sender first. The repository's cancel test disagrees on the
      sender's half: it calls a `cancel_stream` with a second argument and
      expects the owner to be left 3000 short, that is, no refund to the
      sender. This lemma states what the code does. */
  lemma ProtocolCancels()
    ensures var s := CoinDripProtocol.NewStream(Owner, FirstUser, Token, 0, 3000, T + 60, T + 180, None);
      && CoinDripProtocol.CancelCheck(s, SecondUser) == Some(CoinDripProtocol.ErrCancelOnlyOwners)
      && CoinDripProtocol.CancelCheck(s, FirstUser).None?
      && CoinDripProtocol.CancelPayouts(s, T + 120) == [Payout(Owner, Token, 0, 1500), Payout(FirstUser, Token, 0, 1500)]
    ensures var s := CoinDripProtocol.NewStream(Owner, FirstUser, Token, 0, 3000, T + 60, T + 180, Some(false));
      CoinDripProtocol.CancelCheck(s, FirstUser) == Some(CoinDripProtocol.ErrCantCancel)
  {
  }

  /** The repository's rounding test streams 2 tokens over 30 minutes and
      expects one token to be claimable after 25 minutes. Under the code of
      this contract the rate floors to 0, so that claim is refused with
      ErrZeroClaim, and the whole deposit goes to the recipient only once
      the stream has ended. */
  lemma ProtocolRounding()
    ensures var s := CoinDripProtocol.NewStream(Owner, FirstUser, Token, 0, 2, T + 60, T + 1860, None);
      && s.ratePerSecond == 0
      && CoinDripProtocol.ClaimCheck(s, T + 1560, FirstUser) == Some(CoinDripProtocol.ErrZeroClaim)
      && CoinDripProtocol.BalanceOf(s, T + 1920, FirstUser) == 2
  {
    var s := CoinDripProtocol.NewStream(Owner, FirstUser, Token, 0, 2, T + 60, T + 1860, None);
    assert CoinDripProtocol.Consistent(s);
  }

  /** In a fresh protocol contract a stream is created, then cancelled by
      its recipient, then a second stream is created: the cancel succeeds
      and the second stream gets id 2, so the removed stream's id is not
      reused. */
  method ProtocolSecondId() returns (first: nat, cancelled: Result<(), CoinDripProtocol.Error>, second: nat)
    ensures first == 1 && cancelled == Ok(()) && second == 2
  {
    var c := new CoinDripProtocol.CoinDrip();
    var r1 := c.CreateStream(Owner, Contract, T, Token, 0, 3000, FirstUser, T + 60, T + 180, None);
    first := c.lastStreamId;
    cancelled := c.CancelStream(FirstUser, T + 120, first);
    var r2 := c.CreateStream(Owner, Contract, T, Token, 0, 3000, FirstUser, T + 60, T + 180, Some(false));
    second := c.lastStreamId;
  }

  /** `claim_from_stream` with an optional amount in the second contract:
      the owner may not claim, nothing is due before the start, 100 tokens
      exceed what is due then, half is due at mid-stream, and the rest after
      the end empties the stream. */
  lemma EmptyClaims()
    ensures Empty.CreateCheck(Owner, Contract, T, FirstUser, 0, 3000, T + 60, T + 180).None?
    ensures var s := Empty.NewStream(Owner, FirstUser, Token, 0, 3000, T + 60, T + 180);
      && s.ratePerSecond == 25
      && Empty.Covered(s, T)
      && Empty.ClaimCheck(s, T, Owner, None) == Some(Empty.ErrOnlyRecipientClaim)
      && Empty.ClaimCheck(s, T, FirstUser, None) == Some(Empty.ErrZeroAmount)
      && Empty.ClaimCheck(s, T, FirstUser, Some(100)) == Some(Empty.ErrAmountExceeds)
      && Empty.Covered(s, T + 120)
      && Empty.ClaimCheck(s, T + 120, FirstUser, None).None?
      && Empty.StreamedSoFar(s, T + 120) == 1500
      && var s' := Empty.AfterClaim(s, 1500);
         && Empty.Covered(s', T + 300)
         && Empty.ClaimCheck(s', T + 300, FirstUser, None).None?
         && Empty.StreamedSoFar(s', T + 300) == 1500 == s'.remainingBalance
  {
    var s := Empty.NewStream(Owner, FirstUser, Token, 0, 3000, T + 60, T + 180);
    Empty.NewStreamCovered(Owner, FirstUser, Token, 0, 3000, T + 60, T + 180, T);
    Empty.CoveredLater(s, T, T + 120);
    assert Empty.StreamedSoFar(s, T + 120) == 1500;
    Empty.AfterClaimCovered(s, T + 120, 1500);
    var s' := Empty.AfterClaim(s, 1500);
    Empty.CoveredLater(s', T + 120, T + 300);
  }
}
