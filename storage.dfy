/** The contract's persistent state (the storage module): one stream record
    per id (`stream_by_id`, a `SingleValueMapper`), one unordered set of ids
    per address (`streams_list`, an `UnorderedSetMapper<u64>`) and the id
    counter (`last_stream_id`). The two contracts keep these mappers as
    fields (`streamById`, `streamsList`, `lastStreamId`); this module gives
    the operations on them and the invariant tying the id lists to the
    records, stated once for any record type. */
module Storage {
  import opened Results
  import opened Host

  /** The amounts frozen when a stream is cancelled, as the storage module
      declares them. */
  datatype BalancesAfterCancel = BalancesAfterCancel(senderBalance: nat, recipientBalance: nat)

  /** The stream record as the storage module declares it. The endpoints of
      the contract build a different record (see CoinDripProtocol.Stream);
      no operation of the contract reads or writes `claimedAmount` or
      `balancesAfterCancel`. */
  datatype Stream = Stream(
    sender: Addr,
    recipient: Addr,
    paymentToken: TokenId,
    paymentNonce: nat,
    deposit: nat,
    claimedAmount: nat,
    canCancel: bool,
    startTime: nat,
    endTime: nat,
    balancesAfterCancel: Option<BalancesAfterCancel>)

  // ---------------------------------------------------------------------
  // UnorderedSetMapper: a vector of distinct ids iterated in vector order
  // ---------------------------------------------------------------------

  predicate Distinct(s: seq<nat>)
  {
    forall i, j :: 0 <= i < j < |s| ==> s[i] != s[j]
  }

  /** The slot that holds `x` (the mapper's index entry for `x`). */
  function IndexOf(s: seq<nat>, x: nat): (i: nat)
    requires x in s
    ensures i < |s| && s[i] == x
    ensures x !in s[..i]
  {
    if s[0] == x then 0
    else
      var j := IndexOf(s[1..], x);
      assert s[..j + 1] == [s[0]] + s[1..][..j];
      j + 1
  }

  /** `insert`: an id not yet in the set is pushed at the end; inserting an
      id already present changes nothing. */
  function Insert(s: seq<nat>, x: nat): (r: seq<nat>)
    ensures forall y :: y in r <==> y in s || y == x
    ensures Distinct(s) ==> Distinct(r)
    ensures |r| == if x in s then |s| else |s| + 1
    ensures s <= r
  {
    if x in s then s else s + [x]
  }

  /** `swap_remove`: the last id moves into the slot of the removed one;
      removing an absent id changes nothing. */
  function SwapRemove(s: seq<nat>, x: nat): (r: seq<nat>)
    ensures x !in s ==> r == s
    ensures Distinct(s) ==> Distinct(r) && forall y :: y in r <==> y in s && y != x
  {
    if x !in s then s
    else
      var i := IndexOf(s, x);
      var last := |s| - 1;
      var r := if i == last then s[..last] else s[..i] + [s[last]] + s[i + 1..last];
      assert forall j :: 0 <= j < |r| && j != i ==> r[j] == s[j];
      assert forall y :: y in r ==> exists j :: 0 <= j < |r| && r[j] == y;
      r
  }

  /** Where `swap_remove` puts things: the set shrinks by one, the last id
      moves into the removed id's slot, and every other slot keeps its id. */
  lemma SwapRemoveSlots(s: seq<nat>, x: nat)
    requires x in s
    ensures |SwapRemove(s, x)| == |s| - 1
    ensures forall j :: 0 <= j < |s| - 1 && j != IndexOf(s, x) ==> SwapRemove(s, x)[j] == s[j]
    ensures IndexOf(s, x) < |s| - 1 ==> SwapRemove(s, x)[IndexOf(s, x)] == s[|s| - 1]
  {
  }

  /** The ids a set holds. */
  function Elems(s: seq<nat>): set<nat>
  {
    set y | y in s
  }

  /** `len` of a set counts its distinct ids. */
  lemma {:induction false} LenCountsDistinct(s: seq<nat>)
    requires Distinct(s)
    ensures |Elems(s)| == |s|
  {
    if s != [] {
      var tail := s[1..];
      assert Distinct(tail) by {
        forall i, j | 0 <= i < j < |tail| ensures tail[i] != tail[j] {
          assert tail[i] == s[i + 1] && tail[j] == s[j + 1];
        }
      }
      LenCountsDistinct(tail);
      assert s[0] !in tail by {
        forall j | 0 <= j < |tail| ensures tail[j] != s[0] {
          assert tail[j] == s[j + 1];
        }
      }
      assert Elems(s) == {s[0]} + Elems(tail) by {
        assert s == [s[0]] + tail;
      }
    }
  }

  // ---------------------------------------------------------------------
  // streams_list: one set per address, and what keeps it in step with
  // stream_by_id
  // ---------------------------------------------------------------------

  /** `streams_list(a)`: an address that never had a stream has the empty set. */
  function ListOf(lists: map<Addr, seq<nat>>, a: Addr): seq<nat>
  {
    if a in lists then lists[a] else []
  }

  function AddId(lists: map<Addr, seq<nat>>, a: Addr, id: nat): map<Addr, seq<nat>>
  {
    lists[a := Insert(ListOf(lists, a), id)]
  }

  function RemoveId(lists: map<Addr, seq<nat>>, a: Addr, id: nat): map<Addr, seq<nat>>
  {
    lists[a := SwapRemove(ListOf(lists, a), id)]
  }

  ghost predicate ListsDistinct(lists: map<Addr, seq<nat>>)
  {
    forall a :: a in lists ==> Distinct(lists[a])
  }

  /** `id` has a stored stream. */
  predicate Stored<S>(streams: map<nat, S>, id: nat)
  {
    id in streams
  }

  /** `id` is in the set of `a`. */
  predicate Listed(lists: map<Addr, seq<nat>>, a: Addr, id: nat)
  {
    id in ListOf(lists, a)
  }

  /** Every stored stream is listed under its sender and its recipient, and
      every listed id is a stored stream of which that address is a party. */
  ghost predicate Indexed<S>(streams: map<nat, S>, lists: map<Addr, seq<nat>>,
                             sender: S -> Addr, recipient: S -> Addr)
  {
    && (forall id :: Stored(streams, id) ==>
          Listed(lists, sender(streams[id]), id) && Listed(lists, recipient(streams[id]), id))
    && (forall a, id :: Listed(lists, a, id) ==>
          id in streams && (sender(streams[id]) == a || recipient(streams[id]) == a))
  }

  /** Inserting an id into one address's set adds exactly that membership. */
  lemma AddIdMember(lists: map<Addr, seq<nat>>, a: Addr, id: nat, b: Addr, i: nat)
    requires ListsDistinct(lists)
    ensures ListsDistinct(AddId(lists, a, id))
    ensures Listed(AddId(lists, a, id), b, i) <==> Listed(lists, b, i) || (b == a && i == id)
  {
  }

  /** Sets that gained exactly a new id under both parties of a new stream
      index the streams with that stream added. */
  lemma IndexedWithId<S>(streams: map<nat, S>, lists: map<Addr, seq<nat>>, lists': map<Addr, seq<nat>>,
                         sender: S -> Addr, recipient: S -> Addr, id: nat, s: S)
    requires Indexed(streams, lists, sender, recipient) && id !in streams
    requires forall b, i :: Listed(lists', b, i) <==> Listed(lists, b, i) || (i == id && (b == sender(s) || b == recipient(s)))
    ensures Indexed(streams[id := s], lists', sender, recipient)
  {
    var streams' := streams[id := s];
    forall i | Stored(streams', i)
      ensures Listed(lists', sender(streams'[i]), i) && Listed(lists', recipient(streams'[i]), i)
    {
      if i != id {
        assert Stored(streams, i);
      }
    }
    forall b, i | Listed(lists', b, i)
      ensures i in streams' && (sender(streams'[i]) == b || recipient(streams'[i]) == b)
    {
      if i != id {
        assert Listed(lists, b, i);
      } else if Listed(lists, b, i) {
        assert false;
      }
    }
  }

  /** Storing a stream under a fresh id and inserting the id into the
      sender's and then the recipient's set keeps the index exact. */
  lemma IndexedAfterCreate<S>(streams: map<nat, S>, lists: map<Addr, seq<nat>>,
                              sender: S -> Addr, recipient: S -> Addr, id: nat, s: S)
    requires ListsDistinct(lists) && Indexed(streams, lists, sender, recipient)
    requires id !in streams
    ensures var lists' := AddId(AddId(lists, sender(s), id), recipient(s), id);
      && ListsDistinct(lists')
      && Indexed(streams[id := s], lists', sender, recipient)
      && Listed(lists', sender(s), id) && Listed(lists', recipient(s), id)
  {
    var l1 := AddId(lists, sender(s), id);
    var l2 := AddId(l1, recipient(s), id);
    AddIdMember(lists, sender(s), id, 0, 0);
    AddIdMember(l1, recipient(s), id, 0, 0);
    forall b, i ensures Listed(l2, b, i) <==> Listed(lists, b, i) || (i == id && (b == sender(s) || b == recipient(s))) {
      AddIdMember(lists, sender(s), id, b, i);
      AddIdMember(l1, recipient(s), id, b, i);
    }
    AddIdMember(l1, recipient(s), id, sender(s), id);
    AddIdMember(lists, sender(s), id, sender(s), id);
    AddIdMember(l1, recipient(s), id, recipient(s), id);
    IndexedWithId(streams, lists, l2, sender, recipient, id, s);
  }

  /** Swap-removing an id from one address's set removes exactly that
      membership. */
  lemma RemoveIdMember(lists: map<Addr, seq<nat>>, a: Addr, id: nat, b: Addr, i: nat)
    requires ListsDistinct(lists)
    ensures ListsDistinct(RemoveId(lists, a, id))
    ensures i in ListOf(RemoveId(lists, a, id), b) <==> i in ListOf(lists, b) && (b != a || i != id)
  {
  }

  /** A listed id names a stored stream of which the address is a party. */
  lemma ListedIsStored<S>(streams: map<nat, S>, lists: map<Addr, seq<nat>>,
                          sender: S -> Addr, recipient: S -> Addr, a: Addr, id: nat)
    requires Indexed(streams, lists, sender, recipient)
    ensures id in ListOf(lists, a) ==> id in streams && (sender(streams[id]) == a || recipient(streams[id]) == a)
  {
    if id in ListOf(lists, a) {
      assert Listed(lists, a, id);
    }
  }

  /** Every slot of an address's set holds the id of a stored stream. */
  lemma ListSlotsStored<S>(streams: map<nat, S>, lists: map<Addr, seq<nat>>,
                           sender: S -> Addr, recipient: S -> Addr, a: Addr)
    requires Indexed(streams, lists, sender, recipient)
    ensures forall k :: 0 <= k < |ListOf(lists, a)| ==> ListOf(lists, a)[k] in streams
  {
    forall k | 0 <= k < |ListOf(lists, a)|
      ensures ListOf(lists, a)[k] in streams
    {
      assert Listed(lists, a, ListOf(lists, a)[k]);
    }
  }

  /** Sets that lost exactly the id of a dropped stream still index the
      remaining streams. */
  lemma IndexedWithoutId<S>(streams: map<nat, S>, lists: map<Addr, seq<nat>>, lists': map<Addr, seq<nat>>,
                            sender: S -> Addr, recipient: S -> Addr, id: nat)
    requires Indexed(streams, lists, sender, recipient)
    requires forall b, i :: i in ListOf(lists', b) <==> i in ListOf(lists, b) && i != id
    ensures Indexed(streams - {id}, lists', sender, recipient)
  {
    var streams' := streams - {id};
    forall i | Stored(streams', i)
      ensures Listed(lists', sender(streams'[i]), i) && Listed(lists', recipient(streams'[i]), i)
    {
      assert Stored(streams, i);
      assert Listed(lists, sender(streams[i]), i) && Listed(lists, recipient(streams[i]), i);
    }
    forall b, i | Listed(lists', b, i)
      ensures i in streams' && (sender(streams'[i]) == b || recipient(streams'[i]) == b)
    {
      ListedIsStored(streams, lists, sender, recipient, b, i);
    }
  }

  /** Clearing a stream and swap-removing its id from the recipient's and
      then the sender's set keeps the index exact, and the id is then in no
      set at all. */
  lemma IndexedAfterRemove<S>(streams: map<nat, S>, lists: map<Addr, seq<nat>>,
                              sender: S -> Addr, recipient: S -> Addr, id: nat)
    requires ListsDistinct(lists) && Indexed(streams, lists, sender, recipient)
    requires id in streams
    ensures var s := streams[id];
      var lists' := RemoveId(RemoveId(lists, recipient(s), id), sender(s), id);
      && ListsDistinct(lists')
      && Indexed(streams - {id}, lists', sender, recipient)
      && forall a :: id !in ListOf(lists', a)
  {
    var s := streams[id];
    var l1 := RemoveId(lists, recipient(s), id);
    var l2 := RemoveId(l1, sender(s), id);
    RemoveIdMember(lists, recipient(s), id, 0, 0);
    RemoveIdMember(l1, sender(s), id, 0, 0);
    forall b, i ensures i in ListOf(l2, b) <==> i in ListOf(lists, b) && i != id {
      RemoveIdMember(lists, recipient(s), id, b, i);
      RemoveIdMember(l1, sender(s), id, b, i);
      ListedIsStored(streams, lists, sender, recipient, b, i);
    }
    IndexedWithoutId(streams, lists, l2, sender, recipient, id);
  }

  /** Overwriting a stored stream with one that has the same parties keeps
      the index exact. */
  lemma IndexedAfterUpdate<S>(streams: map<nat, S>, lists: map<Addr, seq<nat>>,
                              sender: S -> Addr, recipient: S -> Addr, id: nat, s: S)
    requires Indexed(streams, lists, sender, recipient)
    requires id in streams && sender(s) == sender(streams[id]) && recipient(s) == recipient(streams[id])
    ensures Indexed(streams[id := s], lists, sender, recipient)
  {
    var streams' := streams[id := s];
    forall i | Stored(streams', i)
      ensures Listed(lists, sender(streams'[i]), i) && Listed(lists, recipient(streams'[i]), i)
    {
      assert Stored(streams, i);
    }
  }
}
