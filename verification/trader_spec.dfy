/**
  Reference definitions for the trading contract's loops and its storage
  invariant, with the lemmas that say what they mean. The contract's methods
  (module Trader) are proved against these definitions.
*/
module TraderSpec {
  import opened Wrappers
  import opened TraderTypes

  type Portfolios = map<IdentityId, NftPortfolioDetails>
  type Sales = map<NFTId, NftSaleDetails>

  /** The NFT ids of a list, as a set of keys. */
  function IdKeys(ids: seq<NFTId>): set<NFTId>
  {
    set i | 0 <= i < |ids| :: ids[i]
  }

  /** The serial numbers of a list of NFT ids. */
  function Serials(ids: seq<NFTId>): set<u64>
  {
    set i | 0 <= i < |ids| :: ids[i].n
  }

  /** The sale keys of a portfolio's set of serial numbers. */
  function SaleKeys(nfts: set<u64>): set<NFTId>
  {
    set n | n in nfts :: NFTId(n)
  }

  /** No id occurs twice in the list. */
  predicate Distinct(ids: seq<NFTId>)
  {
    forall i, j :: 0 <= i < j < |ids| ==> ids[i] != ids[j]
  }

  // ---------------------------------------------------------------------------
  // remove_nfts: remove_nft on each id in turn, stopping at the first failure
  // ---------------------------------------------------------------------------

  /** The set left after removing each id in turn, or `NotInPortfolio` at the first id that is not there. */
  function RemoveAll(s: set<u64>, ids: seq<NFTId>): (r: Result<set<u64>>)
    ensures r.Ok? ==> r.value <= s
    ensures r.Err? ==> r.error == NotInPortfolio
    decreases |ids|
  {
    if ids == [] then Ok(s)
    else if ids[0].n in s then RemoveAll(s - {ids[0].n}, ids[1..])
    else Err(NotInPortfolio)
  }

  /** How many ids that loop removes before it finishes or fails. */
  function Removed(s: set<u64>, ids: seq<NFTId>): (k: nat)
    ensures k <= |ids|
    decreases |ids|
  {
    if ids == [] || ids[0].n !in s then 0 else 1 + Removed(s - {ids[0].n}, ids[1..])
  }

  /**
    The ids before index `Removed(s, ids)` are removed one by one, and the id
    at that index, if any, is the first one missing from the shrinking set.
  */
  lemma {:induction false} RemovedStopsAtMissing(s: set<u64>, ids: seq<NFTId>)
    ensures RemoveAll(s, ids[..Removed(s, ids)]).Ok?
    ensures Removed(s, ids) < |ids| ==> ids[Removed(s, ids)].n !in RemoveAll(s, ids[..Removed(s, ids)]).value
    decreases |ids|
  {
    var k := Removed(s, ids);
    if ids == [] || ids[0].n !in s {
      assert ids[..k] == [];
    } else {
      RemovedStopsAtMissing(s - {ids[0].n}, ids[1..]);
      assert ids[..k][0] == ids[0];
      assert ids[..k][1..] == ids[1..][..k - 1];
    }
  }

  /**
    Removing a list of ids succeeds exactly when the ids are distinct and all
    in the set; it then leaves the set minus those serial numbers, having
    removed every id.
  */
  lemma {:induction false} RemoveAllSpec(s: set<u64>, ids: seq<NFTId>)
    ensures RemoveAll(s, ids).Ok? <==> Distinct(ids) && forall i :: 0 <= i < |ids| ==> ids[i].n in s
    ensures RemoveAll(s, ids).Ok? ==> RemoveAll(s, ids).value == s - Serials(ids)
    ensures RemoveAll(s, ids).Ok? <==> Removed(s, ids) == |ids|
    decreases |ids|
  {
    if ids != [] {
      var x, t := ids[0], ids[1..];
      var s' := s - {x.n};
      RemoveAllSpec(s', t);
      assert Serials(ids) == {x.n} + Serials(t) by {
        forall n | n in Serials(ids) ensures n in {x.n} + Serials(t) {
          var i :| 0 <= i < |ids| && ids[i].n == n;
          if i > 0 { assert t[i - 1] == ids[i]; }
        }
        forall n | n in Serials(t) ensures n in Serials(ids) {
          var i :| 0 <= i < |t| && t[i].n == n;
          assert ids[i + 1] == t[i];
        }
      }
      if Distinct(ids) && forall i :: 0 <= i < |ids| ==> ids[i].n in s {
        assert x.n in s;
        forall i | 0 <= i < |t| ensures t[i].n in s' {
          assert ids[0] != ids[i + 1];
        }
        assert Distinct(t) by {
          forall i, j | 0 <= i < j < |t| ensures t[i] != t[j] {
            assert ids[i + 1] != ids[j + 1];
          }
        }
      }
      if RemoveAll(s, ids).Ok? {
        assert x.n in s;
        forall i | 0 <= i < |ids| ensures ids[i].n in s {
          if i > 0 { assert t[i - 1].n in s'; }
        }
        forall i, j | 0 <= i < j < |ids| ensures ids[i] != ids[j] {
          if i == 0 { assert t[j - 1].n in s'; } else { assert t[i - 1] != t[j - 1]; }
        }
      }
    }
  }

  // ---------------------------------------------------------------------------
  // nft_for_sell: one owner check per id, then one sale entry per (id, price)
  // ---------------------------------------------------------------------------

  /** The ids of a list of (id, price) pairs. */
  function ListedIds(nfts: seq<(NFTId, Balance)>): (ids: seq<NFTId>)
    ensures |ids| == |nfts| && forall i :: 0 <= i < |nfts| ==> ids[i] == nfts[i].0
  {
    seq(|nfts|, i requires 0 <= i < |nfts| => nfts[i].0)
  }

  /**
    The chain's owner query for each id in turn: the first query error, or
    `NotInPortfolio` at the first id that the portfolio does not hold.
  */
  function OwnerCheck(ticker: Ticker, portfolio: PortfolioId, ids: seq<NFTId>,
                      nftOwner: (Ticker, NFTId) -> RuntimeResult<Option<PortfolioId>>): (r: Result<()>)
    ensures r.Ok? <==> forall i :: 0 <= i < |ids| ==> nftOwner(ticker, ids[i]) == Done(Some(portfolio))
    ensures r.Err? ==> || r.error == NotInPortfolio
                       || exists i :: 0 <= i < |ids| && nftOwner(ticker, ids[i]).Failed? &&
                                      r.error == FromRuntime(nftOwner(ticker, ids[i]).cause)
    decreases |ids|
  {
    if ids == [] then Ok(())
    else
      var owner := nftOwner(ticker, ids[0]);
      if owner.Failed? then Err(FromRuntime(owner.cause))
      else if owner.value != Some(portfolio) then Err(NotInPortfolio)
      else
        var rest := OwnerCheck(ticker, portfolio, ids[1..], nftOwner);
        assert forall i :: 1 <= i < |ids| ==> ids[i] == ids[1..][i - 1];
        rest
  }

  /** The sale entries after inserting one entry per pair, in order. */
  function Listing(sales: Sales, nfts: seq<(NFTId, Balance)>, account: AccountId, did: IdentityId): Sales
    decreases |nfts|
  {
    if nfts == [] then sales
    else
      var last := nfts[|nfts| - 1];
      Listing(sales, nfts[..|nfts| - 1], account, did)[last.0 := NftSaleDetails(account, did, last.1)]
  }

  /** The listing loop adds exactly the listed ids to the keys on sale. */
  lemma {:induction false} ListingKeys(sales: Sales, nfts: seq<(NFTId, Balance)>, account: AccountId, did: IdentityId)
    ensures Listing(sales, nfts, account, did).Keys == sales.Keys + IdKeys(ListedIds(nfts))
    decreases |nfts|
  {
    if nfts != [] {
      var m := |nfts| - 1;
      ListingKeys(sales, nfts[..m], account, did);
      ListedKeysSnoc(nfts);
    }
  }

  /** The price that goes with the last occurrence of `id` in the list, if it occurs. */
  function LastPrice(nfts: seq<(NFTId, Balance)>, id: NFTId): Option<Balance>
    decreases |nfts|
  {
    if nfts == [] then None
    else if nfts[|nfts| - 1].0 == id then Some(nfts[|nfts| - 1].1)
    else LastPrice(nfts[..|nfts| - 1], id)
  }

  /** The ids of a list with one more pair at the end. */
  lemma ListedKeysSnoc(nfts: seq<(NFTId, Balance)>)
    requires nfts != []
    ensures IdKeys(ListedIds(nfts)) == IdKeys(ListedIds(nfts[..|nfts| - 1])) + {nfts[|nfts| - 1].0}
  {
    var m := |nfts| - 1;
    var front := nfts[..m];
    forall x | x in IdKeys(ListedIds(nfts)) ensures x in IdKeys(ListedIds(front)) + {nfts[m].0} {
      var i :| 0 <= i < |nfts| && ListedIds(nfts)[i] == x;
      if i < m { assert ListedIds(front)[i] == x; }
    }
    forall x | x in IdKeys(ListedIds(front)) ensures x in IdKeys(ListedIds(nfts)) {
      var i :| 0 <= i < m && ListedIds(front)[i] == x;
      assert ListedIds(nfts)[i] == x;
    }
    assert ListedIds(nfts)[m] == nfts[m].0;
  }

  /** `LastPrice` finds the last occurrence. */
  lemma {:induction false} LastPriceSpec(nfts: seq<(NFTId, Balance)>, id: NFTId)
    ensures LastPrice(nfts, id).Some? <==> id in IdKeys(ListedIds(nfts))
    ensures forall i :: 0 <= i < |nfts| && nfts[i].0 == id && (forall j :: i < j < |nfts| ==> nfts[j].0 != id) ==>
              LastPrice(nfts, id) == Some(nfts[i].1)
    decreases |nfts|
  {
    if nfts != [] {
      var m := |nfts| - 1;
      var front := nfts[..m];
      LastPriceSpec(front, id);
      ListedKeysSnoc(nfts);
      forall i | 0 <= i < |nfts| && nfts[i].0 == id && (forall j :: i < j < |nfts| ==> nfts[j].0 != id)
        ensures LastPrice(nfts, id) == Some(nfts[i].1)
      {
        if i < m {
          assert front[i] == nfts[i];
          assert forall j :: i < j < m ==> front[j] == nfts[j];
        }
      }
    }
  }

  /**
    After the listing loop, exactly the old keys and the listed ids are on
    sale; a listed id carries the caller's account and identity and the price
    of its last occurrence; every other entry is unchanged.
  */
  lemma {:induction false} ListingAt(sales: Sales, nfts: seq<(NFTId, Balance)>, account: AccountId, did: IdentityId, id: NFTId)
    ensures id in Listing(sales, nfts, account, did) <==> id in sales || LastPrice(nfts, id).Some?
    ensures LastPrice(nfts, id).Some? ==>
              Listing(sales, nfts, account, did)[id] == NftSaleDetails(account, did, LastPrice(nfts, id).value)
    ensures LastPrice(nfts, id).None? && id in sales ==> Listing(sales, nfts, account, did)[id] == sales[id]
    decreases |nfts|
  {
    if nfts != [] {
      ListingAt(sales, nfts[..|nfts| - 1], account, did, id);
    }
  }

  /** Every listed id ends up on sale, for the caller, at the price of its last occurrence. */
  lemma ListedSalesAt(sales: Sales, nfts: seq<(NFTId, Balance)>, account: AccountId, did: IdentityId)
    ensures forall i :: 0 <= i < |nfts| ==>
              && LastPrice(nfts, nfts[i].0).Some?
              && nfts[i].0 in Listing(sales, nfts, account, did)
              && Listing(sales, nfts, account, did)[nfts[i].0] == NftSaleDetails(account, did, LastPrice(nfts, nfts[i].0).value)
  {
    forall i | 0 <= i < |nfts|
      ensures LastPrice(nfts, nfts[i].0).Some?
      ensures nfts[i].0 in Listing(sales, nfts, account, did)
      ensures Listing(sales, nfts, account, did)[nfts[i].0] == NftSaleDetails(account, did, LastPrice(nfts, nfts[i].0).value)
    {
      LastPriceSpec(nfts, nfts[i].0);
      assert ListedIds(nfts)[i] == nfts[i].0;
      ListingAt(sales, nfts, account, did, nfts[i].0);
    }
  }

  // ---------------------------------------------------------------------------
  // The storage invariant
  // ---------------------------------------------------------------------------

  /**
    Each portfolio is stored under its owner's identity, and every sale entry
    names an identity with a portfolio whose set lists that NFT.
  */
  predicate Consistent(portfolios: Portfolios, sales: Sales)
  {
    && (forall d | d in portfolios :: portfolios[d].id.did == d)
    && (forall id | id in sales :: sales[id].did in portfolios && id.n in portfolios[sales[id].did].nfts)
  }

  /** In a consistent storage, the seller of an NFT on sale has a portfolio from which that NFT can be removed. */
  lemma SaleIsBacked(portfolios: Portfolios, sales: Sales, nft: NFTId)
    requires Consistent(portfolios, sales) && nft in sales
    ensures sales[nft].did in portfolios
    ensures portfolios[sales[nft].did].id.did == sales[nft].did
    ensures RemoveAll(portfolios[sales[nft].did].nfts, [nft]).Ok?
  {
    var s := portfolios[sales[nft].did].nfts;
    assert RemoveAll(s, [nft]) == RemoveAll(s - {nft.n}, []);
  }

  /** Registering a new portfolio with an empty set keeps the storage consistent. */
  lemma AddKeepsConsistent(portfolios: Portfolios, sales: Sales, id: PortfolioId)
    requires Consistent(portfolios, sales) && id.did !in portfolios
    ensures Consistent(portfolios[id.did := NftPortfolioDetails(id, {})], sales)
  {
  }

  /** Deleting a portfolio together with the sale entries of its NFTs keeps the storage consistent. */
  lemma RemovePortfolioKeepsConsistent(portfolios: Portfolios, sales: Sales, did: IdentityId)
    requires Consistent(portfolios, sales) && did in portfolios
    ensures Consistent(portfolios - {did}, sales - SaleKeys(portfolios[did].nfts))
  {
  }

  /** Removing listed NFTs from a portfolio together with their sale entries keeps the storage consistent. */
  lemma WithdrawKeepsConsistent(portfolios: Portfolios, sales: Sales, did: IdentityId, ids: seq<NFTId>)
    requires Consistent(portfolios, sales) && did in portfolios
    requires RemoveAll(portfolios[did].nfts, ids).Ok?
    ensures Consistent(portfolios[did := portfolios[did].(nfts := RemoveAll(portfolios[did].nfts, ids).value)],
                       sales - IdKeys(ids))
  {
    RemoveAllSpec(portfolios[did].nfts, ids);
  }

  /** Listing NFTs from a registered portfolio keeps the storage consistent. */
  lemma ListingKeepsConsistent(portfolios: Portfolios, sales: Sales, did: IdentityId,
                               nfts: seq<(NFTId, Balance)>, account: AccountId)
    requires Consistent(portfolios, sales) && did in portfolios
    ensures Consistent(portfolios[did := portfolios[did].(nfts := portfolios[did].nfts + Serials(ListedIds(nfts)))],
                       Listing(sales, nfts, account, did))
  {
    var portfolios' := portfolios[did := portfolios[did].(nfts := portfolios[did].nfts + Serials(ListedIds(nfts)))];
    var sales' := Listing(sales, nfts, account, did);
    forall id | id in sales'
      ensures sales'[id].did in portfolios' && id.n in portfolios'[sales'[id].did].nfts
    {
      ListingAt(sales, nfts, account, did, id);
      LastPriceSpec(nfts, id);
      if LastPrice(nfts, id).Some? {
        var i :| 0 <= i < |nfts| && ListedIds(nfts)[i] == id;
        assert ListedIds(nfts)[i].n == id.n;
      }
    }
  }
}
