/**
  The NFT SZN 2024 trading contract (`NftSzn24Trader` in `lib.rs`).

  Storage is the class's fields; the two storage mappings are `map` fields
  that the messages reassign. What the contract asks of its environment
  arrives as parameters: the caller's account (`env().caller()`), the value
  transferred with a payable message, and the result of every Polymesh
  runtime call. A runtime call whose result depends on its arguments is a
  total function parameter, so that the contracts can say what it was asked.

  When a message returns `Err`, ink! discards its storage writes. The
  messages below write in the source's order and, on an error after a
  write, restore the fields they wrote before returning.
*/
module Trader {
  import opened Wrappers
  import opened TraderTypes
  import opened TraderSpec

  /** A transfer of value made by the contract. */
  datatype Payment = Payment(to: AccountId, amount: Balance)

  class NftSzn24Trader {
    /** The lifecycle state. */
    var state: ContractState
    /** The account that deployed the contract; only it may `init` and `close`. */
    var admin: Option<AccountId>
    /** The NFT collection traded. */
    var ticker: Ticker
    /** The venue settlements are created in. */
    var venue: VenueId
    /** The contract's own identity. */
    var did: IdentityId
    /** Portfolios in the contract's custody, by owner identity. */
    var portfolios: Portfolios
    /** NFTs on sale. */
    var nftSales: Sales

    /** The storage invariant that the messages keep. */
    ghost predicate Valid()
      reads this`portfolios, this`nftSales
    {
      Consistent(portfolios, nftSales)
    }

    /** `new(ticker)`: a Deployed contract administered by its deployer, with nothing in custody. */
    constructor New(ticker: Ticker, caller: AccountId)
      ensures state == Deployed && admin == Some(caller) && this.ticker == ticker
      ensures venue == VenueId(0) && did == ZeroDid
      ensures portfolios == map[] && nftSales == map[]
      ensures Valid()
    {
      state := Deployed;
      admin := Some(caller);
      this.ticker := ticker;
      venue := VenueId(0);
      did := ZeroDid;
      portfolios := map[];
      nftSales := map[];
    }

    /** `default()`: `new` for the NFTSZN2024 collection. */
    constructor Default(caller: AccountId)
      ensures state == Deployed && admin == Some(caller) && ticker == DefaultTicker
      ensures venue == VenueId(0) && did == ZeroDid
      ensures portfolios == map[] && nftSales == map[]
      ensures Valid()
    {
      state := Deployed;
      admin := Some(caller);
      ticker := DefaultTicker;
      venue := VenueId(0);
      did := ZeroDid;
      portfolios := map[];
      nftSales := map[];
    }

    // -------------------------------------------------------------------------
    // Guards
    // -------------------------------------------------------------------------

    /** The caller's portfolio, looked up under the identity the runtime reports for the caller. */
    function EnsureHasPortfolio(callerDid: RuntimeResult<IdentityId>): (r: Result<NftPortfolioDetails>)
      reads this`portfolios
      ensures r.Ok? <==> callerDid.Done? && callerDid.value in portfolios
      ensures r.Ok? ==> r.value == portfolios[callerDid.value]
      ensures callerDid.Failed? ==> r == Err(FromRuntime(callerDid.cause))
      ensures callerDid.Done? && callerDid.value !in portfolios ==> r == Err(NoPortfolio)
    {
      if callerDid.Failed? then Err(FromRuntime(callerDid.cause))
      else if callerDid.value in portfolios then Ok(portfolios[callerDid.value])
      else Err(NoPortfolio)
    }

    /** Refuses an identity that already has a portfolio here. */
    function EnsureNoPortfolio(did: IdentityId): (r: Result<()>)
      reads this`portfolios
      ensures r.Ok? <==> did !in portfolios
      ensures r.Err? ==> r.error == AlreadyHavePortfolio
    {
      if did in portfolios then Err(AlreadyHavePortfolio) else Ok(())
    }

    /** Only the admin passes; a contract without an admin refuses everyone. */
    function EnsureAdmin(caller: AccountId): (r: Result<()>)
      reads this`admin
      ensures r.Ok? <==> admin.Some? && admin.value == caller
      ensures r.Err? ==> r.error == NotAdmin
    {
      if admin == Some(caller) then Ok(()) else Err(NotAdmin)
    }

    /** Asks the chain who holds each NFT, and refuses at the first one that `portfolio` does not hold. */
    method EnsureNftInPortfolio(portfolio: PortfolioId, ids: seq<NFTId>,
                                nftOwner: (Ticker, NFTId) -> RuntimeResult<Option<PortfolioId>>)
      returns (r: Result<()>)
      ensures r == OwnerCheck(ticker, portfolio, ids, nftOwner)
    {
      var i := 0;
      while i < |ids|
        invariant i <= |ids|
        invariant OwnerCheck(ticker, portfolio, ids, nftOwner) == OwnerCheck(ticker, portfolio, ids[i..], nftOwner)
      {
        var owner := nftOwner(ticker, ids[i]);
        if owner.Failed? {
          return Err(FromRuntime(owner.cause));
        }
        if owner.value != Some(portfolio) {
          return Err(NotInPortfolio);
        }
        assert ids[i..][1..] == ids[i + 1..];
        i := i + 1;
      }
      return Ok(());
    }

    /** `venue()`: the settlement venue, once the contract is ready. */
    function Venue(): (r: Result<VenueId>)
      reads this`state, this`venue
      ensures r.Ok? <==> state == Initialized
      ensures r.Ok? ==> r.value == venue
      ensures r.Err? ==> r.error == NotInitialized
    {
      if EnsureReady(state).Err? then Err(NotInitialized) else Ok(venue)
    }

    /** `contract_did()`: the contract's identity, once the contract is ready. */
    function ContractDid(): (r: Result<IdentityId>)
      reads this`state, this`did
      ensures r.Ok? <==> state == Initialized
      ensures r.Ok? ==> r.value == did
      ensures r.Err? ==> r.error == NotInitialized
    {
      if EnsureReady(state).Err? then Err(NotInitialized) else Ok(did)
    }

    // -------------------------------------------------------------------------
    // Messages
    // -------------------------------------------------------------------------

    /**
      `init`: records the contract's identity and a new venue, and makes the
      contract Initialized. As written it refuses a Deployed contract with
      `AlreadyInitialized`, so a fresh contract cannot be initialised until
      the admin has closed it.
    */
    method Init(caller: AccountId, api: RuntimeResult<()>, ourDid: RuntimeResult<IdentityId>,
                newVenue: RuntimeResult<VenueId>) returns (r: Result<()>)
      modifies this`state, this`did, this`venue
      ensures admin != Some(caller) ==> r == Err(NotAdmin)
      ensures admin == Some(caller) && old(state) == Deployed ==> r == Err(AlreadyInitialized)
      ensures r.Ok? <==> admin == Some(caller) && old(state) != Deployed && api.Done? && ourDid.Done? && newVenue.Done?
      ensures admin == Some(caller) && old(state) != Deployed ==>
                && (api.Failed? ==> r == Err(FromRuntime(api.cause)))
                && (api.Done? && ourDid.Failed? ==> r == Err(FromRuntime(ourDid.cause)))
                && (api.Done? && ourDid.Done? && newVenue.Failed? ==> r == Err(FromRuntime(newVenue.cause)))
      ensures r.Ok? ==> state == Initialized && did == ourDid.value && venue == newVenue.value
      ensures r.Err? ==> state == old(state) && did == old(did) && venue == old(venue)
    {
      r := EnsureAdmin(caller);
      if r.Err? {
        return;
      }
      if state == Deployed {
        return Err(AlreadyInitialized);
      }
      if api.Failed? {
        return Err(FromRuntime(api.cause));
      }
      if ourDid.Failed? {
        return Err(FromRuntime(ourDid.cause));
      }
      var did0 := did;
      did := ourDid.value;
      if newVenue.Failed? {
        did := did0;
        return Err(FromRuntime(newVenue.cause));
      }
      venue := newVenue.value;
      state := Initialized;
      return Ok(());
    }

    /** `close`: the admin stops trading, from any state; withdrawals stay open. */
    method Close(caller: AccountId) returns (r: Result<()>)
      modifies this`state
      ensures r.Ok? <==> admin == Some(caller)
      ensures r.Err? ==> r.error == NotAdmin && state == old(state)
      ensures r.Ok? ==> state == Closed
    {
      r := EnsureAdmin(caller);
      if r.Err? {
        return;
      }
      state := Closed;
    }

    /**
      `remove_nfts`: removes each id from the portfolio's set and its sale
      entry, then stores the portfolio under its owner's identity. Returns
      the portfolio's id. At the first id not in the set it fails with
      `NotInPortfolio`, leaving the sale entries of the ids before it removed.
    */
    method RemoveNfts(p: NftPortfolioDetails, ids: seq<NFTId>) returns (r: Result<PortfolioId>)
      modifies this`portfolios, this`nftSales
      ensures r.Ok? <==> RemoveAll(p.nfts, ids).Ok?
      ensures nftSales == old(nftSales) - IdKeys(ids[..Removed(p.nfts, ids)])
      ensures r.Ok? ==> && r.value == p.id
                        && portfolios == old(portfolios)[p.id.did := p.(nfts := RemoveAll(p.nfts, ids).value)]
      ensures r.Err? ==> r.error == NotInPortfolio && portfolios == old(portfolios)
    {
      var did := p.id.did;
      var q := p;
      var i := 0;
      while i < |ids|
        invariant i <= |ids| && q.id == p.id
        invariant RemoveAll(p.nfts, ids) == RemoveAll(q.nfts, ids[i..])
        invariant Removed(p.nfts, ids) == i + Removed(q.nfts, ids[i..])
        invariant nftSales == old(nftSales) - IdKeys(ids[..i])
        invariant portfolios == old(portfolios)
      {
        assert ids[i..][1..] == ids[i + 1..];
        ghost var before := q.nfts;
        var e;
        e, q := RemoveNft(q, ids[i]);
        if e.Err? {
          return Err(e.error);
        }
        assert q.nfts == before - {ids[i].n};
        nftSales := nftSales - {ids[i]};
        assert IdKeys(ids[..i + 1]) == IdKeys(ids[..i]) + {ids[i]} by {
          assert ids[..i + 1] == ids[..i] + [ids[i]];
        }
        i := i + 1;
      }
      assert ids[..i] == ids;
      portfolios := portfolios[did := q];
      return Ok(q.id);
    }

    /**
      `add_portfolio`: accepts custody of the caller's portfolio (the
      authorization `authId` names it) and registers it with an empty set.
      An identity can register only one portfolio.
    */
    method AddPortfolio(authId: u64, kind: PortfolioKind, api: RuntimeResult<()>,
                        acceptCustody: (u64, PortfolioKind) -> RuntimeResult<PortfolioId>) returns (r: Result<()>)
      modifies this`portfolios
      ensures state != Initialized ==> r == Err(NotInitialized)
      ensures state == Initialized && api.Failed? ==> r == Err(FromRuntime(api.cause))
      ensures state == Initialized && api.Done? && acceptCustody(authId, kind).Failed? ==>
                r == Err(FromRuntime(acceptCustody(authId, kind).cause))
      ensures (state == Initialized && api.Done? && acceptCustody(authId, kind).Done? &&
               acceptCustody(authId, kind).value.did in old(portfolios)) ==> r == Err(AlreadyHavePortfolio)
      ensures r.Ok? <==> state == Initialized && api.Done? && acceptCustody(authId, kind).Done? &&
                         acceptCustody(authId, kind).value.did !in old(portfolios)
      ensures r.Ok? ==> var id := acceptCustody(authId, kind).value;
                portfolios == old(portfolios)[id.did := NftPortfolioDetails(id, {})]
      ensures r.Err? ==> portfolios == old(portfolios)
      ensures old(Valid()) ==> Valid()
    {
      r := EnsureReady(state);
      if r.Err? {
        return;
      }
      if api.Failed? {
        return Err(FromRuntime(api.cause));
      }
      var custody := acceptCustody(authId, kind);
      if custody.Failed? {
        return Err(FromRuntime(custody.cause));
      }
      var callerDid := custody.value.did;
      r := EnsureNoPortfolio(callerDid);
      if r.Err? {
        return;
      }
      if Valid() {
        AddKeepsConsistent(portfolios, nftSales, custody.value);
      }
      portfolios := portfolios[callerDid := NftPortfolioDetails(custody.value, {})];
    }

    /**
      `remove_portfolio`: gives the caller's portfolio back to its owner,
      forgets it, and takes its NFTs off sale. Allowed after close.
    */
    method RemovePortfolio(callerDid: RuntimeResult<IdentityId>, api: RuntimeResult<()>,
                           quitCustody: PortfolioId -> RuntimeResult<()>) returns (r: Result<()>)
      modifies this`portfolios, this`nftSales
      ensures state == Deployed ==> r == Err(NotInitialized)
      ensures state != Deployed && old(EnsureHasPortfolio(callerDid)).Err? ==>
                r == Err(old(EnsureHasPortfolio(callerDid)).error)
      ensures r.Ok? <==> state != Deployed && old(EnsureHasPortfolio(callerDid)).Ok? && api.Done? &&
                         quitCustody(old(EnsureHasPortfolio(callerDid)).value.id).Done?
      ensures state != Deployed && old(EnsureHasPortfolio(callerDid)).Ok? ==>
                var p := old(EnsureHasPortfolio(callerDid)).value;
                && (api.Failed? ==> r == Err(FromRuntime(api.cause)))
                && (api.Done? && quitCustody(p.id).Failed? ==> r == Err(FromRuntime(quitCustody(p.id).cause)))
      ensures r.Ok? ==> var p := old(portfolios)[callerDid.value];
                portfolios == old(portfolios) - {p.id.did} && nftSales == old(nftSales) - SaleKeys(p.nfts)
      ensures r.Err? ==> portfolios == old(portfolios) && nftSales == old(nftSales)
      ensures old(Valid()) ==> Valid()
    {
      r := EnsureWithdraw(state);
      if r.Err? {
        return;
      }
      var found := EnsureHasPortfolio(callerDid);
      if found.Err? {
        return Err(found.error);
      }
      var p := found.value;
      var ownerDid := p.id.did;
      if api.Failed? {
        return Err(FromRuntime(api.cause));
      }
      ghost var sales0 := nftSales;
      var quit := quitCustody(p.id);
      if quit.Failed? {
        return Err(FromRuntime(quit.cause));
      }
      if Valid() {
        RemovePortfolioKeepsConsistent(portfolios, nftSales, ownerDid);
      }
      portfolios := portfolios - {ownerDid};
      var rest := p.nfts;
      while rest != {}
        invariant rest <= p.nfts
        invariant nftSales == sales0 - SaleKeys(p.nfts - rest)
        invariant portfolios == old(portfolios) - {ownerDid}
        decreases rest
      {
        var n :| n in rest;
        nftSales := nftSales - {NFTId(n)};
        rest := rest - {n};
        assert SaleKeys(p.nfts - rest) == SaleKeys(p.nfts - (rest + {n})) + {NFTId(n)};
      }
      assert p.nfts - rest == p.nfts;
    }

    /**
      `withdraw`: takes the listed NFTs off sale and out of the caller's set,
      and moves them from the custodial portfolio to the caller's `dest`
      portfolio. Allowed after close.
    */
    method Withdraw(ids: seq<NFTId>, dest: PortfolioKind, callerDid: RuntimeResult<IdentityId>, api: RuntimeResult<()>,
                    moveFunds: (PortfolioId, PortfolioId, seq<NFTId>) -> RuntimeResult<()>) returns (r: Result<()>)
      modifies this`portfolios, this`nftSales
      ensures state == Deployed ==> r == Err(NotInitialized)
      ensures state != Deployed && old(EnsureHasPortfolio(callerDid)).Err? ==>
                r == Err(old(EnsureHasPortfolio(callerDid)).error)
      ensures (state != Deployed && old(EnsureHasPortfolio(callerDid)).Ok? &&
               RemoveAll(old(EnsureHasPortfolio(callerDid)).value.nfts, ids).Err?) ==> r == Err(NotInPortfolio)
      ensures r.Ok? <==> state != Deployed && old(EnsureHasPortfolio(callerDid)).Ok? &&
                         var p := old(EnsureHasPortfolio(callerDid)).value;
                         RemoveAll(p.nfts, ids).Ok? && api.Done? &&
                         moveFunds(p.id, PortfolioId(p.id.did, dest), ids).Done?
      ensures (state != Deployed && old(EnsureHasPortfolio(callerDid)).Ok? &&
               RemoveAll(old(EnsureHasPortfolio(callerDid)).value.nfts, ids).Ok?) ==>
                var p := old(EnsureHasPortfolio(callerDid)).value;
                && (api.Failed? ==> r == Err(FromRuntime(api.cause)))
                && (api.Done? && moveFunds(p.id, PortfolioId(p.id.did, dest), ids).Failed? ==>
                      r == Err(FromRuntime(moveFunds(p.id, PortfolioId(p.id.did, dest), ids).cause)))
      ensures r.Ok? ==> var p := old(portfolios)[callerDid.value];
                && portfolios == old(portfolios)[p.id.did := p.(nfts := RemoveAll(p.nfts, ids).value)]
                && nftSales == old(nftSales) - IdKeys(ids)
      ensures r.Err? ==> portfolios == old(portfolios) && nftSales == old(nftSales)
      ensures old(Valid()) ==> Valid()
    {
      r := EnsureWithdraw(state);
      if r.Err? {
        return;
      }
      var found := EnsureHasPortfolio(callerDid);
      if found.Err? {
        return Err(found.error);
      }
      var p := found.value;
      ghost var valid := Valid();
      var portfolios0, sales0 := portfolios, nftSales;
      var from := RemoveNfts(p, ids);
      if from.Err? {
        portfolios, nftSales := portfolios0, sales0;
        return Err(from.error);
      }
      RemoveAllSpec(p.nfts, ids);
      assert ids[..Removed(p.nfts, ids)] == ids;
      if valid {
        WithdrawKeepsConsistent(portfolios0, sales0, p.id.did, ids);
      }
      var to := PortfolioId(from.value.did, dest);
      if api.Failed? {
        portfolios, nftSales := portfolios0, sales0;
        return Err(FromRuntime(api.cause));
      }
      var moved := moveFunds(from.value, to, ids);
      if moved.Failed? {
        portfolios, nftSales := portfolios0, sales0;
        return Err(FromRuntime(moved.cause));
      }
    }

    /**
      `nft_for_sell`: lists NFTs held in the caller's custodial portfolio.
      After the chain confirms that portfolio holds each of them, their serial
      numbers join the portfolio's set and each gets a sale entry naming the
      caller's account, the portfolio owner's identity and its price; an id
      listed twice keeps the later price.
    */
    method NftForSell(caller: AccountId, nfts: seq<(NFTId, Balance)>, callerDid: RuntimeResult<IdentityId>,
                      nftOwner: (Ticker, NFTId) -> RuntimeResult<Option<PortfolioId>>) returns (r: Result<()>)
      modifies this`portfolios, this`nftSales
      ensures state != Initialized ==> r == Err(NotInitialized)
      ensures state == Initialized && old(EnsureHasPortfolio(callerDid)).Err? ==>
                r == Err(old(EnsureHasPortfolio(callerDid)).error)
      ensures r.Ok? <==> state == Initialized && old(EnsureHasPortfolio(callerDid)).Ok? &&
                         OwnerCheck(ticker, old(EnsureHasPortfolio(callerDid)).value.id, ListedIds(nfts), nftOwner).Ok?
      ensures state == Initialized && old(EnsureHasPortfolio(callerDid)).Ok? ==>
                r.Ok? || r == OwnerCheck(ticker, old(EnsureHasPortfolio(callerDid)).value.id, ListedIds(nfts), nftOwner)
      ensures r.Ok? ==> var p := old(portfolios)[callerDid.value];
                && portfolios == old(portfolios)[p.id.did := p.(nfts := p.nfts + Serials(ListedIds(nfts)))]
                && nftSales == Listing(old(nftSales), nfts, caller, p.id.did)
      ensures r.Ok? ==> var owner := old(portfolios)[callerDid.value].id.did;
                forall i :: 0 <= i < |nfts| ==>
                  && nfts[i].0.n in portfolios[owner].nfts
                  && nfts[i].0 in nftSales && LastPrice(nfts, nfts[i].0).Some?
                  && nftSales[nfts[i].0] == NftSaleDetails(caller, owner, LastPrice(nfts, nfts[i].0).value)
      ensures r.Err? ==> portfolios == old(portfolios) && nftSales == old(nftSales)
      ensures old(Valid()) ==> Valid()
    {
      r := EnsureReady(state);
      if r.Err? {
        return;
      }
      var found := EnsureHasPortfolio(callerDid);
      if found.Err? {
        return Err(found.error);
      }
      var p := found.value;
      var owner := p.id.did;
      r := EnsureNftInPortfolio(p.id, ListedIds(nfts), nftOwner);
      if r.Err? {
        return;
      }
      var listed := AddSerials(p.nfts, nfts);
      if Valid() {
        ListingKeepsConsistent(portfolios, nftSales, owner, nfts, caller);
      }
      portfolios := portfolios[owner := p.(nfts := listed)];
      ListSales(nfts, caller, owner);
    }

    /** The first loop of `nft_for_sell`: each listed serial number joins the set. */
    static method AddSerials(s: set<u64>, nfts: seq<(NFTId, Balance)>) returns (s': set<u64>)
      ensures s' == s + Serials(ListedIds(nfts))
      ensures forall i :: 0 <= i < |nfts| ==> nfts[i].0.n in s'
    {
      s' := s;
      var i := 0;
      while i < |nfts|
        invariant i <= |nfts|
        invariant s' == s + Serials(ListedIds(nfts)[..i])
      {
        assert ListedIds(nfts)[..i + 1] == ListedIds(nfts)[..i] + [nfts[i].0];
        s' := s' + {nfts[i].0.n};
        i := i + 1;
      }
      assert ListedIds(nfts)[..i] == ListedIds(nfts);
      forall j | 0 <= j < |nfts| ensures nfts[j].0.n in s' {
        assert ListedIds(nfts)[j].n == nfts[j].0.n;
      }
    }

    /** The second loop of `nft_for_sell`: one sale entry per (id, price), in order. */
    method ListSales(nfts: seq<(NFTId, Balance)>, account: AccountId, owner: IdentityId)
      modifies this`nftSales
      ensures nftSales == Listing(old(nftSales), nfts, account, owner)
      ensures forall i :: 0 <= i < |nfts| ==>
                && nfts[i].0 in nftSales && LastPrice(nfts, nfts[i].0).Some?
                && nftSales[nfts[i].0] == NftSaleDetails(account, owner, LastPrice(nfts, nfts[i].0).value)
    {
      var i := 0;
      while i < |nfts|
        invariant i <= |nfts|
        invariant nftSales == Listing(old(nftSales), nfts[..i], account, owner)
      {
        assert nfts[..i + 1][..i] == nfts[..i];
        nftSales := nftSales[nfts[i].0 := NftSaleDetails(account, owner, nfts[i].1)];
        i := i + 1;
      }
      assert nfts[..i] == nfts;
      ListedSalesAt(old(nftSales), nfts, account, owner);
    }

    /**
      `buy_nft`: the caller pays at least the price and receives the NFT. The
      checks run in order: the NFT must be on sale (its entry is taken out
      first), the seller must still have a portfolio, the transferred value
      must cover the price, and the caller must have a portfolio. The NFT then
      leaves the seller's set, is settled to the buyer, and the seller is paid
      the whole transferred value. `payment` is the transfer made, if any.
    */
    method BuyNft(nft: NFTId, transferred: Balance, callerDid: RuntimeResult<IdentityId>, api: RuntimeResult<()>,
                  settle: (VenueId, PortfolioId, PortfolioId, NFTId) -> RuntimeResult<()>,
                  pay: (AccountId, Balance) -> bool) returns (r: Result<()>, payment: Option<Payment>)
      modifies this`portfolios, this`nftSales
      ensures state != Initialized ==> r == Err(NotInitialized)
      ensures state == Initialized && nft !in old(nftSales) ==> r == Err(NotForSale)
      ensures state == Initialized && nft in old(nftSales) && old(nftSales)[nft].did !in old(portfolios) ==>
                r == Err(MissingPortfolio)
      ensures (state == Initialized && nft in old(nftSales) && old(nftSales)[nft].did in old(portfolios) &&
               old(nftSales)[nft].price > transferred) ==> r == Err(TransferredValueTooLow)
      ensures (state == Initialized && nft in old(nftSales) && old(nftSales)[nft].did in old(portfolios) &&
               old(nftSales)[nft].price <= transferred) ==>
                var sale := old(nftSales)[nft];
                var seller := old(portfolios)[sale.did];
                var buyer := old(EnsureHasPortfolio(callerDid));
                && (buyer.Err? ==> r == Err(buyer.error))
                && (buyer.Ok? && nft.n !in seller.nfts ==> r == Err(NotInPortfolio))
                && (buyer.Ok? && nft.n in seller.nfts && api.Failed? ==> r == Err(FromRuntime(api.cause)))
                && (buyer.Ok? && nft.n in seller.nfts && api.Done? &&
                    settle(venue, seller.id, buyer.value.id, nft).Failed? ==>
                      r == Err(FromRuntime(settle(venue, seller.id, buyer.value.id, nft).cause)))
                && (buyer.Ok? && nft.n in seller.nfts && api.Done? &&
                    settle(venue, seller.id, buyer.value.id, nft).Done? && !pay(sale.account, transferred) ==>
                      r == Err(FailedToPaySeller))
      ensures r.Ok? <==>
                && state == Initialized && nft in old(nftSales)
                && var sale := old(nftSales)[nft];
                && sale.did in old(portfolios) && sale.price <= transferred
                && old(EnsureHasPortfolio(callerDid)).Ok?
                && var seller := old(portfolios)[sale.did];
                && nft.n in seller.nfts && api.Done?
                && settle(venue, seller.id, old(EnsureHasPortfolio(callerDid)).value.id, nft).Done?
                && pay(sale.account, transferred)
      ensures r.Ok? ==> var sale := old(nftSales)[nft]; var seller := old(portfolios)[sale.did];
                && nftSales == old(nftSales) - {nft}
                && portfolios == old(portfolios)[seller.id.did := seller.(nfts := seller.nfts - {nft.n})]
                && payment == Some(Payment(sale.account, transferred))
      ensures r.Err? ==> portfolios == old(portfolios) && nftSales == old(nftSales) && payment == None
      ensures old(Valid()) ==> Valid() && r != Err(MissingPortfolio) && r != Err(NotInPortfolio)
    {
      payment := None;
      r := EnsureReady(state);
      if r.Err? {
        return;
      }
      ghost var valid := Valid();
      var portfolios0, sales0 := portfolios, nftSales;
      if nft !in nftSales {
        return Err(NotForSale), None;
      }
      var sale := nftSales[nft];
      nftSales := nftSales - {nft};
      if sale.did !in portfolios {
        nftSales := sales0;
        return Err(MissingPortfolio), None;
      }
      var seller := portfolios[sale.did];
      if sale.price > transferred {
        nftSales := sales0;
        return Err(TransferredValueTooLow), None;
      }
      var buyer := EnsureHasPortfolio(callerDid);
      if buyer.Err? {
        nftSales := sales0;
        return Err(buyer.error), None;
      }
      if valid {
        SaleIsBacked(portfolios0, sales0, nft);
        WithdrawKeepsConsistent(portfolios0, sales0, sale.did, [nft]);
      }
      assert RemoveAll(seller.nfts, [nft]) == if nft.n in seller.nfts then Ok(seller.nfts - {nft.n}) else Err(NotInPortfolio) by {
        assert [nft][1..] == [];
      }
      assert IdKeys([nft]) == {nft} by {
        assert [nft][0] == nft;
      }
      var from := RemoveNfts(seller, [nft]);
      if from.Err? {
        portfolios, nftSales := portfolios0, sales0;
        return Err(from.error), None;
      }
      if api.Failed? {
        portfolios, nftSales := portfolios0, sales0;
        return Err(FromRuntime(api.cause)), None;
      }
      var settled := settle(venue, from.value, buyer.value.id, nft);
      if settled.Failed? {
        portfolios, nftSales := portfolios0, sales0;
        return Err(FromRuntime(settled.cause)), None;
      }
      if !pay(sale.account, transferred) {
        portfolios, nftSales := portfolios0, sales0;
        return Err(FailedToPaySeller), None;
      }
      payment := Some(Payment(sale.account, transferred));
    }
  }

  /**
    `init` as written, over a contract's life: on a freshly deployed contract
    the admin's `init` fails with `AlreadyInitialized` and leaves it Deployed;
    only after the admin closes it does `init` (with the runtime calls
    succeeding) make it Initialized.
  */
  method InitOnlyAfterClose(admin: AccountId, ticker: Ticker, ourDid: IdentityId, newVenue: VenueId)
    returns (first: Result<()>, afterFirst: ContractState, closed: Result<()>, second: Result<()>, afterSecond: ContractState)
    ensures first == Err(AlreadyInitialized) && afterFirst == Deployed
    ensures closed.Ok?
    ensures second.Ok? && afterSecond == Initialized
  {
    var c := new NftSzn24Trader.New(ticker, admin);
    first := c.Init(admin, Done(()), Done(ourDid), Done(newVenue));
    afterFirst := c.state;
    closed := c.Close(admin);
    second := c.Init(admin, Done(()), Done(ourDid), Done(newVenue));
    afterSecond := c.state;
  }
}
