/**
  The values of the NFT SZN 2024 trading contract (`lib.rs`): the chain's
  identifiers, the contract's error enum, its lifecycle state with the two
  guards on it, and the two records kept in storage.

  Identifiers that the chain defines as 32-byte arrays (accounts and
  identities) are modelled as opaque natural numbers; only their equality
  matters to the contract.
*/
module TraderTypes {

  /** Rust's unsigned integer widths. */
  type u8 = x: int | 0 <= x < 0x100
  type u64 = x: int | 0 <= x < 0x1_0000_0000_0000_0000
  type u128 = x: int | 0 <= x < 0x1_0000_0000_0000_0000_0000_0000_0000_0000

  /** The chain's balance type. */
  type Balance = u128

  /** A 32-byte account; the value `env().caller()` returns. */
  datatype AccountId = AccountId(raw: nat)

  /** A 32-byte Polymesh identity (DID). `IdentityId(0)` stands for the all-zero identity. */
  datatype IdentityId = IdentityId(raw: nat)

  /** The identity a fresh contract stores before `init` sets its own. */
  const ZeroDid := IdentityId(0)

  /** A settlement venue number. */
  datatype VenueId = VenueId(n: u64)

  /** An NFT of the collection, by its serial number. */
  datatype NFTId = NFTId(n: u64)

  /** A portfolio of an identity: its default one or a numbered user portfolio. */
  datatype PortfolioKind = Default | User(number: u64)

  datatype PortfolioId = PortfolioId(did: IdentityId, kind: PortfolioKind)

  /** A ticker: twelve bytes, padded with zeros. */
  type Ticker = s: seq<u8> | |s| == 12 witness [0, 0, 0, 0, 0, 0, 0, 0, 0, 0, 0, 0]

  /** The collection the contract's `default` constructor trades: "NFTSZN2024" padded with two zero bytes. */
  const DefaultTicker: Ticker := [0x4e, 0x46, 0x54, 0x53, 0x5a, 0x4e, 0x32, 0x30, 0x32, 0x34, 0x00, 0x00]

  /** An error reported by the Polymesh runtime; its variants belong to the runtime and are not told apart here. */
  datatype PolymeshError = PolymeshError(code: nat)

  /** The contract's errors, one per variant of its error enum. */
  datatype Error =
    | PolymeshInk(cause: PolymeshError)
    | ScaleError
    | NotInitialized
    | AlreadyInitialized
    | ContractClosed
    | InvalidPortfolioAuthorization
    | AlreadyHavePortfolio
    | NoPortfolio
    | MissingPortfolio
    | NotInPortfolio
    | NotForSale
    | TransferredValueTooLow
    | FailedToPaySeller
    | NotAdmin

  /** The contract's result type; `Result<()>` is a message that returns nothing. */
  datatype Result<T> = Ok(value: T) | Err(error: Error)

  /** What a Polymesh runtime call returns: a value, or the runtime's error. */
  datatype RuntimeResult<T> = Done(value: T) | Failed(cause: PolymeshError)

  /** A runtime error as the contract reports it, the conversion `?` applies to a runtime call. */
  function FromRuntime(cause: PolymeshError): (e: Error)
    ensures e.PolymeshInk? && e.cause == cause
  {
    PolymeshInk(cause)
  }

  /** The contract's lifecycle. A fresh contract is `Deployed`. */
  datatype ContractState = Deployed | Initialized | Closed

  /** Trading is allowed only in the Initialized state. */
  function EnsureReady(s: ContractState): (r: Result<()>)
    ensures r.Ok? <==> s == Initialized
    ensures r.Err? ==> r.error == NotInitialized
  {
    match s
    case Initialized => Ok(())
    case _ => Err(NotInitialized)
  }

  /** Withdrawals stay allowed after the contract is closed; only a contract never initialised refuses them. */
  function EnsureWithdraw(s: ContractState): (r: Result<()>)
    ensures r.Ok? <==> s != Deployed
    ensures r.Err? ==> r.error == NotInitialized
  {
    match s
    case Initialized => Ok(())
    case Closed => Ok(())
    case _ => Err(NotInitialized)
  }

  /** What a sale entry records: who is paid, the seller's identity and the price. */
  datatype NftSaleDetails = NftSaleDetails(account: AccountId, did: IdentityId, price: Balance)

  /** A portfolio in the contract's custody and the serial numbers of the NFTs listed from it. */
  datatype NftPortfolioDetails = NftPortfolioDetails(id: PortfolioId, nfts: set<u64>)

  /**
    Removes `nft` from the portfolio's set, which the source updates in place;
    here the updated record is returned as `p'`.
  */
  method RemoveNft(p: NftPortfolioDetails, nft: NFTId) returns (r: Result<()>, p': NftPortfolioDetails)
    ensures r.Ok? <==> nft.n in p.nfts
    ensures r.Ok? ==> p'.id == p.id && nft.n !in p'.nfts && p'.nfts + {nft.n} == p.nfts
    ensures r.Err? ==> r.error == NotInPortfolio && p' == p
  {
    if nft.n in p.nfts {
      p' := p.(nfts := p.nfts - {nft.n});
      r := Ok(());
    } else {
      p' := p;
      r := Err(NotInPortfolio);
    }
  }
}
