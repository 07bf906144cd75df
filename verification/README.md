# NFT SZN 2024 trader, modelled in Dafny

This project models two parts of the NFT SZN 2024 trading dApp.

- **The ink! contract `NftSzn24Trader` (`lib.rs`).** Owners hand a Polymesh
  portfolio over to the contract's custody (`add_portfolio`). They list NFTs
  from it at a price (`nft_for_sell`). Buyers pay at least that price to
  receive an NFT through a settlement (`buy_nft`). Owners can take NFTs or
  the whole portfolio back (`withdraw`, `remove_portfolio`). An admin
  initialises and closes the contract (`init`, `close`).
- **The front end's `tickerToString` (`utils/ticker.ts`).** It turns the
  chain's hex rendering of a 12-byte ticker back into text.

Files:

- `wrappers.dfy` holds `Option`.
- `trader_types.dfy` (module `TraderTypes`) holds the contract's value types:
  - identifiers, the error enum and the lifecycle state;
  - the state guards `EnsureReady` and `EnsureWithdraw`;
  - the two storage records, with `RemoveNft`.
- `trader_spec.dfy` (module `TraderSpec`) holds reference definitions for the
  contract's loops and the storage invariant `Consistent`, with their lemmas.
- `trader.dfy` (module `Trader`) holds the contract as a class. Storage is its
  fields; the two storage `Mapping`s are `map` fields.
  - Every message is a method whose `ensures` states the result for every
    path (each check's error, in the source's order) and the whole new storage.
  - Every message preserves `Consistent`, which says two things:
    - each portfolio is stored under its owner's identity;
    - each sale names an identity whose portfolio lists that NFT.
- `ticker.dfy` holds the decoder.
  - Module `TickerUtil` has:
    - JavaScript's `parseInt(s, 16)`: white space, sign, `0x` prefix and the
      longest run of hex digits, with an exact integer result. JavaScript
      rounds a long run of digits to a double; the loop only parses slices of
      at most two characters, where the result is exact;
    - `String.fromCharCode`;
    - a reference definition `Decode`;
    - the loop itself, `TickerToString`, proved equal to `Decode`.
  - Module `TickerProperties` states what the decoder guarantees, including a
    round trip with the hex encoding of a byte string.
- `deploy_vector.dfy` (module `DeployVector`) proves the deploy script's
  ticker argument `0x4e4654535a4e323032340000` has two properties:
  - it is the hex encoding of the contract's default ticker bytes;
  - it decodes to `"NFTSZN2024"`.

## How the environment is modelled

The contract's dependencies on its environment become parameters of the
method that uses them:

- The caller's account (`env().caller()`) and the value transferred with
  `buy_nft` are plain parameters.
- `PolymeshInk::get_caller_did()` is a parameter.
- Each Polymesh runtime call is a parameter of type
  `RuntimeResult<T> = Done(value) | Failed(cause)`.
  - Calls whose result depends on their arguments are total function
    parameters: `accept_portfolio_custody`, `quit_portfolio_custody`,
    `move_portfolio_funds`, `settlement_execute` and the `nft_owner` query.
    This lets the contracts say what each call was asked.
  - `FromRuntime` is the `From<PolymeshError>` conversion that `?` applies
    (lib.rs:51-61).
- `env().transfer` is a function parameter that returns whether the payment
  went through. `BuyNft` also returns the payment it made.

ink! discards a message's storage writes when the message returns `Err`. The
methods write in the source's order and restore what they wrote before any
`Err`. Their `ensures` therefore state "`Err` leaves storage unchanged"
directly.

`init` follows the code as written, which rejects a `Deployed` contract with
`AlreadyInitialized`. Two members state this:

- `Init`'s `ensures` states it.
- `InitOnlyAfterClose` walks a fresh contract through three steps: `init`
  fails; `close` succeeds; `init` then succeeds.

## Model

| member | source | states |
|---|---|---|
| TraderTypes.EnsureReady | lib.rs:153-160 | Ok exactly in the Initialized state, otherwise NotInitialized |
| TraderTypes.EnsureWithdraw | lib.rs:163-171 | Ok exactly when the contract is not Deployed (Initialized or Closed), otherwise NotInitialized |
| TraderTypes.RemoveNft | lib.rs:128-134 | Ok exactly when the serial number is in the set; then the new set is the old one minus exactly that number; otherwise NotInPortfolio and the record unchanged |
| Trader.NftSzn24Trader.New | lib.rs:205-212 | a Deployed contract administered by the caller, for the given ticker, with empty mappings and default venue and identity, satisfying the storage invariant |
| Trader.NftSzn24Trader.Default | lib.rs:196-201 | `New` for the twelve bytes "NFTSZN2024\0\0" |
| Trader.NftSzn24Trader.EnsureHasPortfolio | lib.rs:215-219 | Ok exactly when the caller's identity is known and has a portfolio, returning it; a failed identity lookup gives the runtime error, an unknown identity NoPortfolio |
| Trader.NftSzn24Trader.EnsureNoPortfolio | lib.rs:222-227 | Ok exactly when the identity has no portfolio, otherwise AlreadyHavePortfolio |
| Trader.NftSzn24Trader.EnsureAdmin | lib.rs:230-236 | Ok exactly when an admin is set and equals the caller, otherwise NotAdmin |
| Trader.NftSzn24Trader.EnsureNftInPortfolio | lib.rs:239-251 | the loop's result equals OwnerCheck: Ok exactly when the owner query reports the portfolio for every id; otherwise the first failure |
| Trader.NftSzn24Trader.Venue | lib.rs:280-284 | the venue exactly in the Initialized state, otherwise NotInitialized |
| Trader.NftSzn24Trader.ContractDid | lib.rs:286-290 | the contract's identity exactly in the Initialized state, otherwise NotInitialized |
| Trader.NftSzn24Trader.Init | lib.rs:254-266 | non-admin: NotAdmin; admin on a Deployed contract: AlreadyInitialized (as written); otherwise Ok exactly when the three runtime calls succeed, each failure reported in order; Ok sets identity, venue and Initialized; Err changes nothing |
| Trader.NftSzn24Trader.Close | lib.rs:273-278 | Ok exactly for the admin, from any state, and then the state is Closed; otherwise NotAdmin and the state unchanged |
| Trader.NftSzn24Trader.RemoveNfts | lib.rs:293-301 | Ok exactly when removing the ids in turn succeeds (RemoveAll); the sale entries of the ids processed before success or the first failure are removed; on Ok the portfolio is stored with the reduced set and its id returned |
| Trader.NftSzn24Trader.AddPortfolio | lib.rs:304-325 | checks in order: NotInitialized, runtime errors, AlreadyHavePortfolio; Ok exactly when all pass, inserting the accepted portfolio with an empty set; Err changes nothing; keeps the storage invariant |
| Trader.NftSzn24Trader.RemovePortfolio | lib.rs:327-352 | NotInitialized only when Deployed (allowed after close); then the caller's portfolio errors; then the error of a failed `PolymeshInk::new()`, then of a failed `quit_portfolio_custody`, each as PolymeshInk(cause); Ok deletes the portfolio and exactly the sale entries of its set; Err changes nothing; keeps the invariant |
| Trader.NftSzn24Trader.Withdraw | lib.rs:354-390 | NotInitialized only when Deployed; then the caller's portfolio errors; NotInPortfolio when an id is missing or repeated; then a failed `PolymeshInk::new()` or `move_portfolio_funds` as PolymeshInk(cause); Ok exactly when all checks and runtime calls succeed, removing the ids from the set and from sale; Err changes nothing; keeps the invariant |
| Trader.NftSzn24Trader.NftForSell | lib.rs:392-433 | NotInitialized, then portfolio errors, then the owner check's first failure; on Ok the listed serial numbers join the caller's set and each listed id is on sale as (caller, owner identity, price of its last occurrence); Err changes nothing; keeps the invariant |
| Trader.NftSzn24Trader.AddSerials | lib.rs:409-411 | the set after the loop is the old set plus every listed serial number |
| Trader.NftSzn24Trader.ListSales | lib.rs:415-425 | the sale entries after the loop are Listing of the old entries; each listed id maps to (account, identity, last price) |
| Trader.NftSzn24Trader.BuyNft | lib.rs:457-498 | checks in order, each with its error: NotInitialized, NotForSale, MissingPortfolio, TransferredValueTooLow, the buyer's portfolio (runtime error or NoPortfolio), NotInPortfolio, a failed `PolymeshInk::new()` or settlement as PolymeshInk(cause), FailedToPaySeller; Ok exactly when these, the removal, the settlement and the payment succeed; Ok removes the sale and the serial number and pays the seller the whole transferred value; Err changes nothing and pays nothing; under the invariant, MissingPortfolio and NotInPortfolio cannot occur |
| Trader.InitOnlyAfterClose | lib.rs:254-278 | on a fresh contract the admin's init fails with AlreadyInitialized and leaves it Deployed; after close, init succeeds and the contract is Initialized |
| TraderSpec.Removed | lib.rs:293-299 | the number of ids removed is at most the number given |
| TraderSpec.RemovedStopsAtMissing | lib.rs:295-298 | the ids before that index are removed one by one, and the id at that index, if any, is the first one missing from the shrinking set |
| TraderSpec.RemoveAll | lib.rs:295-298 | removing the ids in turn only shrinks the set, and its only error is NotInPortfolio |
| TraderSpec.RemoveAllSpec | lib.rs:293-299 | removing ids in turn succeeds exactly when they are distinct and all in the set, leaving the set minus their serial numbers; success means every id was removed |
| TraderSpec.OwnerCheck | lib.rs:239-251 | Ok exactly when every owner query returns the given portfolio; an error is NotInPortfolio or the runtime error of a failed query |
| TraderSpec.ListingKeys | lib.rs:415-425 | after the listing loop the keys on sale are the old keys plus exactly the listed ids |
| TraderSpec.Consistent | lib.rs:188-191 | the storage invariant: each portfolio is stored under its owner's identity, and each sale names an identity whose portfolio lists that NFT |
| Trader.NftSzn24Trader.Valid | lib.rs:188-191 | the storage invariant on the contract's two mappings |
| TraderTypes.FromRuntime | lib.rs:51-61 | a runtime error becomes the PolymeshInk variant carrying that error |
| TraderSpec.LastPriceSpec | lib.rs:415-425 | the last price is defined exactly for listed ids and is the price of the id's last occurrence |
| TraderSpec.ListingAt | lib.rs:415-425 | after the listing loop an id is on sale exactly when it was or is listed; a listed id carries the caller's details and last price; other entries are unchanged |
| TraderSpec.ListedSalesAt | lib.rs:415-425 | every listed id is on sale for the caller at its last price |
| TraderSpec.SaleIsBacked | lib.rs:466-481 | under the invariant the seller of an NFT on sale has a portfolio, stored under its identity, from which the NFT can be removed |
| TraderSpec.AddKeepsConsistent | lib.rs:313-318 | inserting a new portfolio with an empty set keeps the invariant |
| TraderSpec.RemovePortfolioKeepsConsistent | lib.rs:341-345 | deleting a portfolio with the sale entries of its set keeps the invariant |
| TraderSpec.WithdrawKeepsConsistent | lib.rs:293-301 | removing ids from a portfolio and from sale keeps the invariant |
| TraderSpec.ListingKeepsConsistent | lib.rs:409-425 | adding serial numbers to a portfolio and listing them keeps the invariant |
| TickerUtil.DigitRun | frontend/frontend/src/utils/ticker.ts:6 | the run of leading hex digits parseInt reads: all digits, ended by a non-digit or the end |
| TickerUtil.ParseInt16 | frontend/frontend/src/utils/ticker.ts:6 | `parseInt(s, 16)`: leading white space, optional sign, optional 0x prefix, longest run of hex digits, NaN when there is none |
| TickerUtil.ParseSlice | frontend/frontend/src/utils/ticker.ts:6 | `parseInt` on the slice of at most two characters the loop reads |
| TickerUtil.ParsePair | frontend/frontend/src/utils/ticker.ts:6 | `parseInt` on two characters, case by case |
| TickerUtil.ParseSliceIsParseInt | frontend/frontend/src/utils/ticker.ts:6 | the slice parser agrees with the general model of `parseInt(s, 16)` (white space, sign, 0x prefix, longest digit run, NaN) on every string of at most two characters |
| TickerUtil.FromCharCode | frontend/frontend/src/utils/ticker.ts:10 | the character is NUL exactly when the number is NaN or zero |
| TickerUtil.SliceCount | frontend/frontend/src/utils/ticker.ts:5 | the loop from index 2 in steps of 2 visits no slice exactly when the input has at most two characters, and otherwise ceil((n-2)/2) slices |
| TickerUtil.JsSlice | frontend/frontend/src/utils/ticker.ts:6 | `slice` clips its end to the string's length |
| TickerUtil.UntilZero | frontend/frontend/src/utils/ticker.ts:7-9 | the longest zero-free prefix: a prefix without zero, followed by a zero or the end |
| TickerUtil.CharsOf | frontend/frontend/src/utils/ticker.ts:10 | one character per value, each `fromCharCode` of it |
| TickerUtil.Decode | frontend/frontend/src/utils/ticker.ts:1-13 | undefined exactly for undefined or empty input; otherwise at most (n-1)/2 characters |
| TickerUtil.TickerToString | frontend/frontend/src/utils/ticker.ts:1-13 | the loop returns exactly `Decode` of its input |
| TickerUtil.Scan | frontend/frontend/src/utils/ticker.ts:5-11 | what the loop appends from slice k on |
| TickerUtil.ScanIsDecode | frontend/frontend/src/utils/ticker.ts:5-11 | what the loop appends from slice k on is the characters of the zero-free prefix of the remaining parsed slices |
| TickerProperties.PrefixOnlyIsEmpty | frontend/frontend/src/utils/ticker.ts:2-5 | an input of one or two characters, such as "0x", gives "" rather than undefined |
| TickerProperties.DecodedChar | frontend/frontend/src/utils/ticker.ts:5-10 | output character j comes from `hex.slice(2+2j, 4+2j)`, and no slice up to it parsed to zero |
| TickerProperties.StopsAtZero | frontend/frontend/src/utils/ticker.ts:7-9 | after a "00" slice nothing more is read |
| TickerProperties.NulIffNotANumber | frontend/frontend/src/utils/ticker.ts:6-10 | a NUL reaches the output exactly when a slice before the stop is NaN |
| TickerProperties.HexInputHasNoNul | frontend/frontend/src/utils/ticker.ts:6-10 | hex digits after the prefix never give a NUL |
| TickerProperties.NotHexGivesNul | frontend/frontend/src/utils/ticker.ts:6-10 | "0xzz" decodes to a single NUL |
| TickerProperties.HexChar | frontend/frontend/src/utils/ticker.ts:6 | the encoder's digit is a hex digit that parses back to its value |
| TickerProperties.BeforeZero | frontend/frontend/src/utils/ticker.ts:7-9 | the bytes before the first zero: a zero-free prefix followed by a zero or the end |
| TickerProperties.BeforeZeroAt | frontend/frontend/src/utils/ticker.ts:7-9 | with a first zero at k, those bytes are exactly the first k |
| TickerProperties.ParseHexPair | frontend/frontend/src/utils/ticker.ts:6 | the two digits of a byte parse back to that byte |
| TickerProperties.BytesOfEncoded | frontend/frontend/src/utils/ticker.ts:5-6 | every slice of an encoded byte string parses to its byte |
| TickerProperties.UntilZeroOfSlices | frontend/frontend/src/utils/ticker.ts:7-9 | the loop's stop at zero agrees with cutting the bytes at the first zero |
| TickerProperties.CharsOfSlices | frontend/frontend/src/utils/ticker.ts:10 | parsed bytes become their Latin-1 characters |
| TickerProperties.DecodeEncoded | frontend/frontend/src/utils/ticker.ts:1-13 | decoding "0x" plus the hex of any bytes gives those bytes up to the first zero, one character per byte |
| DeployVector.DeployTickerIsDefault | frontend/contracts/scripts/deploy.ts:29-31 | the deploy script's ticker argument is "0x" plus the hex of the contract's default ticker |
| DeployVector.DefaultTickerBeforeZero | lib.rs:198-200 | the default ticker's bytes before the first zero are its first ten |
| DeployVector.DefaultTickerText | lib.rs:198-200 | those ten bytes spell "NFTSZN2024" |
| DeployVector.DeployTickerDecodes | frontend/contracts/scripts/deploy.ts:29-31 | the front end shows the deployed collection as "NFTSZN2024" |

## Left out

- Events (`PortfolioAdded`, `PortfolioRemoved`, `WithdrawnNFTs`, `NFTsForSale`, `NFTSold`) are not modelled: they are emitted only on success and change no storage.
- The Polymesh runtime is not modelled. Its calls and their results are parameters; how it checks custody, moves NFTs or settles legs is outside the contract.
- `PolymeshError` is an opaque code: the runtime's own error variants are not distinguished.
- Accounts and identities are 32-byte values on chain; here they are natural numbers compared for equality.
- SCALE encoding and storage layout are not modelled, and neither is the `ScaleError` path, which this contract never returns.
- `NftPortfolioDetails.nfts` is a `BTreeSet`; the model uses a `set`. `remove_portfolio`'s loop visits the set in any order, not in ascending order. This does not matter because the loop only deletes entries.
- Trader.NftSzn24Trader.New: the constructors return `Result<Self>` but always succeed; the model's constructors have no error path.
- Trader.NftSzn24Trader.BuyNft: `transfer_nft` (lib.rs:435-455) is folded into `BuyNft` as its `PolymeshInk::new()` result and the `settlement_execute` parameter; it is not a separate member. The `settle` parameter sees the venue, the sender and receiver portfolios and the NFT id; the ticker and the shape of the single non-fungible leg are not passed.
- Trader.NftSzn24Trader.Withdraw: the identity is read only through `ensure_has_portfolio`. `move_portfolio_funds` is a parameter that sees the source and destination portfolios and the ids; the fund's ticker and memo are not passed.
- TickerUtil.TickerToString: the `Array<number>` input of `tickerToString` is left out. `Array.toString` would render the numbers in decimal with commas. The only call site passes the `ticker()` query's value, whose declared type is `Array<number>`; the model assumes that the query library renders the `[u8; 12]` ticker as a `0x` hex string at run time, as the deploy script's argument is written.
- TickerUtil.TickerToString: a JavaScript string is a sequence of UTF-16 code units, but a Dafny `char` is a Unicode scalar value. The model cannot hold a lone surrogate code unit (0xD800-0xDFFF), and it admits characters above 0xFFFF that JavaScript stores as two code units. `FromCharCode` only produces values below 0x100 or from 0xFFF1 up (negative slices reduced modulo 0x10000), so it never needs a surrogate.
- Floating-point display of balances in the front end, and the generated TypeScript bindings, are not modelled.
