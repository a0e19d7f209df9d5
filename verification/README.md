# The sharded token ledger

This project models the built-in functions that keep fungible and non-fungible tokens on a sharded blockchain, and the
text protocol that carries transfers between shards, and proves what they are for.

Each shard holds user accounts, which map storage keys to tokens, and one system account. The system account holds the
settings of every token, the metadata of every NFT, a bitmap of the shards that were sent this metadata, and a counter
of the amount that the shard's accounts hold (its liquidity). A transfer runs in one step inside a shard. Across shards it
is a debit and a message in the sender's shard, and a credit in the destination's.

## How it is built

- `Bytes`, `Seqs`, `Keys`, `Wrappers`: big-endian numbers, splitting and joining, identifiers and storage keys, errors.
- `Hex`, `CallData`, `StorageUpdates`: the texts `function@hex@hex...` and `offset@data...`.
- `Ledger`, `Operations`: every operation on one shard as a function on its state, with the branches, the order of checks
  and the errors of the program.
- `ShardStores`: the same operations as the program performs them, on fields that are rewritten entry by entry and with its
  loops. Every method is proved against the function that specifies it, and for what it achieves.
- `Effects`, `MetadataEffects`, `TransferEffects`: what single operations achieve, told in balances, bits, counters, metadata
  fields, messages and gas, without naming the functions that compute it. `Acceptance`: exactly when a call succeeds.
- `World`: shards, messages on their way, and the steps of the whole system. A message is delivered in the order of its
  pair of shards. When a delivery fails, its shard keeps only the metadata that the message carried, and the message goes
  back to its sender marked as the return of a failed call. Both are assumptions about the node around the library.
- `Totals`, `Conservation`, `Liquidity`, `LiveCounters`, `Bitmap`, `Barrier`, `BarrierRuns`, `Gas`, `ZeroHoldings`: what the steps of this
  system keep.
- `Returns`: a message marked as the return of a failed call is always credited.
- `TransferArgs`, `TransferParser`, `TransferRuns`: argument lists before and after shipping, and the transfer parser.
- `RoleLists`, `TransferRoles`, `CreatorAccounts`, `Nonces`: lists changed in place, the transfer role, the create role
  with its counter and its hand-over, and the nonces that result. `StoredRoles` ties them to the steps of `World`.
- `Freshness`: in runs with grants, creations and hand-overs a created nonce never meets an existing amount, which closes an
  assumption of `Liquidity`.
- `SampleRun`: concrete runs that meet the hypotheses of the theorems about runs.
- `DeleteMetadata`, `KeyValue`: the interval loops over metadata, and the write loop for key-value pairs.

Epoch flags are constants of a run. `Liquidity.Active` and `Bitmap.Active` name the flags of the two regimes; all other
flags may have any value. The codec is a parameter: where it matters, it is assumed to read back what it wrote and to need
more than 32 bytes for a token with metadata.

64-bit arithmetic that can wrap in the program wraps in the model (`Bytes.Wrap64`).

## What does not hold, and when it does

- The wipe splitter does not undo key building for a nonce with a byte 0x2d, and the liquidity counter is then left behind
  (`Keys.WipeSplitIsExact`, `Liquidity.WipeAgreesExactly`).
- The transfer parser takes a destination whose numeric value is below 2^64 for a count
  (`TransferParser.ShippingCommutesWithParsing`).
- A list of storage updates with an empty first offset cannot be read back (`StorageUpdates.UpdatesRoundTrip`).
- The maximum number of addresses with transfer role holds for lists shorter than 2^32
  (`TransferRoles.AcceptedIsWithinMaximum`).
- Resigning from the create role ends it only if the role was not listed twice, and a hand-over message that arrives after
  a creation sets the counter back (`CreatorAccounts.ResignedLosesTheRole`, `Nonces.LateMessageRepeatsANonce`).
- Deleting metadata up to nonce 2^64-1 never ends, nor does a call whose wrapped counts lead it back to a position where it
  has been (`DeleteMetadata.CountsForeverExactly`, `DeleteMetadata.NeverEndsExactly`).
- The gas left after a metadata update wraps if the price does not fit 64 bits (`Acceptance.UpdatesExactly`).
- Key-value pairs that change nothing are not checked against the gas provided, so that the gas left can wrap
  (`KeyValue.GasLeftIsExact`, `KeyValue.GasIsLeftOver`).

Where comments and code of the repository differ, the model follows the code: a comment at `builtInFunctions/dctRoles.go:98`
gives the start of a nonce range as last byte times 2^64-1, divided by 256; the code divides first. Withdrawing the
multi-shard role restarts the counter just as granting it does.

## Model

| member | source | states |
|---|---|---|
| Keys.TokenKeyInjective | builtInFunctions/dctNFTCreate.go:269-271 | On identifiers that ValidateToken accepts, identifier and nonce are determined by the storage key, for all nonces. |
| Keys.FungibleKeyIsNotNftKey | common.go:33-89 | The key of a fungible token is never the key of any token with a positive nonce. |
| Keys.WipeSplitIsExact | builtInFunctions/logsAndEvents.go:46-60 | The wipe splitter recovers identifier and nonce from a key if and only if no byte of the nonce is a dash. |
| Bytes.FromNatOfToNat | builtInFunctions/dctNFTCreate.go:250-271 | The shortest big-endian form is the only form of a value without leading zero. |
| Keys.ValidTokenExactly | common.go:33-89 | Exactly the identifiers made of a ticker of 3 to 10 capital letters or digits, a dash and six lower-case hexadecimal digits are accepted. |
| Seqs.SplitJoin | parsers/tokenize.go:8-16 | Splitting at the separator undoes joining, for parts without separator. |
| Seqs.JoinSplit | parsers/tokenize.go:8-16 | Joining undoes splitting, for every text. |
| Hex.DecodeEncode | parsers/tokenize.go:18-25 | Decoding undoes hexadecimal encoding, and encoded arguments hold no separator. |
| Hex.EncodeDecode | parsers/tokenize.go:18-25 | Encoding what was decoded gives the text back in lower case. |
| Hex.DecodesExactly | parsers/tokenize.go:18-25 | Exactly the strings of an even number of hexadecimal digits, in either case, are decoded. |
| CallData.Emit | builtInFunctions/dctNFTTransfer.go:424-427 | The writing loop produces the name and the encoded arguments joined by separators. |
| CallData.ParseTokens | parsers/callArgsParser.go:61-74 | The loop decodes every token after the first, or fails if any of them cannot be decoded. |
| CallData.ParseData | parsers/callArgsParser.go:15-36 | The parser method computes the parse that the round-trip lemmas are about, errors included. |
| CallData.ParseArguments | parsers/callArgsParser.go:39-50 | Agrees with ParseData when the first part is not empty, and keeps an empty first part; what it answers prints back to the text. |
| CallData.CallRoundTrip | parsers/callArgsParser.go:15-74 | Parsing undoes printing, for every argument list, if and only if the name is not empty and holds no separator. |
| CallData.AcceptsExactly | parsers/callArgsParser.go:15-74 | A text is accepted if and only if it has a name and every later part is hexadecimal; every refusal is ErrTokenizeFailed. |
| CallData.ReprintIsText | parsers/callArgsParser.go:15-74 | Printing an accepted text again reproduces it up to the letter case of its hexadecimal digits. |
| StorageUpdates.GetStorageUpdates | parsers/storageUpdatesParser.go:18-47 | The loop over token pairs computes the parse of the text, with the errors of the leading checks. |
| StorageUpdates.CreateDataFromStorageUpdate | parsers/storageUpdatesParser.go:50-63 | The loop prints all offsets and data joined by separators. |
| StorageUpdates.PrintSnoc | parsers/storageUpdatesParser.go:50-63 | The text, update by update: offset, separator and data in hexadecimal, with a separator before every update but the first. |
| StorageUpdates.UpdatesRoundTrip | parsers/storageUpdatesParser.go:18-63 | Parsing undoes printing if and only if the list and its first offset are not empty; all other lists read as an error, never as other updates. |
| TransferArgs.WriteMultiArgs | builtInFunctions/multiDCTNFTTransfer.go:402-457 | The loop writes count, triples and following call of a shipped multi-transfer. |
| TransferArgs.ShippedFields | builtInFunctions/multiDCTNFTTransfer.go:402-457 | A shipped list, position by position: the count, then token, nonce and amount or payload of each item, then the call that follows. |
| TransferArgs.DestinationReadsItems | builtInFunctions/multiDCTNFTTransfer.go:147-208 | The destination half reads back exactly the shipped items if and only if the length rule tells every payload from an amount. |
| TransferArgs.MultiCallFields | builtInFunctions/multiDCTNFTTransfer.go:230-276 | A sender's list is read position by position: destination, count, triples with 64-bit nonces, and behind the last triple the call that follows. |
| TransferParser.ParseMultiDCTNFTTransfer | parsers/dctTransferParser.go:115-187 | The parser loop computes the parse of either argument form, with wrapped sizes and its errors. |
| TransferParser.ParserReadsCall | parsers/dctTransferParser.go:115-187 | Parsing a sender's arguments gives, field by field, the destination, tokens, nonces and amounts that the sender half acts on; the function is the first of the further arguments, and its arguments are all that follow it. |
| TransferParser.ParserReadsItems | parsers/dctTransferParser.go:162-187 | Parsing shipped arguments gives, field by field, exactly the amounts that the items carry, and the function and arguments that follow. |
| TransferParser.MultiSendCarries | builtInFunctions/multiDCTNFTTransfer.go:402-454 | The message of a successful multi-transfer carries the moves of the call one by one; a payload is sent only under a nonce, and an amount only if it is short. |
| TransferParser.ShippingCommutesWithParsing | parsers/dctTransferParser.go:115-187 | Parsing before and after shipping agree if and only if the destination read as a number is at least 2^64: receiver, tokens, amounts, function and arguments; the destination half credits exactly the parsed amounts. |
| TransferParser.NftShippingCommutesWithParsing | parsers/dctTransferParser.go:85-113 | For a single NFT the parser finds the same receiver, token, amount, function and arguments before and after shipping, and the destination half reads the same amount. |
| TransferParser.FungibleShippingCommutesWithParsing | parsers/dctTransferParser.go:59-83 | The same for a fungible transfer. |
| TransferParser.MessageTextRoundTrip | builtInFunctions/multiDCTNFTTransfer.go:435-470 | Items survive marshalling, argument list, hexadecimal text and parsing. |
| TransferRuns.RunKeepsShape | builtInFunctions/multiDCTNFTTransfer.go:402-454 | In every run, under any flags, each multi-transfer item in flight has a positive amount, in a form that its nonce admits. |
| TransferRuns.InFlightReadBackWithLiquidity | builtInFunctions/multiDCTNFTTransfer.go:165-186 | In every state of every run of the liquidity protocol, every multi-transfer in flight is read as exactly its items. |
| TransferRuns.InFlightReadBackWithBitmap | builtInFunctions/multiDCTNFTTransfer.go:165-186 | The same for the bitmap protocol, where amounts travel without metadata. |
| TransferRuns.CommutesWithLiquidity | parsers/dctTransferParser.go:115-187 | Under the liquidity protocol, shipping commutes with parsing in every reachable state, with no assumption on the shipped tokens. |
| TransferRuns.CommutesWithBitmap | parsers/dctTransferParser.go:115-187 | The same under the bitmap protocol. |
| Gas.SenderLosesItsCosts | builtInFunctions/multiDCTNFTTransfer.go:255-276 | For every kind of transfer to another shard, gas left plus gas emitted plus call cost plus copy costs is the gas provided. |
| Gas.TransferGasEndToEnd | builtInFunctions/dctNFTTransfer.go:287-373 | Over call and delivery together exactly these costs are lost for NFTs, and a fungible transfer never has more left than that. |
| Gas.ShipAllGas | builtInFunctions/multiDCTNFTTransfer.go:414-454 | The loop that ships tokens loses exactly the copy cost of its payloads. |
| Gas.MultiSendGas | builtInFunctions/multiDCTNFTTransfer.go:255-276 | On the sender's shard, gas left plus gas emitted plus call cost plus copy costs is the gas provided. |
| ShardStores.ShardStore.AddToLiquiditySystemAcc | builtInFunctions/dctDataStorage.go:259-313 | A live counter moves by the amount and its entry goes at zero; an entry without counter stays, and so do all other entries; nothing changes on error. |
| ShardStores.ShardStore.SaveMetaDataToSystemAccount | builtInFunctions/dctDataStorage.go:365-454 | A written entry has the token's metadata, amount zero, and either a bitmap with exactly the own and the sender's bit, or the start of a counter; an entry that is not written at most takes over metadata; all others stay. |
| ShardStores.ShardStore.SaveDCTNFTToken | builtInFunctions/dctDataStorage.go:316-363 | The holder's balance becomes the token's amount and no other changes; the holder is neither frozen nor paused, or exempt; metadata that was offered is on the system account. |
| ShardStores.ShardStore.WasAlreadySentToDestinationShardAndUpdateState | builtInFunctions/dctDataStorage.go:533-582 | Where the bitmap is asked, the answer is the bit of the destination's shard, which is set afterwards; no other bit, entry or field changes. |
| ShardStores.ShardStore.SaveNFTMetaDataToSystemAccount | builtInFunctions/dctDataStorage.go:585-679 | Under the bitmap protocol every key that the message carries metadata of gets a bitmap with exactly the own and the sender's bit; no other entry changes. |
| ShardStores.ShardStore.AddToDCTBalance | builtInFunctions/dctTransfer.go:217-250 | A fungible balance changes by the amount, keeping kind and properties; no other holding changes; what is dropped is empty and without properties; nothing changes on error. |
| ShardStores.ShardStore.AddNFTToDestination | builtInFunctions/multiDCTNFTTransfer.go:497-531 | The destination's balance grows by exactly the amount, and no other balance changes. |
| ShardStores.ShardStore.ReadTokenParts | builtInFunctions/dctDataStorage.go:122-156 | The amount read is the balance, the metadata is that of the shard's system account where it has some, and a token is new exactly if nothing is stored. |
| ShardStores.ShardStore.TransferOneTokenOnSenderShard | builtInFunctions/multiDCTNFTTransfer.go:322-374 | The sender loses the amount, a destination in the shard gains it, and no other balance changes. |
| ShardStores.ShardStore.TransferAllOnSenderShard | builtInFunctions/multiDCTNFTTransfer.go:282-305 | The loop computes the fold over the list that the conservation lemmas are about. |
| ShardStores.ShardStore.CreateOutputItems | builtInFunctions/multiDCTNFTTransfer.go:411-454 | The loop chooses every shipped form and pays for it in list order. |
| ShardStores.ShardStore.MultiTransferOnSenderShard | builtInFunctions/multiDCTNFTTransfer.go:230-320 | All balances change as the fold of the moves over the list; the errors come in the order of the checks; one message leaves the shard, with everything that the call says, and all gas goes onward exactly if a contract call follows. |
| ShardStores.ShardStore.CreditOnDestination | builtInFunctions/multiDCTNFTTransfer.go:165-208 | The loop credits all items of a message in order. |
| ShardStores.ShardStore.Receive | builtInFunctions/multiDCTNFTTransfer.go:120-228 | The destination halves of the three transfers: only a destination that may be paid is credited, and the gas goes to a contract exactly if a call to one follows. |
| ShardStores.ShardStore.NFTTransferOnSenderShard | builtInFunctions/dctNFTTransfer.go:196-299 | The sender loses the amount, a destination in the shard gains it, and no other balance changes, whatever is shipped; the one message has caller, recipient, further arguments and call type of the call, and all gas goes onward exactly if a contract call follows. |
| ShardStores.ShardStore.MoveOneNFT | builtInFunctions/dctNFTTransfer.go:216-283 | The same for the part before anything is shipped. |
| ShardStores.ShardStore.MoveOn | builtInFunctions/dctNFTTransfer.go:241-272 | A destination in the shard gains the amount; for one elsewhere no balance changes. |
| ShardStores.ShardStore.TransferOnSenderShard | builtInFunctions/dctTransfer.go:83-186 | The sender loses the amount and a destination in the shard gains it, which cancels for a transfer to oneself; no other balance changes; the one message says everything that the call says. |
| ShardStores.ShardStore.NFTCreate | builtInFunctions/dctNFTCreate.go:103-234 | The creator's counter advances by one and no other counter changes; the new nonce holds exactly the quantity; the holder reads every metadata field of the call, and no other shard counts as knowing it. |
| ShardStores.ShardStore.NFTAddQuantity | builtInFunctions/dctNFTAddQuantity.go:76-130 | The caller's balance grows by exactly the quantity, and no other balance changes. |
| ShardStores.ShardStore.NFTBurn | builtInFunctions/dctNFTBurn.go:67-122 | The caller's balance shrinks by exactly the amount, and no other balance changes. |
| ShardStores.ShardStore.LengthOfURIs | builtInFunctions/dctNFTAddUri.go:130-136 | The loop sums the lengths. |
| ShardStores.ShardStore.NFTUpdate | builtInFunctions/dctNFTAddUri.go:77-128 | URIs are appended or attributes replaced (updateNFTAttributes.go:77-127), all else is kept, every holder of the shard reads the result, and no other shard counts as knowing it. |
| ShardStores.ShardStore.MintFungible | builtInFunctions/dctLocalMint.go:64-98 | The caller's balance grows by exactly the quantity, and no other balance changes. |
| ShardStores.ShardStore.LocalBurnFungible | builtInFunctions/dctLocalBurn.go:64-94 | The caller's balance shrinks by exactly the amount, and no other balance changes. |
| ShardStores.ShardStore.FreezeOrUnfreeze | builtInFunctions/dctFreezeWipe.go:136-153 | The holding is frozen exactly if asked, and its balance and all other holdings stay; an empty one is stored exactly if it is frozen; the amount held is answered. |
| ShardStores.ShardStore.WipeIfApplicable | builtInFunctions/dctFreezeWipe.go:102-134 | A frozen holding goes and no other holding changes; its amount is taken out of the liquidity that the split key names. |
| ShardStores.ShardStore.ToggleGlobalSetting | builtInFunctions/dctGlobalSettings.go:102-131 | One setting of one token is as asked; its two other settings and all other entries stay. |
| Effects.ToggleFreezes | builtInFunctions/dctFreezeWipe.go:136-153 | After the freeze call a holding is frozen exactly if asked, with the same balance; no other holding changes, and an empty one is stored exactly if it is frozen. |
| Effects.ArrivalStores | builtInFunctions/dctNFTTransfer.go:378-412 | What an arriving item leaves in the account: the sum, with kind and properties of the payload, or of a plain NFT for a bare amount. |
| Effects.MultiSenderKeepsRest | builtInFunctions/multiDCTNFTTransfer.go:282-374 | Over a whole multi-transfer the sender gets no new holding, and what it keeps differs from what it held in the amount only. |
| Effects.NftSenderKeepsRest | builtInFunctions/dctNFTTransfer.go:216-283 | The same for a single NFT transfer. |
| Effects.BurnerKeepsRest | builtInFunctions/dctNFTBurn.go:67-122 | A burn changes nothing of what its caller holds but amounts. |
| Effects.AdderKeepsRest | builtInFunctions/dctNFTAddQuantity.go:76-130 | Neither does an added quantity. |
| MetadataEffects.SaveMetaSaves | builtInFunctions/dctDataStorage.go:365-454 | What one save does to the system account, in bits, counter start and metadata, without naming how the entry is built. |
| MetadataEffects.CreationResetsBits | builtInFunctions/dctDataStorage.go:399-423 | After a creation under the bitmap protocol a bit is set if and only if it is that of this shard or of the holder, the metachain aside. |
| MetadataEffects.UpdateResetsBits | builtInFunctions/dctDataStorage.go:399-423 | The same after a metadata update, whatever bits were set before. |
| MetadataEffects.SavedMessage | builtInFunctions/dctDataStorage.go:585-679 | After a failed delivery exactly the keys whose metadata the message carried have fresh bits; a message that is not saved changes nothing. |
| MetadataEffects.UpdateIsSentAgain | builtInFunctions/dctDataStorage.go:533-582 | The first transfer of an updated token to another shard carries the updated metadata, field by field, and pays for its bytes. |
| MetadataEffects.UnmarkedShardGetsPayload | builtInFunctions/multiDCTNFTTransfer.go:414-454 | A shard whose bit is not set gets the token that the sender holds, with its metadata, and the sender pays for its bytes. |
| MetadataEffects.NftSentIsHeld | builtInFunctions/dctNFTTransfer.go:301-331 | A single NFT travels as its amount or as the token that the sender holds, with that amount. |
| MetadataEffects.ShipsExactly | builtInFunctions/multiDCTNFTTransfer.go:414-454 | A token travels without metadata if and only if its shard is marked, or needs none, and its amount is neither one nor longer than 32 bytes. |
| MetadataEffects.NftShipsExactly | builtInFunctions/dctNFTTransfer.go:301-331 | The same for a single NFT, up to long amounts, which here may travel bare. |
| MetadataEffects.CreationIsRead | builtInFunctions/dctNFTCreate.go:189-211 | The holder of a created token reads exactly the fields of the call, under any flags. |
| MetadataEffects.UpdateIsRead | builtInFunctions/dctNFTAddUri.go:77-128 | After an update every holder of the shard reads the old metadata with URIs appended or attributes replaced. |
| MetadataEffects.AddToLiquidityCounts | builtInFunctions/dctDataStorage.go:259-313 | What one change of liquidity does to a live, a retired and a missing counter. |
| MetadataEffects.AddToLiquidityFailsExactly | builtInFunctions/dctDataStorage.go:259-313 | It fails if and only if the entry is missing, is no token, or has a live counter that would become negative outside the old-token branch. |
| MetadataEffects.CreationStartsCounter | builtInFunctions/dctDataStorage.go:399-416 | A creation where nothing is stored starts a live counter at its quantity, whatever the other flags. |
| MetadataEffects.ArrivalStartsCounter | builtInFunctions/multiDCTNFTTransfer.go:497-531 | The first amount that arrives from another shard starts a live counter at that amount. |
| LiveCounters.CountersAreKept | builtInFunctions/dctDataStorage.go:259-313 | In every state of every run from genesis, every entry of an NFT has a live counter, equal to the balances of its shard, until its metadata is overwritten; and every NFT that the shard holds has an entry. |
| TransferEffects.CallFollowsExactly | builtInFunctions/payable.go:80-98 | A contract call follows if and only if the call names a function of an address with eight leading zero bytes, and is no return but that of a callback. |
| TransferEffects.MultiTransferSends | builtInFunctions/multiDCTNFTTransfer.go:456-495 | One message with caller, recipient, further arguments and call type of the call; all gas left goes onward if and only if a contract call follows. |
| TransferEffects.NftTransferSends | builtInFunctions/dctNFTTransfer.go:301-373 | The same for a single NFT, with the token and nonce of the call. |
| TransferEffects.FungibleTransferSends | builtInFunctions/dctTransfer.go:135-214 | The same for a fungible transfer; to another shard its gas goes onward if and only if the sender is a contract. |
| TransferEffects.DeliveryGasGoes | builtInFunctions/dctNFTTransfer.go:134-194 | Who gets the gas of a delivery, and how much: all of it for NFTs, what the transfer cost leaves for fungible tokens. |
| TransferEffects.LimitedExactly | builtInFunctions/dctTransfer.go:329-359 | The transfer of a limited token passes if and only if sender or destination has the transfer role, or it is a return. |
| TransferEffects.MultiTransferMayMove | builtInFunctions/multiDCTNFTTransfer.go:230-374 | A multi-transfer that succeeds moves no limited token without the role, for each of its tokens as the shard was before, and credits only a destination that may be paid. |
| TransferEffects.NftTransferMayMove | builtInFunctions/dctNFTTransfer.go:196-283 | The same for a single NFT, whose check comes after the credit. |
| TransferEffects.FungibleTransferMayMove | builtInFunctions/dctTransfer.go:83-186 | The same for a fungible transfer. |
| TransferEffects.DeliveryMayBePaid | builtInFunctions/dctTransfer.go:83-186 | A delivery credits only a destination that may be paid. |
| Acceptance.MintsExactly | builtInFunctions/dctLocalMint.go:64-98 | A mint succeeds if and only if role, length, gas and the state of the holding allow it, and costs its price. |
| Acceptance.BurnsFungibleExactly | builtInFunctions/dctLocalBurn.go:64-105 | The same for a local burn, with the role or the setting for all. |
| Acceptance.SendsFungibleExactly | builtInFunctions/dctTransfer.go:83-186 | A fungible transfer, also to oneself, succeeds if and only if these conditions hold, on sender and destination as they were before the call. |
| Acceptance.WritesExactly | builtInFunctions/dctDataStorage.go:197-256 | A holding can be written if and only if it is exempt, or neither frozen, paused, nor frozen for its collection. |
| Acceptance.CreatesExactly | builtInFunctions/dctNFTCreate.go:103-234 | Exactly when a creation succeeds, and the gas it then uses. |
| Acceptance.UpdatesExactly | builtInFunctions/dctNFTAddUri.go:77-128 | Exactly when an update succeeds; the gas left is the gas provided less the price if and only if the price fits 64 bits. |
| Acceptance.AddsQuantityExactly | builtInFunctions/dctNFTAddQuantity.go:76-130 | Exactly when adding quantity succeeds, told in holdings, roles and the counter before the call, and the gas it uses. |
| Acceptance.BurnsExactly | builtInFunctions/dctNFTBurn.go:67-122 | The same for a burn. |
| Acceptance.MovesExactly | builtInFunctions/multiDCTNFTTransfer.go:322-374 | Exactly when one move of a multi-transfer succeeds, told in the state before the debit. |
| Acceptance.NftMovesExactly | builtInFunctions/dctNFTTransfer.go:216-283 | Exactly when a single NFT transfer succeeds up to its shipping, told in the state before the debit, although its transfer-role check comes after the credit. |
| Acceptance.WipesExactly | builtInFunctions/dctFreezeWipe.go:102-134 | Exactly when a wipe succeeds, told in the holding and the counter before the call. |
| Acceptance.ContractCallsAlwaysSucceed | builtInFunctions/dctFreezeWipe.go:136-153 | Freeze, unfreeze and settings calls never fail, and do to holdings and settings exactly what they are asked. |
| Conservation.SaveTokenSets | builtInFunctions/dctDataStorage.go:316-363 | Saving a token sets exactly one balance and leaves all others. |
| Conservation.AddToDestinationSets | builtInFunctions/multiDCTNFTTransfer.go:497-531 | A credit adds exactly the amount to one balance. |
| Conservation.MultiTransferIsAFold | builtInFunctions/multiDCTNFTTransfer.go:282-374 | A successful multi-transfer changes balances as a fold of abstract moves over the list; repeated tokens accumulate, all else stays. |
| Conservation.FoldIsASum | builtInFunctions/multiDCTNFTTransfer.go:282-305 | The fold in closed form: the sender loses and the destination gains the sum over the list, per key. |
| Conservation.MultiSendConserves | builtInFunctions/multiDCTNFTTransfer.go:230-320 | Balances of the shard plus shipped amounts stay the same for every key. |
| Conservation.NftSendConserves | builtInFunctions/dctNFTTransfer.go:196-299 | The same for a single NFT. |
| Conservation.FungibleSendConserves | builtInFunctions/dctTransfer.go:83-186 | The same for a fungible transfer, also to oneself. |
| Conservation.DeliveryCreditsItems | builtInFunctions/multiDCTNFTTransfer.go:165-208 | A delivery credits the recipient, and nobody else, with exactly the amounts of the message. |
| Conservation.CreateConserves | builtInFunctions/dctNFTCreate.go:149-211 | Creation changes the supply of the new key by its quantity minus what it replaces. |
| Conservation.FreshCreateAddsItsQuantity | builtInFunctions/dctNFTCreate.go:189-211 | Under a fresh nonce, creation adds exactly the stated quantity. |
| Conservation.AddQuantityConserves | builtInFunctions/dctNFTAddQuantity.go:76-130 | The supply grows by exactly the quantity. |
| Conservation.BurnConserves | builtInFunctions/dctNFTBurn.go:67-122 | The supply shrinks by exactly the amount. |
| Conservation.ExecuteConserves | builtInFunctions/dctTransfer.go:83-186 | Every successful call changes the supply of every key by exactly the amount it states. |
| Conservation.StepConserves | builtInFunctions/multiDCTNFTTransfer.go:120-320 | Every step of the sharded system keeps all balances plus in-flight amounts, up to the stated change; no balance is negative. |
| Conservation.RunConserves | builtInFunctions/multiDCTNFTTransfer.go:120-320 | Conservation over every run, for every key, including returned messages. |
| Liquidity.AddToLiquidityAgrees | builtInFunctions/dctDataStorage.go:259-313 | Changing the counter by the amount it is off restores the agreement, also when the entry is deleted at zero. |
| Liquidity.SaveTokenAgrees | builtInFunctions/dctDataStorage.go:316-423 | Saving a token leaves the counter off by exactly the change of the balance. |
| Liquidity.SendAllAgrees | builtInFunctions/multiDCTNFTTransfer.go:282-374 | A whole multi-transfer keeps counter and balances in agreement, and finds metadata for every NFT it ships. |
| Liquidity.CreditAllAgrees | builtInFunctions/multiDCTNFTTransfer.go:165-208 | A delivery keeps the agreement. |
| Liquidity.WipeAgreesExactly | builtInFunctions/dctFreezeWipe.go:102-134 | A wipe of a positive balance with live counter keeps the agreement if and only if no byte of the nonce is a dash. |
| Liquidity.ExecuteAgrees | builtInFunctions/dctDataStorage.go:259-313 | Every allowed call keeps the agreement of its shard and sends only messages with metadata. |
| Liquidity.RunAgrees | builtInFunctions/dctDataStorage.go:259-313 | The agreement is kept over every run, deliveries and returns included. |
| Liquidity.LiquidityIsTheSumOfBalances | builtInFunctions/dctDataStorage.go:259-313 | In every state that a run from genesis reaches, every live counter equals the sum of its shard's balances. |
| Liquidity.HoldersAlwaysReadMetadata | builtInFunctions/dctDataStorage.go:122-156 | In every such state, a positive NFT balance reads metadata. |
| Liquidity.DebitNeverMeetsDeadBranches | builtInFunctions/dctDataStorage.go:276-305 | Moving a positive amount out never meets ErrInvalidLiquidityForDCT, ErrNilDCTData or the old-token branch. |
| Liquidity.CreditNeverMeetsDeadBranches | builtInFunctions/dctDataStorage.go:276-305 | Nor does a credit from another shard fail at the counter. |
| Liquidity.BurnNeverMeetsDeadBranches | builtInFunctions/dctDataStorage.go:276-305 | A burn of an amount that the holder has passes the counter: it succeeds exactly if the write is allowed. |
| Liquidity.WipeNeverMeetsDeadBranches | builtInFunctions/dctFreezeWipe.go:102-134 | A wipe of a positive frozen balance whose nonce has no dash byte always succeeds. |
| World.ArrivalIsAlwaysPossible | builtInFunctions/dctDataStorage.go:585-679 | A message whose turn it is can always be delivered or go back: saving the metadata of a failed one never fails, under any flags. |
| Returns.ReturnIsCredited | builtInFunctions/dctTransfer.go:252-276 | A message marked as return passes every check at its destination: no freeze, pause, role or payable check, and no counter, stops it. |
| Returns.ReturnsAreCredited | builtInFunctions/multiDCTNFTTransfer.go:147-208 | In every state of every run of the liquidity protocol a return whose turn it is is credited, so it leaves the net for good. |
| Returns.FailureReturnsEverything | builtInFunctions/dctDataStorage.go:585-679 | A delivery that fails changes no balance and sends all its items back, as such a return, to the account they came from. |
| Bitmap.MultiSendSends | builtInFunctions/multiDCTNFTTransfer.go:402-454 | What a multi-transfer marks as sent, it sends: new bits of the destination's shard belong to items in the message. |
| Bitmap.NftSendSends | builtInFunctions/dctNFTTransfer.go:301-331 | The same for a single NFT. |
| Bitmap.FailedMessageReceives | builtInFunctions/dctDataStorage.go:585-679 | A message that fails still leaves its metadata on the destination's system account. |
| Bitmap.RunSafe | builtInFunctions/dctDataStorage.go:533-582 | The invariant of the bitmap protocol holds over every run from genesis, with failed and returned deliveries. |
| Bitmap.SetBitIsTrue | builtInFunctions/dctDataStorage.go:365-423 | A set bit means that the other shard has the metadata, or that an item carrying it is queued. |
| Bitmap.BareItemFindsMetadata | builtInFunctions/multiDCTNFTTransfer.go:175-186 | While a message is credited, every bare amount finds its metadata, possibly from an earlier item of the same message. |
| Bitmap.ArrivingAmountFindsMetadata | builtInFunctions/dctDataStorage.go:533-582 | In every reachable state, every item sent without metadata finds the metadata when it is credited. |
| Bitmap.HoldersAreBacked | builtInFunctions/dctDataStorage.go:122-156 | If no exempt caller adds quantity, whoever holds an NFT reads its metadata in every reachable state. |
| Barrier.OrdinaryCallRespects | builtInFunctions/dctTransfer.go:252-276 | Transfers, mint, burn, add quantity and updates leave frozen holdings and paused balances alone, and keep tokens paused. |
| Barrier.DeliveryRespectsBarrier | builtInFunctions/dctNFTTransfer.go:387-398 | So does every delivery that is not a return. |
| Barrier.FreezeBarrier | builtInFunctions/dctFreezeWipe.go:102-153 | No call but unfreeze, wipe, or creation under that key changes a frozen balance or clears its frozen bit. |
| Barrier.PauseBarrier | builtInFunctions/dctDataStorage.go:232-256 | No call but a wipe changes a balance of a paused token under any nonce. |
| BarrierRuns.CallSameFor | builtInFunctions/dctTransfer.go:83-186 | A call leaves all holdings alone of every account that it does not name as caller, holder or destination. |
| BarrierRuns.OnlyUnpauseUnpauses | builtInFunctions/dctGlobalSettings.go:102-131 | A paused token is unpaused by the unpause call alone, return calls included. |
| BarrierRuns.FrozenHoldingStays | builtInFunctions/dctFreezeWipe.go:102-153 | Over a whole run a frozen holding keeps its amount and its frozen bit; only a return to that very account is excluded. |
| BarrierRuns.PausedBalanceStays | builtInFunctions/dctTransfer.go:252-276 | Over a whole run a token paused in a shard stays paused and a balance of it does not move; only a return to that very account is excluded. |
| RoleLists.RoleList.IndexOf | builtInFunctions/dctRoles.go:120-127 | The loop finds the first occurrence, or tells that there is none. |
| RoleLists.RoleList.RemoveAt | builtInFunctions/dctRoles.go:114-116 | Shift and truncation in the buffer remove one element and keep the order. |
| RoleLists.RoleList.DeleteRoles | builtInFunctions/dctRoles.go:107-118 | The loop in place computes the successive removals. |
| RoleLists.DeleteIsOnePass | builtInFunctions/dctRoles.go:107-118 | Successive removals equal one pass over the list in which every argument cancels one occurrence from the front; the order is kept. |
| RoleLists.DeleteIsTruncatedDifference | builtInFunctions/dctRoles.go:107-118 | The contents left are the truncated multiset difference. |
| RoleLists.RoleList.AddNewAddresses | builtInFunctions/dctTransferRole.go:117-129 | The nested loops append exactly the addresses not yet listed. |
| RoleLists.AddNewIsUnion | builtInFunctions/dctTransferRole.go:117-129 | Appending is a union without duplicates that keeps the old list in front. |
| TransferRoles.SystemAccount.Process | builtInFunctions/dctTransferRole.go:64-115 | One call changes one list as specified, or nothing on error. |
| TransferRoles.SystemAccount.IsSenderOrDestinationWithTransferRole | builtInFunctions/dctGlobalSettings.go:178-201 | The loop answers whether sender or destination is listed. |
| TransferRoles.ListsAreSets | builtInFunctions/dctTransferRole.go:90-136 | From empty lists, every run of adds and deletes keeps the lists free of duplicates, within the maximum and equal to an abstract set. |
| TransferRoles.CheckAgreesWithHolders | builtInFunctions/dctGlobalSettings.go:178-201 | In every such state the transfer check agrees with the abstract set. |
| TransferRoles.AcceptedIsWithinMaximum | builtInFunctions/dctTransferRole.go:131-133 | An accepted list is within the maximum if and only if its length fits 32 bits. |
| TransferRoles.TooManyAddressesAreAccepted | builtInFunctions/dctTransferRole.go:131-133 | 2^32 new addresses pass the check, as their count is cut to zero; one call with so many arguments is not an input that a node can receive. |
| CreatorAccounts.Account.ChangeRoles | builtInFunctions/dctRoles.go:44-95 | A grant appends the roles in order; a withdrawal takes them off the list as a multiset; naming the multi-shard role restarts the counter at 2^56-1 times the last address byte in both cases, and else it stays. |
| CreatorAccounts.Account.AddCreateRole | builtInFunctions/dctNFTCreateRoleTransfer.go:179-196 | The role is added unless it is listed. |
| CreatorAccounts.Account.ChangeAtCurrentOwner | builtInFunctions/dctNFTCreateRoleTransfer.go:87-164 | The old owner resigns, the new one in the same shard is appointed, and the message carries token and counter. |
| CreatorAccounts.Account.ChangeAtNextOwner | builtInFunctions/dctNFTCreateRoleTransfer.go:216-243 | The message appoints the new owner. |
| CreatorAccounts.MessageEqualsDirectPath | builtInFunctions/dctNFTCreateRoleTransfer.go:125-164 | The encoded, parsed and applied message does exactly what the direct path does. |
| CreatorAccounts.HandOverMovesTheCounter | builtInFunctions/dctNFTCreateRoleTransfer.go:87-164 | The new owner continues the counter and has the role; the old one is at zero with the role once less; re-applying changes nothing. |
| CreatorAccounts.ResignedLosesTheRole | builtInFunctions/dctNFTCreateRoleTransfer.go:166-177 | The old owner keeps the create role if and only if it was listed at least twice. |
| CreatorAccounts.LateMessageIsHarmlessExactly | builtInFunctions/dctNFTCreateRoleTransfer.go:216-243 | Applying a message changes nothing if and only if the counter is still the one it carries and the role is held. |
| Nonces.CountersStayInRange | builtInFunctions/dctRoles.go:101-105 | Over every orderly run, each creator's counter is its range start plus what the range gave out, without wrap. |
| Nonces.NoncesAreUnique | builtInFunctions/dctNFTCreate.go:149-211 | No nonce is given out twice, across all creators and hand-overs, while no range gives out more than 2^56-1. |
| Nonces.NoncesAreNotZero | builtInFunctions/dctNFTCreate.go:189-211 | No created token gets the nonce of fungible tokens. |
| Nonces.LateMessageRepeatsANonce | builtInFunctions/dctNFTCreateRoleTransfer.go:125-164 | A hand-over message applied after a creation makes the next creation repeat that nonce. |
| ZeroHoldings.StepKeepsNoZeros | builtInFunctions/dctTransfer.go:287-304 | In every step, under any flags, an account keeps an empty NFT holding only if it is frozen. |
| Freshness.OnlyCreatedExists | builtInFunctions/dctNFTCreate.go:149-211 | In every state of a run with grants, creations and hand-overs, any amount of an NFT, held or in flight, is of a nonce that was given out. |
| Freshness.CreationIsFresh | builtInFunctions/dctNFTCreate.go:149-211 | Every creation takes a nonce under which no account of any shard holds anything. |
| Freshness.LiquidityOfProperRuns | builtInFunctions/dctDataStorage.go:259-313 | The liquidity counter equals the balances over every run with create roles in order, with no assumption on created nonces. |
| StoredRoles.HandOverAgrees | builtInFunctions/dctNFTCreateRoleTransfer.go:87-164 | The hand-over step of the system does to the stored roles and counters of both owners what the functions, or the message, do. |
| StoredRoles.CreateAgrees | builtInFunctions/dctNFTCreate.go:149-211 | A creation advances the stored counter by one and keeps the stored roles. |
| SampleRun.TheRunIsPossible | builtInFunctions/multiDCTNFTTransfer.go:120-320 | A run that grants the create role, creates an NFT, sends it to another shard and delivers it is possible from genesis, under either protocol. |
| SampleRun.LiquidityHypotheses | builtInFunctions/dctDataStorage.go:259-313 | It meets the hypotheses of the liquidity and freshness theorems, and ends with a live counter. |
| SampleRun.BitmapHypotheses | builtInFunctions/dctDataStorage.go:533-582 | It meets the hypotheses of the bitmap theorems, and ends with a set bit in each shard. |
| SampleRun.BarrierHypotheses | builtInFunctions/dctTransfer.go:252-276 | A return to another account in the same shard meets the hypotheses of the freeze and pause theorems. |
| SampleRun.DashedWipeLeavesItsCounter | builtInFunctions/dctFreezeWipe.go:102-134 | Nonce 45, whose byte is a dash: a wipe succeeds and the counter still counts the wiped token. |
| DeleteMetadata.CountsForeverExactly | builtInFunctions/dctDeleteMetadata.go:182-190 | With its 64-bit counter, the innermost loop never ends exactly for intervals up to nonce 2^64-1. |
| DeleteMetadata.StopsAfterItsNonces | builtInFunctions/dctDeleteMetadata.go:182-190 | For every other interval it makes exactly one round for each nonce. |
| DeleteMetadata.SystemStorage.DeleteInterval | builtInFunctions/dctDeleteMetadata.go:169-192 | The innermost loop deletes exactly the keys of its interval, or rejects it; the outcome is endless exactly if the counter runs forever. |
| DeleteMetadata.SystemStorage.DeleteIntervals | builtInFunctions/dctDeleteMetadata.go:145-167 | The middle loop deletes exactly the keys of the intervals it reads, none if its end has wrapped. |
| DeleteMetadata.SystemStorage.Delete | builtInFunctions/dctDeleteMetadata.go:105-142 | The outer loop, followed through wrapped positions, deletes exactly the keys of the groups it passes; the outcome is endless exactly if the call never ends. |
| DeleteMetadata.NeverEndsExactly | builtInFunctions/dctDeleteMetadata.go:105-142 | A call never ends if and only if it meets an endless interval or comes back to a position where it goes on. |
| DeleteMetadata.BackToTheStart | builtInFunctions/dctDeleteMetadata.go:116-136 | A call with the count 2^63-1 is back at its first argument after every number of rounds, and never ends. |
| DeleteMetadata.JumpThatEnds | builtInFunctions/dctDeleteMetadata.go:116-136 | Jumping back alone is not endless: a call that jumps back to its third argument and fails there. |
| DeleteMetadata.CallRoundTrip | builtInFunctions/dctDeleteMetadata.go:105-167 | Arguments that encode valid tokens with proper intervals are read as exactly that list, and the call ends. |
| DeleteMetadata.DeletionIsExact | builtInFunctions/dctDeleteMetadata.go:105-192 | A token's metadata is deleted if and only if one of that token's intervals holds its nonce. |
| DeleteMetadata.DeletionSparesTheRest | builtInFunctions/dctDeleteMetadata.go:169-192 | All other entries keep their value; entries without nonce are never deleted. |
| KeyValue.AccountStorage.SaveKeyValues | builtInFunctions/keyValueStorage.go:46-102 | The loop computes the specified writes and gas; on every outcome, also in mid-list, no protected key changes its value. |
| KeyValue.ProtectedExactly | address.go:92-100 | The protected keys are exactly those that continue the protected prefix. |
| KeyValue.PriceOfPair | builtInFunctions/keyValueStorage.go:77-93 | One pair more costs its bytes, and the bytes by which its value grows over the value before it; a shrinking value frees nothing. |
| KeyValue.StorageIsTheFold | builtInFunctions/keyValueStorage.go:63-97 | After success every key has the value of its last pair, despite the shortcut for unchanged values, and no key was protected. |
| KeyValue.ProtectedKeyFails | address.go:92-100 | A list with a protected key anywhere never succeeds. |
| KeyValue.AcceptedExactly | builtInFunctions/keyValueStorage.go:63-97 | For a price that fits 64 bits: a list is accepted if and only if no key is protected and each pair that changes a value finds the price up to it provided; it then uses exactly its price. |
| KeyValue.RefusedExactly | builtInFunctions/keyValueStorage.go:63-97 | It fails with the error of its first pair that does not pass. |
| KeyValue.GasLeftIsExact | builtInFunctions/keyValueStorage.go:77-99 | After success the gas left is the gas provided less the price if and only if the price was provided. |
| KeyValue.UnchangedPairsAreNotChecked | builtInFunctions/keyValueStorage.go:77-81 | A list that changes nothing, with a price that fits 64 bits, is accepted for any gas. |
| KeyValue.GasIsLeftOver | builtInFunctions/keyValueStorage.go:77-99 | Two pairs, the second unchanged: gas 2, price 7, success, and 2^64-5 gas left. |

## Left out

- The marshaller, big integers, the hexadecimal library, tries and journal: replaced by functions, numbers, byte strings and maps. A stored token is always a snapshot, never an object that the code still holds.
- The constant prefixes of storage keys: keys of balances, roles, counters and settings are kept in separate maps instead.
- User accounts at the system account's address: balances and system entries are separate maps, so no account can overlap them.
- Constants of the core library (function and role names, protected prefix, maximum royalty, minimum argument counts): parameters, or the literal counts where an index shows them.
- Tokens whose stored amount is missing: amounts are always present. A missing metadata record that the program dereferences is the outcome `PanicNilMetadata`.
- Counts so large that the program cannot allocate its list: the outcome `PanicSliceTooLong`, which the model reports before the gas and payable checks of the sender half.
- State after an error inside a ledger operation: the node restores its snapshot, so a failed call has no state in `Operations`. For key-value pairs the partial state is modelled.
- What the node adds around the library: refunds of failed deliveries other than the return of the message, relaying, and the gas of returned messages.
- Argument lists of supply-changing calls: `Operations` takes them as decoded values, and only transfers, metadata deletion, key-value pairs, role changes and hand-over start from raw arguments.
- Reading transfer arguments in `ShardStores`: the message is a list of items there; `TransferArgs` and `TransferRuns` connect items to argument lists and text.
- Role lists and transfer-role lists in `World`: one call may set them to anything; `CreatorAccounts` and `TransferRoles` treat how the program changes them.
- The message of a hand-over of the create role: in `World` the hand-over is one step, and a second application of its message, after a creation, is treated only in `CreatorAccounts` and `Nonces`.
- A contract that creates for a caller through another account is taken to live in the caller's shard.
- Hand-over to the old owner itself: the program then holds two copies of one account, and the last one saved wins.
- Adding metadata, developer rewards, owner and user names, the old burn function, output merging and the bit codecs of metadata: easy next to the core.
- Log entries, constructors, nil checks, gas configuration and locks.
- Histories in which epoch flags change, or in which old tokens keep their metadata on user accounts.
- Bitmap.HoldersAreBacked: excludes quantity added by return calls or the system contract, since those pass the frozen check with an empty holding; the safety of the bits does not need this. The same holds for TransferRuns.InFlightReadBackWithBitmap and TransferRuns.CommutesWithBitmap, where such a quantity would be shipped without metadata.
- TransferRuns.InFlightReadBackWithBitmap: see Bitmap.HoldersAreBacked.
- TransferRuns.CommutesWithBitmap: see Bitmap.HoldersAreBacked.
- Liquidity.RunAgrees: creation needs a nonce of which the creator holds nothing (proved in `Freshness` for create roles in order), and wiped keys need a nonce without dash byte; metadata is neither added nor deleted by hand.
- Freshness.LiquidityOfProperRuns: the system contract keeps the create role in order (`Nonces.Orderly`), and quantity is added by callers whom the frozen bit stops.
- LiveCounters.CountersAreKept: ends, for one key and shard, where a metadata update or a creation writes over an existing entry, since the program then writes the entry without counter.
- Acceptance.MovesExactly: one move; when a whole multi-transfer succeeds depends on the states between its moves, and with messages also on the copy gas of the shipped forms, for which the errors and their order are in `Operations.MultiSend`.
- MetadataEffects.NftShipsExactly: for an amount of more than 32 bytes only that it travels bare or as the token.
- Returns.ReturnsAreCredited: for the liquidity protocol with the flags that exempt returns from the payable check and refuse an amount of zero; that its recipient is in one of the shards is assumed.
- BarrierRuns.FrozenHoldingStays: a return to the protected account itself passes the frozen check, so runs in which one reaches it are excluded.
- BarrierRuns.PausedBalanceStays: the same, and calls and messages in that shard name valid identifiers.
- Barrier.FreezeBarrier: calls marked as returns of failed calls and the account of the system contract are exempt, as they are in the program.
- Nonces.NoncesAreUnique: grants, creations and hand-overs come in the order that the system contract enforces (`Nonces.Orderly`).
- KeyValue.AcceptedExactly: for prices that fit 64 bits, like KeyValue.RefusedExactly and KeyValue.GasLeftIsExact; the wrapping sums of larger prices are in `KeyValue.WriteAll`, which the method is proved against.
