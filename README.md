# DIM item transfers, item predicates, loadout-builder state and review lists in Dafny

This project models five pieces of Destiny Item Manager (DIM), a web app for
moving Destiny items between a player's characters and the vault.

- **Item transfers** (`move-item.ts`). This covers three operations on one
  stackable item.
  - `distribute` spreads the item evenly over the characters. It sorts the
    vault last, then reads each store's amount and the total. It shares the
    total out so that the first `total % n` characters get the ceiling and
    the rest the floor. It turns the differences into moves to the vault and
    moves from the vault, then carries out all vault moves before any target
    move.
  - `consolidate` gathers every movable stack into one store, going through
    the vault.
  - `moveItemTo` applies its guards and amount rules to a single move.

  The state is the number of copies each store holds: the field `counts` of
  the class `MoveItem.Inventory`. The remote item service is
  `Inventory.MoveTo`, a transfer that fails and changes nothing when the
  source store does not hold the amount.
- **Item predicates** (`item-utils.ts`). This covers instanced items, who can
  equip an item, what may go in a loadout, the de-duplicated "possibly
  incorrect" stat names, masterwork stat names, Armor 2.0 mods, short damage
  names and the kill-tracker look-up.
- **Loadout-builder state** (`loadoutBuilderReducer.ts`). This covers the
  initial state (with the loop that locks a preloaded loadout's equipped
  items) and the reducer over its eleven actions.
- **Destiny 2 reviews** (`d2-reviewsFetcher.ts`). This covers the review
  comparator, the timestamp translation, the in-place marking of the user's
  own reviews on an `array`, and the short-circuits of `getItemReviewsD2`.
- **Destiny 1 rating requests** (`itemListBuilder.ts`). This flattens the
  stores and vendors, keeps the reviewable items and drops those with a fresh
  cached rating. The source's `Set` compares the requests by reference and so
  removes nothing (`GetWeaponListAsWritten`); the corrected `GetWeaponList`
  de-duplicates them (see "## Findings").

Files:
- `wrappers.dfy` holds `Option`.
- `seq_util.dfy` holds sums, filters, distinctness, subsequences and
  first-occurrence de-duplication.
- Each of the five parts above has its own module: `move_item.dfy`,
  `item_utils.dfy`, `loadout_builder_reducer.dfy`, `reviews_fetcher.dfy` and
  `item_list_builder.dfy`.

Source paths below are relative to the repository root.

## Model

| member | source | states |
|---|---|---|
| MoveItem.Transfer | src/app/inventory/move-item.ts:108 | one transfer by the item service: the source loses `amount`, the target gains it, every other store keeps its count, the store set is unchanged |
| MoveItem.Inventory.MoveTo | src/app/inventory/move-item.ts:158 | `dimItemService.moveTo`: succeeds exactly when the source holds the amount, then the counts are `Transfer` of the old ones; otherwise nothing changes |
| MoveItem.ApplyAll | src/app/inventory/move-item.ts:250-259 | the moves one after the other, stopping at the first that fails: no store appears or disappears, and a run that succeeds only moved between stores that exist |
| MoveItem.ApplyAllAppend | src/app/inventory/move-item.ts:250-259 | carrying out `a + b` is carrying out `a`, then `b` from where `a` stopped, unless `a` failed (the vault moves strictly before the target moves) |
| MoveItem.Inventory.ApplyMoves | src/app/inventory/move-item.ts:250-255 | `applyMoves`: the moves one after the other in list order; the first failure stops the rest; the final counts and success are those of `ApplyAll` |
| MoveItem.VaultLast | src/app/inventory/move-item.ts:206 | the sort keeps the same stores and their number |
| MoveItem.VaultLastShape | src/app/inventory/move-item.ts:206 | the stable sort puts the characters first in their original order and the single vault last; the result stays distinct |
| MoveItem.AmountsOf | src/app/inventory/move-item.ts:208-213 | `amounts[k]` is the count of the k-th sorted store |
| MoveItem.ReadAmounts | src/app/inventory/move-item.ts:208-213 | the loop that reads each store's amount returns `AmountsOf` and their sum as `total` |
| MoveItem.Ceil | src/app/inventory/move-item.ts:222 | `Math.ceil(total / n)`: the least `r` with `total <= n * r` |
| MoveItem.Targets | src/app/inventory/move-item.ts:215-225 | one target per store |
| MoveItem.ComputeTargets | src/app/inventory/move-item.ts:215-225 | the loop with the decrementing `remainder` computes exactly `Targets` |
| MoveItem.TargetsPrefixSum | src/app/inventory/move-item.ts:215-225 | the first `k` targets add up to `k * floor(total / n) + min(k, total % n)` |
| MoveItem.TargetsShareTotal | src/app/inventory/move-item.ts:215-225 | the targets add up to `total`; the vault's is 0; the first `total % n` characters get the ceiling and the others the floor; each is within one of `total / n` |
| MoveItem.Deltas | src/app/inventory/move-item.ts:226 | each delta takes the store's amount to its target |
| MoveItem.SumDeltas | src/app/inventory/move-item.ts:226 | the deltas add up to the targets' sum minus the amounts' sum |
| MoveItem.VaultStep | src/app/inventory/move-item.ts:234-239 | each store yields at most one vault move |
| MoveItem.TargetStep | src/app/inventory/move-item.ts:240-245 | each store yields at most one target move |
| MoveItem.PlanStep | src/app/inventory/move-item.ts:233-247 | one round of the `forEach`: a negative delta off the vault adds a vault move of `-delta`; a positive delta adds a target move of `delta`; anything else adds nothing |
| MoveItem.PlanMoves | src/app/inventory/move-item.ts:228-247 | the `forEach` builds exactly the planned vault moves and target moves |
| MoveItem.PlannedMovesShape | src/app/inventory/move-item.ts:233-247 | every planned move carries a positive amount; vault moves go from a character to the vault, target moves from the vault to a store |
| MoveItem.VaultMovesCarrySupply | src/app/inventory/move-item.ts:234-239 | the vault moves carry in total the characters' surplus |
| MoveItem.TargetMovesCarryDemand | src/app/inventory/move-item.ts:240-245 | the target moves carry in total the stores' deficit |
| MoveItem.MovesBalance | src/app/inventory/move-item.ts:226-247 | demand minus supply is the sum of the deltas, adjusted for the vault's own delta |
| MoveItem.DemandMeetsSupply | src/app/inventory/move-item.ts:226-247 | when the deltas add up to zero and the vault gives up exactly what it held, the target moves need the supply plus the vault's holding |
| MoveItem.VaultPhase | src/app/inventory/move-item.ts:258 | the vault moves all succeed and leave each character with its surplus removed and the vault with all of it |
| MoveItem.TargetPhase | src/app/inventory/move-item.ts:259 | with the vault holding the demand, the target moves all succeed and bring each store its deficit |
| MoveItem.CarryOut | src/app/inventory/move-item.ts:250-259 | both phases in turn succeed and move every store by exactly its delta |
| MoveItem.PlanFor | src/app/inventory/move-item.ts:205-247 | the plan has one sorted store, amount, target and delta per store |
| MoveItem.PlanSorted | src/app/inventory/move-item.ts:206 | the plan's sorted stores are the same distinct stores with the vault last |
| MoveItem.PlanDeltas | src/app/inventory/move-item.ts:208-226 | each store's amount plus its delta is its non-negative target; the vault's target is 0; the deltas add up to zero |
| MoveItem.PlanFacts | src/app/inventory/move-item.ts:205-247 | the properties above for one plan, including that the target moves need exactly the supply plus the vault's holding |
| MoveItem.PlanIsBalanced | src/app/inventory/move-item.ts:226-247 | deltas add up to zero; every vault move carries a positive amount from a character to the vault and every target move from the vault to a character; target moves carry the vault moves' total plus the vault's initial amount |
| MoveItem.DistributionReachesTargets | src/app/inventory/move-item.ts:200-259 | carrying out all vault moves, then all target moves, never fails and leaves every store at its target and the vault empty |
| MoveItem.DistributionIsEven | src/app/inventory/move-item.ts:215-259 | after `distribute` every character holds at least the floor and at most the ceiling of the average, so exactly the average when the characters divide the total |
| MoveItem.Inventory.Distribute | src/app/inventory/move-item.ts:200-271 | `distribute`: succeeds, keeps the store set and leaves every store at its planned target; the counts hold exactly one entry per store, so this is the whole new state |
| MoveItem.CollectToVault | src/app/inventory/move-item.ts:150-160 | the first loop of `consolidate` keeps the store set |
| MoveItem.CollectToVaultEffect | src/app/inventory/move-item.ts:150-160 | after the first `i` characters, a character other than the target with a stack outside the postmaster is emptied; other characters keep their count; the vault gains exactly what was taken |
| MoveItem.Inventory.CollectLoose | src/app/inventory/move-item.ts:150-160 | the loop over the characters computes exactly `CollectToVault` |
| MoveItem.ConsolidatedCounts | src/app/inventory/move-item.ts:150-172 | both phases of `consolidate` keep the store set |
| MoveItem.ConsolidationGathers | src/app/inventory/move-item.ts:150-172 | the target store and postmaster-only stacks are never sent to the vault; the other characters are emptied; the target ends with its own copies plus all gathered copies and the vault's, and the vault ends empty unless it is the target |
| MoveItem.Inventory.Consolidate | src/app/inventory/move-item.ts:140-172 | `consolidate`: the counts become `ConsolidatedCounts` |
| MoveItem.DefaultMoveAmount | src/app/inventory/move-item.ts:70 | `amount` or else 1: never zero, and equal to `amount` when it is non-zero |
| MoveItem.Inventory.MoveItemTo | src/app/inventory/move-item.ts:51-135 | throws `CannotMove` exactly for a non-transferable item meant for another store; returns unmoved exactly when the item is already there, outside the postmaster, with the requested equip state; cancels exactly when the prompt is shown and dismissed; uses the chosen amount when prompted, otherwise `amount` or else 1; asks to reload when the item is or gets equipped; counts change only through a successful transfer |
| ItemUtils.ItemIsInstanced | src/app/utils/item-utils.ts:142-144 | `itemIsInstanced`, a definition: the id is not "0"; what it guarantees is stated by `InstancedIdentifiesItems` |
| ItemUtils.InstancedIdentifiesItems | src/app/utils/item-utils.ts:142-144 | an item is instanced exactly when its id is not "0"; uninstanced items all share that id |
| ItemUtils.ItemCanBeEquippedBy | src/app/utils/item-utils.ts:147-163 | true exactly when the store is not the vault and the item is equipment, of an unknown or the store's class, not above the store's level, movable or owned by the store, outside the postmaster, and (Destiny 1 only) aligned with the store; each failing condition alone gives false |
| ItemUtils.ItemCanBeInLoadout | src/app/utils/item-utils.ts:165-172 | `itemCanBeInLoadout`, a definition: equipment, consumables and Destiny 1 materials; how it relates to equipping is stated by `EquippableFitsLoadout` |
| ItemUtils.EquippableFitsLoadout | src/app/utils/item-utils.ts:165-172 | whatever a store can equip may go in a loadout; a non-equipment consumable may go in a loadout but cannot be equipped |
| ItemUtils.QualifyingNamesMembers | src/app/utils/item-utils.ts:124-132 | a name is collected exactly when some stat other than the two totals has `baseMayBeWrong` and that non-empty name |
| ItemUtils.GetPossiblyIncorrectStats | src/app/utils/item-utils.ts:119-136 | the loop that adds to the `Set` returns the qualifying names, de-duplicated in first-insertion order; missing stats give the empty list |
| ItemUtils.PossiblyIncorrectStatsFacts | src/app/utils/item-utils.ts:119-136 | the result has no repeats; it holds exactly the qualifying names, never a total stat's, in first-occurrence order |
| ItemUtils.PresentNames | src/app/utils/item-utils.ts:114 | the kept names are the stats' names (missing ones as '') with the empty ones filtered out: exactly the non-empty names, a subsequence of all names in their order, never more |
| ItemUtils.PresentNamesEmpty | src/app/utils/item-utils.ts:114 | no name is kept exactly when every stat's name is missing or empty |
| ItemUtils.JoinSnoc | src/app/utils/item-utils.ts:114 | joining one more part appends the separator and that part, so the parts appear in order with one separator between each two |
| ItemUtils.JoinLength | src/app/utils/item-utils.ts:114 | a join has every part plus one separator between each two |
| ItemUtils.JoinEmpty | src/app/utils/item-utils.ts:114 | joining non-empty names is blank exactly when there are none |
| ItemUtils.GetMasterworkStatNames | src/app/utils/item-utils.ts:110-117 | '' exactly when there is no masterwork, no stats, or no stat with a non-empty name; a single name is returned as it is; otherwise the present names joined with ", " in order, so it starts with the first name and has the length of all names plus a ", " between each two |
| ItemUtils.SpecialtyHashesMembers | src/app/utils/item-utils.ts:52-54 | a category hash is in the flattened list exactly when some metadata entry lists it |
| ItemUtils.IsArmor2Mod | src/app/utils/item-utils.ts:100-103 | false without a plug; with a plug, true exactly when its category hash is an Armor 2.0 category or a specialty-socket category |
| ItemUtils.GetItemDamageShortName | src/app/utils/item-utils.ts:28-31 | `getItemDamageShortName`, a definition: Destiny 2 items with energy are named by the energy table, all others by the damage table; its one property beyond that is that a name always comes from one of the tables |
| ItemUtils.FindTrackerSocket | src/app/utils/item-utils.ts:178-181 | `find`: nothing exactly when no socket's objective key is a kill-tracker objective; otherwise the first socket whose key is |
| ItemUtils.GetKillTrackerSocket | src/app/utils/item-utils.ts:175-182 | only weapons with sockets are searched; for those, nothing exactly when no socket's key names a kill tracker, otherwise a socket whose key does, with no matching socket before it |
| ItemUtils.GetSocketKillTrackerInfo | src/app/utils/item-utils.ts:191-205 | info exactly when a tracker is plugged, its first objective maps to a type and its progress is defined, carrying that type, count and definition; a plugged tracker without objectives fails with the `TypeError` the source would throw |
| ItemUtils.GetItemKillTrackerInfo | src/app/utils/item-utils.ts:208-209 | info only for a weapon socket holding a defined kill-tracker objective |
| ItemUtils.KillTrackerLookupSafe | src/app/utils/item-utils.ts:178-195 | the look-up never fails while 0 is no objective hash; an objective hash of 0 would let `find` pick a socket with no objectives and fail |
| LoadoutBuilderReducer.DefaultsCoverEverything | src/app/loadout-builder/loadoutBuilderReducer.ts:62-78 | the default filters cover the six stats with {0, 10, not ignored}; the default mod map has all seven categories empty |
| LoadoutBuilderReducer.FindStoreId | src/app/loadout-builder/loadoutBuilderReducer.ts:43 | `find(...)?.id`: nothing exactly when no store matches, otherwise the first match's id |
| LoadoutBuilderReducer.LockFrom | src/app/loadout-builder/loadoutBuilderReducer.ts:45-58 | after the first `k` loadout items, a bucket is locked exactly when one of them is equipped, found across the stores, accepted by the builder and of that bucket |
| LoadoutBuilderReducer.InitialState | src/app/loadout-builder/loadoutBuilderReducer.ts:31-88 | the initial state covers every stat and mod category; power floor 750, default filters, empty mods, closed pickers; no stores or no preloaded loadout means no locks and the current store; otherwise the loadout's locks and the first store of its class |
| LoadoutBuilderReducer.LbStateInit | src/app/loadout-builder/loadoutBuilderReducer.ts:31-88 | `lbStateInit`: the loop over the preloaded loadout builds exactly `InitialState` |
| LoadoutBuilderReducer.Reduce | src/app/loadout-builder/loadoutBuilderReducer.ts:104-166 | each field changes only under the actions that write it |
| LoadoutBuilderReducer.ChangeCharacterResets | src/app/loadout-builder/loadoutBuilderReducer.ts:109-123 | `changeCharacter` selects the store, clears locks, resets filters and sets the power floor to 0, and keeps mods and pickers |
| LoadoutBuilderReducer.LockEditsOneBucket | src/app/loadout-builder/loadoutBuilderReducer.ts:130-151 | adding or removing a lock rewrites only the item's bucket entry from its old entry; other buckets and fields stay |
| LoadoutBuilderReducer.SettersReplaceOwnField | src/app/loadout-builder/loadoutBuilderReducer.ts:124-129 | each setter action replaces exactly its own field |
| LoadoutBuilderReducer.PickersOpenAndClose | src/app/loadout-builder/loadoutBuilderReducer.ts:154-164 | opening sets open with the query; closing sets closed with no query; closing after opening, or twice, is one close; the other picker stays |
| LoadoutBuilderReducer.ReducerKeepsValid | src/app/loadout-builder/loadoutBuilderReducer.ts:31-166 | the initial state covers every stat and mod category, and well-formed actions keep it so |
| ReviewsFetcher.SortReviews | src/app/destinyTrackerApi/d2-reviewsFetcher.ts:85-112 | unless both reviews are the user's or both (not the user's) are highlighted, negative exactly when `a` ranks before `b` (the user's review, then a highlighted one, then more votes, then newer), positive exactly when `b` ranks before `a`, zero exactly when neither does; on those two kinds of tie it claims `a` first |
| ReviewsFetcher.SortReviewsTiesClaimFirst | src/app/destinyTrackerApi/d2-reviewsFetcher.ts:86-100 | two of the user's reviews, or two highlighted ones, each compare as first |
| ReviewsFetcher.TranslateReview | src/app/destinyTrackerApi/d2-reviewsFetcher.ts:76-83 | the review with its timestamp converted to UTC and every other field kept |
| ReviewsFetcher.TranslateReviewResponse | src/app/destinyTrackerApi/d2-reviewsFetcher.ts:70-74 | the response with every review translated, keeping their number and order and every other field of the response |
| ReviewsFetcher.Marked | src/app/destinyTrackerApi/d2-reviewsFetcher.ts:122-136 | marking keeps the number of reviews |
| ReviewsFetcher.MarkingFacts | src/app/destinyTrackerApi/d2-reviewsFetcher.ts:122-136 | exactly the account member's reviews become `isReviewer`; nothing else changes; without an account nothing changes; marking is idempotent |
| ReviewsFetcher.MarkingCommutesWithTranslation | src/app/destinyTrackerApi/d2-reviewsFetcher.ts:36-38 | marking then translating equals translating then marking |
| ReviewsFetcher.MarkUserReview | src/app/destinyTrackerApi/d2-reviewsFetcher.ts:122-136 | the in-place loop leaves the array equal to `Marked` of its old contents |
| ReviewsFetcher.GetItemReviewsD2 | src/app/destinyTrackerApi/d2-reviewsFetcher.ts:19-50 | nothing for a non-reviewable item; the cached reviews without fetching; a fetch exactly when reviewable and uncached, with `lastUpdated` set to now and the count kept |
| ReviewsFetcher.FetchedReviewsAreMarked | src/app/destinyTrackerApi/d2-reviewsFetcher.ts:36-40 | a fetch hands sort-and-ignore all the translated reviews with the user's own flagged |
| ItemListBuilder.IsVendor | src/app/destinyTrackerApi/itemListBuilder.ts:51-53 | `isVendor`, a definition: `allItems` is present; how it chooses the items is stated by `ItemsOf` |
| ItemListBuilder.ItemsOf | src/app/destinyTrackerApi/itemListBuilder.ts:47 | a vendor contributes its `allItems[i].item`, one per entry, in order; a character store its `items` |
| ItemListBuilder.VendorItems | src/app/destinyTrackerApi/itemListBuilder.ts:47 | a vendor contributes `allItems[i].item`, one per entry, in order |
| ItemListBuilder.GetAllItemsAppend | src/app/destinyTrackerApi/itemListBuilder.ts:45-49 | flattening distributes over appending store lists, so stores contribute in order |
| ItemListBuilder.GetAllItems | src/app/destinyTrackerApi/itemListBuilder.ts:45-49 | an item is listed exactly when some store or vendor holds it |
| ItemListBuilder.Translate | src/app/destinyTrackerApi/itemListBuilder.ts:34 | one translated request per item, in order |
| ItemListBuilder.GetNewItems | src/app/destinyTrackerApi/itemListBuilder.ts:28-43 | a request is kept exactly when its rating is missing or older than `now - expiration`; the result is a subsequence of the translation, no longer, and keeps every copy of a kept request |
| ItemListBuilder.NoRatingsKeepsAll | src/app/destinyTrackerApi/itemListBuilder.ts:36-40 | without ratings every request needs a rating |
| ItemListBuilder.GetDtrWeapons | src/app/destinyTrackerApi/itemListBuilder.ts:56-73 | every request translates a reviewable item some store holds; with ratings, the requests are exactly the translated reviewable items needing a rating, as a subsequence of their order with every copy of a kept request; without ratings, every reviewable item translated, in order |
| ItemListBuilder.DtrWeaponsBranchesAgree | src/app/destinyTrackerApi/itemListBuilder.ts:62-72 | without ratings the short branch returns what the rating filter would |
| ItemListBuilder.GetWeaponList | src/app/destinyTrackerApi/itemListBuilder.ts:15-26 | the de-duplicated weapon list: no repeats, the same requests as `getDtrWeapons`, no more entries, in order of first occurrence |
| ItemListBuilder.GetWeaponListAsWritten | src/app/destinyTrackerApi/itemListBuilder.ts:15-26 | as written: exactly the list of `getDtrWeapons`, since the `Set` drops nothing; without ratings one request per reviewable item, repeats included |
| ItemListBuilder.WeaponListAsWrittenRepeats | src/app/destinyTrackerApi/itemListBuilder.ts:21-25 | with two copies of one reviewable weapon and no ratings, the list as written has the request twice and the de-duplicated list once |

## Left out

- I/O, concurrency and UI plumbing are left out:
  - the network: `dtrFetch`, the remote half of `dimItemService.moveTo`, `handleD2Errors`;
  - `queueAction` and `loadingTracker`;
  - notifications, `console`, `reportException` and `t()`;
  - the amount popup's Subject and Promise;
  - `updateCharacters` and `updateManualMoveTimestamp`;
  - React's `useReducer`.

  The popup's answer is the parameter `chosen` of `MoveItemTo`, with `None`
  for a cancel. A reload is only reported, in `Moved.reload`.
- Clocks are parameters rather than reads: `Date.now()`, `new Date()` and
  `toUtcTime` become `now`, integer timestamps and the function `toUtc`.
- Functions whose bodies live in files outside this model are function
  parameters:
  - `translateToDtrWeapon` and `getItemStoreKey`;
  - `addLockedItem` and `removeLockedItem`;
  - `getItemAcrossStores` and `isLoadoutBuilderItem`;
  - `factionItemAligns`;
  - the `sortAndIgnoreReviews` step, together with `conditionallyIgnoreReviews`.
- Constants and tables from files outside this model are constants or
  parameters. `ITEM_RATING_EXPIRATION` is the parameter `expiration`. The
  total stat hashes are constants with distinct placeholder values. The
  energy and damage name tables, the Armor 2.0 category list, the mod-socket
  metadata and the kill-tracker table are parameters.
- `getCurrentStore` is taken to return the first store marked current.
- ReviewsFetcher.GetItemReviewsD2: `sortAndIgnoreReviews` sorts with a comparator that is not a consistent order. `SortReviewsTiesClaimFirst` shows this. So the model does not fix the resulting order; the step is a parameter.
- ReviewsFetcher.MarkUserReview: the source also returns the response object; only the in-place change of the reviews is modelled.
- MoveItem.Inventory.Distribute: requires at least two stores, distinct store ids and exactly one vault. With a single store the source computes only `total % 0`, which is `NaN` in JavaScript and throws nothing; the guard `index >= numTargets` gives the lone store the target 0 without dividing, and the success path runs. The model's precondition excludes that input rather than modelling it as a no-op.
- MoveItem.Inventory.MoveItemTo: the source's default arguments `equip = false`, `amount = item.amount` and `chooseAmount = false` are required parameters here. A caller omitting `amount` moves `item.amount`, which a caller of the model passes explicitly.
- MoveItem.Inventory.Consolidate: `loose` is a parameter. It names the characters that have a stack of the item outside the postmaster, which is what the source's `items.find` looks for. The vault counts as holding a movable stack whenever its count is positive.
- The other exports of `item-utils.ts` are not modelled: the specialty-socket look-ups, `getItemPowerCapFinalSeason`, `modMetadataByTag` and the other derived tables. They are not among the modelled operations.
- Every move between stores is modelled as a change of counts. Equipping, item instances and the postmaster's own bookkeeping are not modelled.

## Findings

| source | as written | input that shows it | evidently intended | confidence | as-written member | corrected member |
|---|---|---|---|---|---|---|
| src/app/destinyTrackerApi/itemListBuilder.ts:21-25 | `new Set(dtrWeapons)` compares the request objects by reference, and `translateToDtrWeapon` makes a new object per item, so no request is ever dropped | one character store holding two copies of the same reviewable weapon, no cached ratings: the list asks about it twice | each weapon hash and roll asked about once | not executed; assumes `translateToDtrWeapon` returns a new object per call (its file is not part of this model) | ItemListBuilder.GetWeaponListAsWritten, ItemListBuilder.WeaponListAsWrittenRepeats | ItemListBuilder.GetWeaponList |
