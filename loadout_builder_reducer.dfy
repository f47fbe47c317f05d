/**
 * The loadout builder's state: its initial value (built from the stores and an
 * optional preloaded loadout) and the reducer that applies the builder's actions.
 * `addLockedItem`, `removeLockedItem`, `getItemAcrossStores` and
 * `isLoadoutBuilderItem` are not part of this model; they are passed in as functions.
 */
module LoadoutBuilderReducer {
  import opened Wrappers

  // ---------------------------------------------------------------------------
  // State
  // ---------------------------------------------------------------------------

  datatype StatType = Mobility | Resilience | Recovery | Discipline | Intellect | Strength
  datatype ModPickerCategory = General | Helmet | Gauntlets | Chest | Leg | ClassItem | Seasonal

  datatype MinMaxIgnored = MinMaxIgnored(min: int, max: int, ignored: bool)

  /** An item that can be locked; it sits in the bucket `bucketHash`. */
  datatype LbItem = LbItem(id: string, bucketHash: int)
  /** `LockedItemType`: what is locked (`kind`, e.g. "item"), the item, and its bucket. */
  datatype LockedItem = LockedItem(kind: string, item: LbItem, bucketHash: int)
  datatype Mod = Mod(hash: int)

  /** `LockedMap`: bucket hash to the locked entries, `None` standing for `undefined`. */
  type LockedMap = map<int, Option<seq<LockedItem>>>
  type StatFilters = map<StatType, MinMaxIgnored>
  type LockedArmor2ModMap = map<ModPickerCategory, seq<Mod>>

  datatype Picker = Picker(open: bool, initialQuery: Option<string>)

  /** `LoadoutBuilderState`. */
  datatype LbState = LbState(
    lockedMap: LockedMap,
    lockedArmor2Mods: LockedArmor2ModMap,
    selectedStoreId: Option<string>,
    statFilters: StatFilters,
    minimumPower: int,
    modPicker: Picker,
    perkPicker: Picker)

  /** `lockedMap[bucketHash]`: `undefined` for a bucket without an entry. */
  function Lookup(m: LockedMap, bucketHash: int): Option<seq<LockedItem>> {
    if bucketHash in m then m[bucketHash] else None
  }

  /** Every stat filter open from 0 to 10 and not ignored. */
  function DefaultStatFilters(): StatFilters {
    var open := MinMaxIgnored(0, 10, false);
    map[Mobility := open, Resilience := open, Recovery := open, Discipline := open,
        Intellect := open, Strength := open]
  }

  /** Every mod category with no mod locked. */
  function EmptyArmor2Mods(): LockedArmor2ModMap {
    map[General := [], Helmet := [], Gauntlets := [], Chest := [], Leg := [], ClassItem := [], Seasonal := []]
  }

  /** The defaults cover every stat and every mod category. */
  lemma DefaultsCoverEverything()
    ensures forall t :: t in DefaultStatFilters() && DefaultStatFilters()[t] == MinMaxIgnored(0, 10, false)
    ensures forall c :: c in EmptyArmor2Mods() && EmptyArmor2Mods()[c] == []
  {
    forall t ensures t in DefaultStatFilters() {
      match t
      case Mobility => case Resilience => case Recovery =>
      case Discipline => case Intellect => case Strength =>
    }
    forall c ensures c in EmptyArmor2Mods() {
      match c
      case General => case Helmet => case Gauntlets => case Chest =>
      case Leg => case ClassItem => case Seasonal =>
    }
  }

  /** A state whose filter and mod maps cover every stat and every mod category. */
  predicate Valid(s: LbState) {
    (forall t :: t in s.statFilters) && (forall c :: c in s.lockedArmor2Mods)
  }

  // ---------------------------------------------------------------------------
  // Initial state
  // ---------------------------------------------------------------------------

  datatype Store = Store(id: string, classType: int, current: bool)
  datatype LoadoutItem = LoadoutItem(id: string, equipped: bool)
  datatype Loadout = Loadout(classType: int, items: seq<LoadoutItem>)

  /** `stores.find(p)?.id` for the first store satisfying `p`. */
  function FindStoreId(stores: seq<Store>, p: Store -> bool): (r: Option<string>)
    ensures r.None? <==> forall i :: 0 <= i < |stores| ==> !p(stores[i])
    ensures r.Some? ==> exists i :: 0 <= i < |stores| && p(stores[i]) && stores[i].id == r.value &&
                                    forall j :: 0 <= j < i ==> !p(stores[j])
    decreases |stores|
  {
    if |stores| == 0 then None
    else if p(stores[0]) then Some(stores[0].id)
    else
      var r := FindStoreId(stores[1..], p);
      assert forall i :: 1 <= i < |stores| ==> stores[i] == stores[1..][i - 1];
      if r.Some? then
        assert exists i :: 0 <= i < |stores| && p(stores[i]) && stores[i].id == r.value &&
                           forall j :: 0 <= j < i ==> !p(stores[j]) by {
          var i :| 0 <= i < |stores[1..]| && p(stores[1..][i]) && stores[1..][i].id == r.value &&
                   forall j :: 0 <= j < i ==> !p(stores[1..][j]);
          assert stores[i + 1] == stores[1..][i];
        }
        r
      else r
  }

  /** `getCurrentStore(stores)?.id`: the store marked current. */
  function CurrentStoreId(stores: seq<Store>): Option<string> {
    FindStoreId(stores, (s: Store) => s.current)
  }

  /** The store the builder opens on for a preloaded loadout: the first of the loadout's class. */
  function StoreOfClass(stores: seq<Store>, classType: int): Option<string> {
    FindStoreId(stores, (s: Store) => s.classType == classType)
  }

  /**
   * The locked map after the first `k` loadout items: a bucket is locked exactly when
   * one of those items is equipped, found in the stores and a builder item of that bucket.
   */
  function LockFrom(stores: seq<Store>, items: seq<LoadoutItem>, k: nat,
                    findItem: (seq<Store>, LoadoutItem) -> Option<LbItem>, isBuilderItem: LbItem -> bool,
                    add: (LockedItem, Option<seq<LockedItem>>) -> Option<seq<LockedItem>>): (r: LockedMap)
    requires k <= |items|
    ensures forall b :: b in r ==>
              exists i :: 0 <= i < k && items[i].equipped && findItem(stores, items[i]).Some? &&
                isBuilderItem(findItem(stores, items[i]).value) &&
                findItem(stores, items[i]).value.bucketHash == b
    ensures forall i :: (0 <= i < k && items[i].equipped && findItem(stores, items[i]).Some? &&
                         isBuilderItem(findItem(stores, items[i]).value)) ==>
              findItem(stores, items[i]).value.bucketHash in r
    decreases k
  {
    if k == 0 then map[]
    else
      var m := LockFrom(stores, items, k - 1, findItem, isBuilderItem, add);
      var loadoutItem := items[k - 1];
      var item := findItem(stores, loadoutItem);
      if loadoutItem.equipped && item.Some? && isBuilderItem(item.value) then
        var b := item.value.bucketHash;
        m[b := add(LockedItem("item", item.value, b), Lookup(m, b))]
      else m
  }

  /**
   * The state `lbStateInit` builds: everything at its default, and for a preloaded
   * loadout (when there are stores) the loadout's equipped builder items locked and the
   * first store of its class selected; otherwise nothing locked and the current store selected.
   */
  function InitialState(stores: seq<Store>, preloaded: Option<Loadout>,
                        findItem: (seq<Store>, LoadoutItem) -> Option<LbItem>, isBuilderItem: LbItem -> bool,
                        add: (LockedItem, Option<seq<LockedItem>>) -> Option<seq<LockedItem>>): (r: LbState)
    ensures Valid(r)
    ensures r.minimumPower == 750
    ensures forall t :: t in r.statFilters && r.statFilters[t] == MinMaxIgnored(0, 10, false)
    ensures forall c :: c in r.lockedArmor2Mods && r.lockedArmor2Mods[c] == []
    ensures !r.modPicker.open && !r.perkPicker.open
    ensures |stores| == 0 || preloaded.None? ==> r.lockedMap == map[] && r.selectedStoreId == CurrentStoreId(stores)
    ensures |stores| > 0 && preloaded.Some? ==>
              r.selectedStoreId == StoreOfClass(stores, preloaded.value.classType) &&
              r.lockedMap == LockFrom(stores, preloaded.value.items, |preloaded.value.items|, findItem, isBuilderItem, add)
  {
    DefaultsCoverEverything();
    var preload := |stores| > 0 && preloaded.Some?;
    LbState(
      if preload then LockFrom(stores, preloaded.value.items, |preloaded.value.items|, findItem, isBuilderItem, add)
      else map[],
      EmptyArmor2Mods(),
      if preload then StoreOfClass(stores, preloaded.value.classType) else CurrentStoreId(stores),
      DefaultStatFilters(),
      750,
      Picker(false, None),
      Picker(false, None))
  }

  /** `lbStateInit`. */
  method LbStateInit(stores: seq<Store>, preloaded: Option<Loadout>,
                     findItem: (seq<Store>, LoadoutItem) -> Option<LbItem>, isBuilderItem: LbItem -> bool,
                     add: (LockedItem, Option<seq<LockedItem>>) -> Option<seq<LockedItem>>)
    returns (state: LbState)
    ensures state == InitialState(stores, preloaded, findItem, isBuilderItem, add)
  {
    var lockedMap: LockedMap := map[];
    var selectedStoreId := CurrentStoreId(stores);
    if |stores| > 0 && preloaded.Some? {
      var loadout := preloaded.value;
      selectedStoreId := StoreOfClass(stores, loadout.classType);
      for i := 0 to |loadout.items|
        invariant lockedMap == LockFrom(stores, loadout.items, i, findItem, isBuilderItem, add)
      {
        var loadoutItem := loadout.items[i];
        if loadoutItem.equipped {
          var item := findItem(stores, loadoutItem);
          if item.Some? && isBuilderItem(item.value) {
            var b := item.value.bucketHash;
            lockedMap := lockedMap[b := add(LockedItem("item", item.value, b), Lookup(lockedMap, b))];
          }
        }
      }
    }
    state := LbState(lockedMap, EmptyArmor2Mods(), selectedStoreId, DefaultStatFilters(), 750,
                     Picker(false, None), Picker(false, None));
  }

  // ---------------------------------------------------------------------------
  // Reducer
  // ---------------------------------------------------------------------------

  /** `LoadoutBuilderAction`. */
  datatype Action =
    | ChangeCharacter(storeId: string)
    | StatFiltersChanged(statFilters: StatFilters)
    | MinimumPowerChanged(minimumPower: int)
    | LockedMapChanged(lockedMap: LockedMap)
    | AddItemToLockedMap(item: LockedItem)
    | RemoveItemFromLockedMap(item: LockedItem)
    | LockedArmor2ModsChanged(lockedArmor2Mods: LockedArmor2ModMap)
    | OpenModPicker(initialQuery: Option<string>)
    | CloseModPicker
    | OpenPerkPicker(initialQuery: Option<string>)
    | ClosePerkPicker

  /**
   * `lbStateReducer`. Each field changes only under the actions that name it: the
   * character change resets the locks, the stat filters and the power floor.
   */
  function Reduce(s: LbState, a: Action,
                  add: (LockedItem, Option<seq<LockedItem>>) -> Option<seq<LockedItem>>,
                  remove: (LockedItem, Option<seq<LockedItem>>) -> Option<seq<LockedItem>>): (r: LbState)
    ensures !a.ChangeCharacter? ==> r.selectedStoreId == s.selectedStoreId
    ensures !(a.ChangeCharacter? || a.LockedMapChanged? || a.AddItemToLockedMap? || a.RemoveItemFromLockedMap?) ==>
              r.lockedMap == s.lockedMap
    ensures !(a.ChangeCharacter? || a.StatFiltersChanged?) ==> r.statFilters == s.statFilters
    ensures !(a.ChangeCharacter? || a.MinimumPowerChanged?) ==> r.minimumPower == s.minimumPower
    ensures !a.LockedArmor2ModsChanged? ==> r.lockedArmor2Mods == s.lockedArmor2Mods
    ensures !(a.OpenModPicker? || a.CloseModPicker?) ==> r.modPicker == s.modPicker
    ensures !(a.OpenPerkPicker? || a.ClosePerkPicker?) ==> r.perkPicker == s.perkPicker
  {
    match a
    case ChangeCharacter(storeId) =>
      s.(selectedStoreId := Some(storeId), lockedMap := map[], statFilters := DefaultStatFilters(), minimumPower := 0)
    case StatFiltersChanged(statFilters) => s.(statFilters := statFilters)
    case MinimumPowerChanged(minimumPower) => s.(minimumPower := minimumPower)
    case LockedMapChanged(lockedMap) => s.(lockedMap := lockedMap)
    case AddItemToLockedMap(item) =>
      var b := item.bucketHash;
      s.(lockedMap := s.lockedMap[b := add(item, Lookup(s.lockedMap, b))])
    case RemoveItemFromLockedMap(item) =>
      var b := item.bucketHash;
      s.(lockedMap := s.lockedMap[b := remove(item, Lookup(s.lockedMap, b))])
    case LockedArmor2ModsChanged(mods) => s.(lockedArmor2Mods := mods)
    case OpenModPicker(q) => s.(modPicker := Picker(true, q))
    case CloseModPicker => s.(modPicker := Picker(false, None))
    case OpenPerkPicker(q) => s.(perkPicker := Picker(true, q))
    case ClosePerkPicker => s.(perkPicker := Picker(false, None))
  }

  /** Switching character selects it, drops every lock, resets the filters and the power floor, and keeps mods and pickers. */
  lemma ChangeCharacterResets(s: LbState, storeId: string,
                              add: (LockedItem, Option<seq<LockedItem>>) -> Option<seq<LockedItem>>,
                              remove: (LockedItem, Option<seq<LockedItem>>) -> Option<seq<LockedItem>>)
    ensures var r := Reduce(s, ChangeCharacter(storeId), add, remove);
      && r.selectedStoreId == Some(storeId)
      && (forall b :: Lookup(r.lockedMap, b) == None)
      && (forall t :: t in r.statFilters && r.statFilters[t] == MinMaxIgnored(0, 10, false))
      && r.minimumPower == 0
      && r.lockedArmor2Mods == s.lockedArmor2Mods && r.modPicker == s.modPicker && r.perkPicker == s.perkPicker
  {
    DefaultsCoverEverything();
  }

  /** Locking or unlocking an item rewrites the entry of its bucket, from the old entry, and no other. */
  lemma LockEditsOneBucket(s: LbState, item: LockedItem,
                           add: (LockedItem, Option<seq<LockedItem>>) -> Option<seq<LockedItem>>,
                           remove: (LockedItem, Option<seq<LockedItem>>) -> Option<seq<LockedItem>>)
    ensures var r := Reduce(s, AddItemToLockedMap(item), add, remove);
      && Lookup(r.lockedMap, item.bucketHash) == add(item, Lookup(s.lockedMap, item.bucketHash))
      && (forall b :: b != item.bucketHash ==> Lookup(r.lockedMap, b) == Lookup(s.lockedMap, b))
      && r.(lockedMap := s.lockedMap) == s
    ensures var r := Reduce(s, RemoveItemFromLockedMap(item), add, remove);
      && Lookup(r.lockedMap, item.bucketHash) == remove(item, Lookup(s.lockedMap, item.bucketHash))
      && (forall b :: b != item.bucketHash ==> Lookup(r.lockedMap, b) == Lookup(s.lockedMap, b))
      && r.(lockedMap := s.lockedMap) == s
  {
  }

  /** Each setter replaces exactly its own field. */
  lemma SettersReplaceOwnField(s: LbState, a: Action,
                               add: (LockedItem, Option<seq<LockedItem>>) -> Option<seq<LockedItem>>,
                               remove: (LockedItem, Option<seq<LockedItem>>) -> Option<seq<LockedItem>>)
    ensures a.StatFiltersChanged? ==> Reduce(s, a, add, remove) == s.(statFilters := a.statFilters)
    ensures a.MinimumPowerChanged? ==> Reduce(s, a, add, remove) == s.(minimumPower := a.minimumPower)
    ensures a.LockedMapChanged? ==> Reduce(s, a, add, remove) == s.(lockedMap := a.lockedMap)
    ensures a.LockedArmor2ModsChanged? ==> Reduce(s, a, add, remove) == s.(lockedArmor2Mods := a.lockedArmor2Mods)
  {
  }

  /**
   * Opening a picker shows it with the query, closing hides it and forgets the query,
   * the other picker is untouched, and closing is idempotent.
   */
  lemma PickersOpenAndClose(s: LbState, q: Option<string>,
                            add: (LockedItem, Option<seq<LockedItem>>) -> Option<seq<LockedItem>>,
                            remove: (LockedItem, Option<seq<LockedItem>>) -> Option<seq<LockedItem>>)
    ensures Reduce(s, OpenModPicker(q), add, remove).modPicker == Picker(true, q)
    ensures Reduce(s, OpenPerkPicker(q), add, remove).perkPicker == Picker(true, q)
    ensures Reduce(s, CloseModPicker, add, remove).modPicker == Picker(false, None)
    ensures Reduce(s, ClosePerkPicker, add, remove).perkPicker == Picker(false, None)
    ensures Reduce(Reduce(s, OpenModPicker(q), add, remove), CloseModPicker, add, remove) ==
            Reduce(s, CloseModPicker, add, remove)
    ensures Reduce(Reduce(s, CloseModPicker, add, remove), CloseModPicker, add, remove) ==
            Reduce(s, CloseModPicker, add, remove)
    ensures Reduce(Reduce(s, OpenPerkPicker(q), add, remove), ClosePerkPicker, add, remove) ==
            Reduce(s, ClosePerkPicker, add, remove)
  {
  }

  /** The payload of an action is itself well formed (a full filter map, a full mod map). */
  predicate ActionValid(a: Action) {
    (a.StatFiltersChanged? ==> forall t :: t in a.statFilters) &&
    (a.LockedArmor2ModsChanged? ==> forall c :: c in a.lockedArmor2Mods)
  }

  /** The initial state is well formed, and well-formed actions keep it so. */
  lemma ReducerKeepsValid(stores: seq<Store>, preloaded: Option<Loadout>,
                          findItem: (seq<Store>, LoadoutItem) -> Option<LbItem>, isBuilderItem: LbItem -> bool,
                          s: LbState, a: Action,
                          add: (LockedItem, Option<seq<LockedItem>>) -> Option<seq<LockedItem>>,
                          remove: (LockedItem, Option<seq<LockedItem>>) -> Option<seq<LockedItem>>)
    ensures Valid(InitialState(stores, preloaded, findItem, isBuilderItem, add))
    ensures Valid(s) && ActionValid(a) ==> Valid(Reduce(s, a, add, remove))
  {
    DefaultsCoverEverything();
  }
}
