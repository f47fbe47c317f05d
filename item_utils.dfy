/**
 * Item predicates and look-ups over item records: instanced items, who may
 * equip an item, what may go in a loadout, the stats whose base value may be
 * wrong, masterwork stat names, armor 2.0 mods, damage names and kill trackers.
 */
module ItemUtils {
  import opened Wrappers
  import opened SeqUtil

  // ---------------------------------------------------------------------------
  // Items and stores
  // ---------------------------------------------------------------------------

  /** `DestinyClass`; `Unknown` marks an item any class may use. */
  datatype DestinyClass = Titan | Hunter | Warlock | Unknown

  /** The fields of a `DimItem` the predicates read. */
  datatype Item = Item(
    id: string,
    equipment: bool,
    classType: DestinyClass,
    equipRequiredLevel: int,
    notransfer: bool,
    owner: string,
    inPostmaster: bool,
    isDestiny1: bool,
    itemType: string)

  /** The fields of a `DimStore` the predicates read. */
  datatype Store = Store(id: string, isVault: bool, classType: DestinyClass, level: int)

  /** The id every uninstanced item carries. */
  const UninstancedId: string := "0"

  /** `itemIsInstanced`: an item is instanced when it has an id of its own. */
  predicate ItemIsInstanced(item: Item) {
    item.id != UninstancedId
  }

  /**
   * Instanced items are told apart by their ids, uninstanced items cannot be: every
   * uninstanced item has the same id, and it is the id of no instanced item.
   */
  lemma InstancedIdentifiesItems(a: Item, b: Item)
    ensures !ItemIsInstanced(a) && !ItemIsInstanced(b) ==> a.id == b.id
    ensures ItemIsInstanced(a) && !ItemIsInstanced(b) ==> a.id != b.id
    ensures ItemIsInstanced(a) <==> a.id != "0"
  {
  }

  /**
   * `itemCanBeEquippedBy`: never the vault; otherwise equipment of a matching class, not
   * above the store's level, movable or already owned by the store, outside the
   * postmaster, and (Destiny 1 only) aligned with the store's faction (`aligns`).
   */
  function ItemCanBeEquippedBy(item: Item, store: Store, aligns: (Store, Item) -> bool): (r: bool)
    ensures store.isVault ==> !r
    ensures item.classType != Unknown && item.classType != store.classType ==> !r
    ensures item.equipRequiredLevel > store.level ==> !r
    ensures item.notransfer && item.owner != store.id ==> !r
    ensures item.inPostmaster ==> !r
    ensures item.isDestiny1 && !aligns(store, item) ==> !r
    ensures r ==> item.equipment
    ensures (!store.isVault && item.equipment &&
             (item.classType == Unknown || item.classType == store.classType) &&
             item.equipRequiredLevel <= store.level && (!item.notransfer || item.owner == store.id) &&
             !item.inPostmaster && (item.isDestiny1 ==> aligns(store, item))) ==> r
  {
    if store.isVault then false
    else
      && item.equipment
      && (item.classType == Unknown || item.classType == store.classType)
      && item.equipRequiredLevel <= store.level
      && (!item.notransfer || item.owner == store.id)
      && !item.inPostmaster
      && (if item.isDestiny1 then aligns(store, item) else true)
  }

  /** `itemCanBeInLoadout`: equipment, consumables and (Destiny 1) materials. */
  predicate ItemCanBeInLoadout(item: Item) {
    item.equipment || item.itemType == "Consumables" || item.itemType == "Material"
  }

  /** Whatever some store can equip can also be put in a loadout; the converse fails for consumables. */
  lemma EquippableFitsLoadout(item: Item, store: Store, aligns: (Store, Item) -> bool)
    ensures ItemCanBeEquippedBy(item, store, aligns) ==> ItemCanBeInLoadout(item)
    ensures item.itemType == "Consumables" && !item.equipment ==>
              ItemCanBeInLoadout(item) && !ItemCanBeEquippedBy(item, store, aligns)
  {
  }

  // ---------------------------------------------------------------------------
  // Stats whose base value may be wrong
  // ---------------------------------------------------------------------------

  /**
   * The synthetic "total" and "custom total" stats. Their values are defined in
   * `app/search/d2-known-values`, which is not part of this model; the numbers below
   * are placeholders, and the model relies only on the two being distinct.
   */
  const TotalStatHash: int := -1000
  const CustomTotalStatHash: int := -1100

  /** The fields of a `DimStat` that `getPossiblyIncorrectStats` reads. */
  datatype Stat = Stat(statHash: int, baseMayBeWrong: bool, name: string)

  /** The test inside the loop of `getPossiblyIncorrectStats`. */
  predicate Qualifies(stat: Stat) {
    stat.statHash != TotalStatHash && stat.statHash != CustomTotalStatHash &&
    stat.baseMayBeWrong && stat.name != ""
  }

  /** Names of the qualifying stats, in stat order, repetitions kept. */
  function QualifyingNames(stats: seq<Stat>): seq<string>
    decreases |stats|
  {
    if |stats| == 0 then []
    else
      var last := stats[|stats| - 1];
      QualifyingNames(stats[..|stats| - 1]) + (if Qualifies(last) then [last.name] else [])
  }

  lemma {:induction false} QualifyingNamesMembers(stats: seq<Stat>)
    ensures forall n :: n in QualifyingNames(stats) <==>
              exists i :: 0 <= i < |stats| && Qualifies(stats[i]) && stats[i].name == n
    decreases |stats|
  {
    if |stats| > 0 {
      var init := stats[..|stats| - 1];
      QualifyingNamesMembers(init);
      forall n ensures n in QualifyingNames(stats) <==>
                exists i :: 0 <= i < |stats| && Qualifies(stats[i]) && stats[i].name == n
      {
        if n in QualifyingNames(init) {
          var i :| 0 <= i < |init| && Qualifies(init[i]) && init[i].name == n;
          assert stats[i] == init[i];
        }
        if exists i :: 0 <= i < |stats| && Qualifies(stats[i]) && stats[i].name == n {
          var i :| 0 <= i < |stats| && Qualifies(stats[i]) && stats[i].name == n;
          if i < |init| {
            assert init[i] == stats[i];
          }
        }
      }
    }
  }

  /**
   * `getPossiblyIncorrectStats`: the names of the stats (other than the totals) whose
   * base value may be wrong, each once, in the order a JavaScript `Set` keeps them.
   */
  method GetPossiblyIncorrectStats(stats: Option<seq<Stat>>) returns (names: seq<string>)
    ensures names == Dedup(QualifyingNames(stats.GetOr([])))
  {
    var incorrect: seq<string> := [];
    if stats.Some? {
      var s := stats.value;
      for i := 0 to |s|
        invariant incorrect == Dedup(QualifyingNames(s[..i]))
      {
        var stat := s[i];
        assert s[..i + 1][..i] == s[..i];
        var before := QualifyingNames(s[..i]);
        if stat.statHash != TotalStatHash && stat.statHash != CustomTotalStatHash &&
           stat.baseMayBeWrong && stat.name != "" {
          assert (before + [stat.name])[..|before|] == before;
          if stat.name !in incorrect {
            incorrect := incorrect + [stat.name];
          }
        } else {
          assert QualifyingNames(s[..i + 1]) == before + [];
          assert before + [] == before;
        }
      }
      assert s[..|s|] == s;
    }
    names := incorrect;
  }

  /**
   * What `getPossiblyIncorrectStats` promises: no name twice, exactly the names of
   * qualifying stats (so never a total stat's), in the order they first occur.
   */
  lemma PossiblyIncorrectStatsFacts(stats: seq<Stat>)
    ensures var r := Dedup(QualifyingNames(stats));
      && Distinct(r)
      && (forall n :: n in r <==> exists i :: 0 <= i < |stats| && Qualifies(stats[i]) && stats[i].name == n)
      && (forall n :: n in r ==> n != "")
      && (forall i, j :: 0 <= i < j < |r| ==>
            r[i] in QualifyingNames(stats) && r[j] in QualifyingNames(stats) &&
            FirstIndex(QualifyingNames(stats), r[i]) < FirstIndex(QualifyingNames(stats), r[j]))
  {
    var q := QualifyingNames(stats);
    DedupDistinct(q);
    DedupMembers(q);
    QualifyingNamesMembers(stats);
    DedupFirstOccurrenceOrder(q);
  }

  // ---------------------------------------------------------------------------
  // Masterwork names
  // ---------------------------------------------------------------------------

  datatype MasterworkStat = MasterworkStat(name: Option<string>)
  datatype Masterwork = Masterwork(stats: Option<seq<MasterworkStat>>)

  /** Each stat's name, `''` standing for a missing one (both are falsy). */
  function NameStrings(stats: seq<MasterworkStat>): (r: seq<string>)
    ensures |r| == |stats| && forall i :: 0 <= i < |r| ==> r[i] == stats[i].name.GetOr("")
  {
    seq(|stats|, i requires 0 <= i < |stats| => stats[i].name.GetOr(""))
  }

  /**
   * `.map((stat) => stat.name).filter(Boolean)`: the names that are present and
   * non-empty, in stat order, repetitions kept.
   */
  function PresentNames(stats: seq<MasterworkStat>): (r: seq<string>)
    ensures |r| <= |stats|
    ensures forall n :: n in r ==> n != ""
    ensures forall n :: n in r <==> n != "" && MasterworkStat(Some(n)) in stats
    ensures r == Filter(NameStrings(stats), (n: string) => n != "")
    ensures IsSubsequence(r, NameStrings(stats))
    decreases |stats|
  {
    if |stats| == 0 then []
    else
      var rest := PresentNames(stats[1..]);
      assert forall s :: s in stats <==> s == stats[0] || s in stats[1..];
      assert NameStrings(stats)[1..] == NameStrings(stats[1..]);
      FilterIsSubsequence(NameStrings(stats), (n: string) => n != "");
      match stats[0].name
      case Some(n) => if n != "" then [n] + rest else rest
      case None => rest
  }

  /** `Array.prototype.join`. */
  function Join(xs: seq<string>, sep: string): string
    decreases |xs|
  {
    if |xs| == 0 then ""
    else if |xs| == 1 then xs[0]
    else xs[0] + sep + Join(xs[1..], sep)
  }

  /** Joining one more part appends the separator and that part. */
  lemma {:induction false} JoinSnoc(xs: seq<string>, x: string, sep: string)
    requires |xs| > 0
    ensures Join(xs + [x], sep) == Join(xs, sep) + sep + x
    decreases |xs|
  {
    if |xs| == 1 {
      assert (xs + [x])[1..] == [x];
    } else {
      assert (xs + [x])[1..] == xs[1..] + [x];
      JoinSnoc(xs[1..], x, sep);
    }
  }

  /** The joined string holds every part and a separator between each two. */
  lemma {:induction false} JoinLength(xs: seq<string>, sep: string)
    ensures |xs| > 0 ==> |Join(xs, sep)| == SumLengths(xs) + |sep| * (|xs| - 1)
    decreases |xs|
  {
    if |xs| > 1 {
      JoinLength(xs[1..], sep);
      assert |sep| * (|xs| - 1) == |sep| * (|xs| - 2) + |sep|;
    }
  }

  function SumLengths(xs: seq<string>): nat
    decreases |xs|
  {
    if |xs| == 0 then 0 else |xs[0]| + SumLengths(xs[1..])
  }

  lemma {:induction false} JoinEmpty(xs: seq<string>, sep: string)
    requires forall x :: x in xs ==> x != ""
    ensures Join(xs, sep) == "" <==> xs == []
  {
    if |xs| > 0 {
      assert xs[0] in xs;
      JoinLength(xs, sep);
      assert SumLengths(xs) >= |xs[0]| > 0;
    }
  }

  /** No present name exactly when every stat's name is missing or empty. */
  lemma PresentNamesEmpty(stats: seq<MasterworkStat>)
    ensures PresentNames(stats) == [] <==> forall s :: s in stats ==> s.name.GetOr("") == ""
  {
    var names := PresentNames(stats);
    if names == [] {
      forall s | s in stats ensures s.name.GetOr("") == "" {
        if s.name.Some? {
          assert s == MasterworkStat(Some(s.name.value));
        }
      }
    } else {
      var n := names[0];
      assert n in names;
      assert MasterworkStat(Some(n)) in stats;
    }
  }

  /**
   * `getMasterworkStatNames`: `''` without a masterwork, without stats, or when no stat
   * has a non-empty name; otherwise the present names, the first one leading, with `", "`
   * between each two, and a single name as it is.
   */
  function GetMasterworkStatNames(mw: Option<Masterwork>): (r: string)
    ensures r == "" <==>
              mw.None? || mw.value.stats.None? || forall s :: s in mw.value.stats.value ==> s.name.GetOr("") == ""
    ensures mw.Some? && mw.value.stats.Some? && |PresentNames(mw.value.stats.value)| == 1 ==>
              r == PresentNames(mw.value.stats.value)[0]
    ensures mw.Some? && mw.value.stats.Some? && |PresentNames(mw.value.stats.value)| >= 1 ==>
              PresentNames(mw.value.stats.value)[0] <= r &&
              |r| == SumLengths(PresentNames(mw.value.stats.value)) + 2 * (|PresentNames(mw.value.stats.value)| - 1)
    ensures mw.Some? && mw.value.stats.Some? ==> r == Join(PresentNames(mw.value.stats.value), ", ")
  {
    match mw
    case None => ""
    case Some(m) =>
      match m.stats
      case None => ""
      case Some(stats) =>
        var names := PresentNames(stats);
        PresentNamesEmpty(stats);
        JoinEmpty(names, ", ");
        JoinLength(names, ", ");
        Join(names, ", ")
  }

  // ---------------------------------------------------------------------------
  // Armor 2.0 mods
  // ---------------------------------------------------------------------------

  datatype Plug = Plug(plugCategoryHash: int)
  /** A mod definition (`DestinyInventoryItemDefinition`); only its `plug` matters. */
  datatype ModDefinition = ModDefinition(plug: Option<Plug>)
  /** An entry of the specialty mod-slot metadata table. */
  datatype ModSocketMetadata = ModSocketMetadata(compatiblePlugCategoryHashes: seq<int>)

  /** `specialtyModPlugCategoryHashes`: the metadata's compatible categories, flattened in table order. */
  function SpecialtyModPlugCategoryHashes(metadata: seq<ModSocketMetadata>): (r: seq<int>)
    decreases |metadata|
  {
    if |metadata| == 0 then []
    else metadata[0].compatiblePlugCategoryHashes + SpecialtyModPlugCategoryHashes(metadata[1..])
  }

  lemma {:induction false} SpecialtyHashesMembers(metadata: seq<ModSocketMetadata>, h: int)
    ensures h in SpecialtyModPlugCategoryHashes(metadata) <==>
              exists k :: 0 <= k < |metadata| && h in metadata[k].compatiblePlugCategoryHashes
    decreases |metadata|
  {
    if |metadata| > 0 {
      SpecialtyHashesMembers(metadata[1..], h);
      if exists k :: 0 <= k < |metadata| && h in metadata[k].compatiblePlugCategoryHashes {
        var k :| 0 <= k < |metadata| && h in metadata[k].compatiblePlugCategoryHashes;
        if k > 0 {
          assert metadata[1..][k - 1] == metadata[k];
        }
      }
      if h in SpecialtyModPlugCategoryHashes(metadata[1..]) {
        var k :| 0 <= k < |metadata[1..]| && h in metadata[1..][k].compatiblePlugCategoryHashes;
        assert metadata[k + 1] == metadata[1..][k];
      }
    }
  }

  /**
   * `isArmor2Mod`: the definition has a plug whose category is an armor 2.0 category
   * (`armor2Hashes`) or a category some specialty mod slot accepts.
   */
  function IsArmor2Mod(item: ModDefinition, armor2Hashes: seq<int>, metadata: seq<ModSocketMetadata>): (r: bool)
    ensures r ==> item.plug.Some?
    ensures item.plug.Some? ==>
              (r <==> item.plug.value.plugCategoryHash in armor2Hashes ||
                      exists k :: 0 <= k < |metadata| &&
                        item.plug.value.plugCategoryHash in metadata[k].compatiblePlugCategoryHashes)
  {
    SpecialtyHashesMembers(metadata, if item.plug.Some? then item.plug.value.plugCategoryHash else 0);
    item.plug.Some? &&
    (item.plug.value.plugCategoryHash in armor2Hashes ||
     item.plug.value.plugCategoryHash in SpecialtyModPlugCategoryHashes(metadata))
  }

  // ---------------------------------------------------------------------------
  // Damage names
  // ---------------------------------------------------------------------------

  /** The fields `getItemDamageShortName` reads: the element's enum value, if any, and the energy. */
  datatype DamageItem = DamageItem(isDestiny2: bool, hasEnergy: bool, element: Option<int>)

  /**
   * `getItemDamageShortName`: Destiny 2 items with an energy use the energy names,
   * every other item the damage names; a missing element looks up `-1`.
   */
  function GetItemDamageShortName(item: DamageItem, energyNames: map<int, string>,
                                  damageNames: map<int, string>): (r: Option<string>)
    ensures item.isDestiny2 && item.hasEnergy ==> r == Get(energyNames, item.element.GetOr(-1))
    ensures !(item.isDestiny2 && item.hasEnergy) ==> r == Get(damageNames, item.element.GetOr(-1))
    ensures r.Some? ==> r.value in energyNames.Values || r.value in damageNames.Values
  {
    var key := item.element.GetOr(-1);
    if item.isDestiny2 && item.hasEnergy then Get(energyNames, key) else Get(damageNames, key)
  }

  // ---------------------------------------------------------------------------
  // Kill trackers
  // ---------------------------------------------------------------------------

  datatype TrackerKind = Pve | Pvp
  datatype Objective = Objective(objectiveHash: int, progress: Option<int>)
  /** The plugged item of a socket: its objectives and its definition (an opaque id here). */
  datatype Plugged = Plugged(plugObjectives: seq<Objective>, plugDef: int)
  datatype Socket = Socket(plugged: Option<Plugged>)
  /** The fields of a `D2Item` the kill-tracker look-up reads. */
  datatype WeaponItem = WeaponItem(inWeapons: bool, sockets: Option<seq<Socket>>)
  datatype KillTracker = KillTracker(kind: TrackerKind, count: int, trackerDef: int)

  /**
   * How `getSocketKillTrackerInfo` ends: no tracker (`undefined`), a tracker, or a
   * `TypeError` from reading `plugObjectives[0].objectiveHash` of a plug without objectives.
   */
  datatype TrackerResult = NoTracker | Found(tracker: KillTracker) | Crashed

  /** `socket.plugged?.plugObjectives[0]?.objectiveHash ?? 0`. */
  function TrackerKey(socket: Socket): int {
    match socket.plugged
    case None => 0
    case Some(p) => if |p.plugObjectives| == 0 then 0 else p.plugObjectives[0].objectiveHash
  }

  /** `Array.prototype.find`: the first socket whose key names a kill-tracker objective. */
  function FindTrackerSocket(sockets: seq<Socket>, trackers: map<int, TrackerKind>): (r: Option<Socket>)
    ensures r.None? <==> forall s :: s in sockets ==> TrackerKey(s) !in trackers
    ensures r.Some? ==>
              exists i :: (0 <= i < |sockets| && sockets[i] == r.value &&
                           TrackerKey(sockets[i]) in trackers &&
                           forall j :: 0 <= j < i ==> TrackerKey(sockets[j]) !in trackers)
    decreases |sockets|
  {
    if |sockets| == 0 then None
    else if TrackerKey(sockets[0]) in trackers then Some(sockets[0])
    else
      var r := FindTrackerSocket(sockets[1..], trackers);
      assert forall s :: s in sockets <==> s == sockets[0] || s in sockets[1..];
      if r.Some? then
        assert exists i :: 1 <= i < |sockets| && sockets[i] == r.value &&
                 TrackerKey(sockets[i]) in trackers &&
                 forall j :: 0 <= j < i ==> TrackerKey(sockets[j]) !in trackers by {
          var i :| 0 <= i < |sockets[1..]| && sockets[1..][i] == r.value &&
                   TrackerKey(sockets[1..][i]) in trackers &&
                   forall j :: 0 <= j < i ==> TrackerKey(sockets[1..][j]) !in trackers;
          assert sockets[i + 1] == sockets[1..][i];
          forall j | 0 <= j < i + 1 ensures TrackerKey(sockets[j]) !in trackers {
            if j > 0 {
              assert sockets[j] == sockets[1..][j - 1];
            }
          }
        }
        r
      else r
  }

  /** `getKillTrackerSocket`: only weapons are searched, and the first tracker socket is taken. */
  function GetKillTrackerSocket(item: WeaponItem, trackers: map<int, TrackerKind>): (r: Option<Socket>)
    ensures r.Some? ==>
              (item.inWeapons && item.sockets.Some? && r.value in item.sockets.value &&
               TrackerKey(r.value) in trackers)
    ensures !item.inWeapons || item.sockets.None? ==> r.None?
    ensures item.inWeapons && item.sockets.Some? ==>
              (r.None? <==> forall s :: s in item.sockets.value ==> TrackerKey(s) !in trackers)
    ensures item.inWeapons && item.sockets.Some? && r.Some? ==>
              exists i :: (0 <= i < |item.sockets.value| && item.sockets.value[i] == r.value &&
                           forall j :: 0 <= j < i ==> TrackerKey(item.sockets.value[j]) !in trackers)
  {
    if item.inWeapons && item.sockets.Some? then FindTrackerSocket(item.sockets.value, trackers) else None
  }

  /** `getSocketKillTrackerInfo`. */
  function GetSocketKillTrackerInfo(socket: Option<Socket>, trackers: map<int, TrackerKind>): (r: TrackerResult)
    ensures r.Crashed? <==> socket.Some? && socket.value.plugged.Some? &&
                            socket.value.plugged.value.plugObjectives == []
    ensures r.Found? <==> socket.Some? && socket.value.plugged.Some? &&
                          |socket.value.plugged.value.plugObjectives| > 0 &&
                          socket.value.plugged.value.plugObjectives[0].objectiveHash in trackers &&
                          socket.value.plugged.value.plugObjectives[0].progress.Some?
    ensures r.Found? ==> var p := socket.value.plugged.value; var o := p.plugObjectives[0];
              r.tracker == KillTracker(trackers[o.objectiveHash], o.progress.value, p.plugDef)
  {
    if socket.Some? && socket.value.plugged.Some? then
      var installed := socket.value.plugged.value;
      if |installed.plugObjectives| == 0 then Crashed
      else
        var objective := installed.plugObjectives[0];
        var kind := Get(trackers, objective.objectiveHash);
        var count := objective.progress;
        if kind.Some? && count.Some? then Found(KillTracker(kind.value, count.value, installed.plugDef))
        else NoTracker
    else NoTracker
  }

  /** `getItemKillTrackerInfo`. */
  function GetItemKillTrackerInfo(item: WeaponItem, trackers: map<int, TrackerKind>): (r: TrackerResult)
    ensures r.Found? ==>
              (item.inWeapons && item.sockets.Some? &&
               exists s :: (s in item.sockets.value && s.plugged.Some? &&
                 |s.plugged.value.plugObjectives| > 0 &&
                 s.plugged.value.plugObjectives[0].objectiveHash in trackers &&
                 r.tracker.kind == trackers[s.plugged.value.plugObjectives[0].objectiveHash] &&
                 s.plugged.value.plugObjectives[0].progress == Some(r.tracker.count)))
  {
    GetSocketKillTrackerInfo(GetKillTrackerSocket(item, trackers), trackers)
  }

  /**
   * The search only stops at a socket without objectives when objective hash 0 names a
   * kill tracker, so as long as it does not, the look-up never reads past the objectives;
   * when it does, a weapon whose only socket is such a plug makes the look-up throw.
   */
  lemma KillTrackerLookupSafe(item: WeaponItem, trackers: map<int, TrackerKind>)
    ensures 0 !in trackers ==> !GetItemKillTrackerInfo(item, trackers).Crashed?
    ensures 0 in trackers && item.inWeapons && item.sockets == Some([Socket(Some(Plugged([], 7)))]) ==>
              GetItemKillTrackerInfo(item, trackers).Crashed?
  {
    var s := GetKillTrackerSocket(item, trackers);
    if 0 !in trackers && s.Some? && s.value.plugged.Some? {
      assert TrackerKey(s.value) in trackers;
    }
    if 0 in trackers && item.inWeapons && item.sockets == Some([Socket(Some(Plugged([], 7)))]) {
      assert TrackerKey(Socket(Some(Plugged([], 7)))) == 0;
    }
  }
}
