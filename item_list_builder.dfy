/**
 * The list of Destiny 1 weapons to ask the rating service about: every
 * reviewable item of the stores and vendors, translated into a request, less
 * those whose cached rating is still fresh. `translateToDtrWeapon` and
 * `getItemStoreKey` are not part of this model and are passed in as functions;
 * `now` and the expiration period are parameters.
 */
module ItemListBuilder {
  import opened Wrappers
  import opened SeqUtil

  /** The fields of a `D1Item` read here; `hash` and `roll` feed the translation. */
  datatype D1Item = D1Item(hash: int, roll: string, reviewable: bool)
  datatype VendorItem = VendorItem(item: D1Item)

  /**
   * A `D1Store` or a `Vendor`; the two are told apart by the presence of
   * `allItems`, which only vendors carry.
   */
  datatype StoreOrVendor = StoreOrVendor(items: seq<D1Item>, allItems: Option<seq<VendorItem>>)

  /** `D1ItemFetchRequest`. */
  datatype FetchRequest = FetchRequest(referenceId: int, roll: string)

  datatype Rating = Rating(lastUpdated: int)

  /** `isVendor`: whether `allItems` is there (any array, even an empty one, is truthy). */
  predicate IsVendor(store: StoreOrVendor) {
    store.allItems.Some?
  }

  /** The items one store contributes: a vendor's `allItems[].item`, a character's `items`. */
  function ItemsOf(store: StoreOrVendor): (r: seq<D1Item>)
    ensures IsVendor(store) ==>
              |r| == |store.allItems.value| &&
              forall i :: 0 <= i < |r| ==> r[i] == store.allItems.value[i].item
    ensures !IsVendor(store) ==> r == store.items
  {
    if IsVendor(store) then VendorItems(store.allItems.value) else store.items
  }

  function VendorItems(allItems: seq<VendorItem>): (r: seq<D1Item>)
    ensures |r| == |allItems| && forall i :: 0 <= i < |r| ==> r[i] == allItems[i].item
  {
    seq(|allItems|, i requires 0 <= i < |allItems| => allItems[i].item)
  }

  /**
   * `getAllItems`: the stores' items, one store after the other; an item is listed
   * exactly when some store or vendor holds it.
   */
  function GetAllItems(stores: seq<StoreOrVendor>): (r: seq<D1Item>)
    ensures forall x :: x in r <==> exists k :: 0 <= k < |stores| && x in ItemsOf(stores[k])
    decreases |stores|
  {
    if |stores| == 0 then []
    else
      var rest := GetAllItems(stores[1..]);
      assert forall k :: 0 <= k < |stores| - 1 ==> stores[1..][k] == stores[k + 1];
      assert forall x :: x in rest ==> exists k :: 0 <= k < |stores| && x in ItemsOf(stores[k]) by {
        forall x | x in rest ensures exists k :: 0 <= k < |stores| && x in ItemsOf(stores[k]) {
          var k :| 0 <= k < |stores[1..]| && x in ItemsOf(stores[1..][k]);
          assert x in ItemsOf(stores[k + 1]);
        }
      }
      assert forall k, x :: 0 < k < |stores| && x in ItemsOf(stores[k]) ==> x in rest by {
        forall k, x | 0 < k < |stores| && x in ItemsOf(stores[k]) ensures x in rest {
          assert stores[1..][k - 1] == stores[k];
        }
      }
      ItemsOf(stores[0]) + rest
  }

  /** Flattening distributes over appending store lists. */
  lemma {:induction false} GetAllItemsAppend(a: seq<StoreOrVendor>, b: seq<StoreOrVendor>)
    ensures GetAllItems(a + b) == GetAllItems(a) + GetAllItems(b)
    decreases |a|
  {
    if |a| == 0 {
      assert a + b == b;
    } else {
      assert (a + b)[1..] == a[1..] + b;
      GetAllItemsAppend(a[1..], b);
    }
  }

  /** `items.map(translate)`. */
  function Translate(items: seq<D1Item>, translate: D1Item -> FetchRequest): (r: seq<FetchRequest>)
    ensures |r| == |items| && forall i :: 0 <= i < |r| ==> r[i] == translate(items[i])
  {
    seq(|items|, i requires 0 <= i < |items| => translate(items[i]))
  }

  /** The filter of `getNewItems`: no rating for the request's key, or one older than the cutoff. */
  predicate NeedsRating(request: FetchRequest, ratings: map<string, Rating>, key: FetchRequest -> string,
                        now: int, expiration: int) {
    key(request) !in ratings || ratings[key(request)].lastUpdated < now - expiration
  }

  /** `getNewItems`: the translated items whose rating is missing or stale, in order. */
  function GetNewItems(allItems: seq<D1Item>, ratings: map<string, Rating>, translate: D1Item -> FetchRequest,
                       key: FetchRequest -> string, now: int, expiration: int): (r: seq<FetchRequest>)
    ensures |r| <= |allItems|
    ensures forall q :: q in r <==> q in Translate(allItems, translate) && NeedsRating(q, ratings, key, now, expiration)
    ensures IsSubsequence(r, Translate(allItems, translate))
    ensures forall q :: multiset(r)[q] ==
              if NeedsRating(q, ratings, key, now, expiration) then multiset(Translate(allItems, translate))[q] else 0
  {
    var allDtrItems := Translate(allItems, translate);
    FilterCounts(allDtrItems, q => NeedsRating(q, ratings, key, now, expiration));
    FilterIsSubsequence(allDtrItems, q => NeedsRating(q, ratings, key, now, expiration));
    Filter(allDtrItems, q => NeedsRating(q, ratings, key, now, expiration))
  }

  /** Every item needs a rating when there are none, so the filter then keeps everything. */
  lemma {:induction false} NoRatingsKeepsAll(requests: seq<FetchRequest>, key: FetchRequest -> string,
                                             now: int, expiration: int)
    ensures Filter(requests, q => NeedsRating(q, map[], key, now, expiration)) == requests
    decreases |requests|
  {
    if requests != [] {
      NoRatingsKeepsAll(requests[1..], key, now, expiration);
      assert [requests[0]] + requests[1..] == requests;
    }
  }

  /** The reviewable items of the stores and vendors, in order. */
  function Reviewable(stores: seq<StoreOrVendor>): seq<D1Item> {
    Filter(GetAllItems(stores), (i: D1Item) => i.reviewable)
  }

  /**
   * `getDtrWeapons`: every request translates a reviewable item some store or vendor
   * holds. With cached ratings, the requests are exactly the translated reviewable
   * items that need a rating, in order; without any, every reviewable item is
   * translated, in order.
   */
  function GetDtrWeapons(stores: seq<StoreOrVendor>, ratings: map<string, Rating>, translate: D1Item -> FetchRequest,
                         key: FetchRequest -> string, now: int, expiration: int): (r: seq<FetchRequest>)
    ensures forall q :: q in r ==> exists x :: x in GetAllItems(stores) && x.reviewable && q == translate(x)
    ensures |ratings| > 0 ==>
              (forall q :: q in r <==>
                 q in Translate(Reviewable(stores), translate) && NeedsRating(q, ratings, key, now, expiration)) &&
              IsSubsequence(r, Translate(Reviewable(stores), translate)) &&
              (forall q :: multiset(r)[q] ==
                 if NeedsRating(q, ratings, key, now, expiration) then multiset(Translate(Reviewable(stores), translate))[q]
                 else 0)
    ensures |ratings| == 0 ==>
              |r| == |Reviewable(stores)| &&
              forall i :: 0 <= i < |r| ==> r[i] == translate(Reviewable(stores)[i])
  {
    var allItems := GetAllItems(stores);
    var allWeapons := Filter(allItems, (i: D1Item) => i.reviewable);
    var newGuns := GetNewItems(allWeapons, ratings, translate, key, now, expiration);
    var t := Translate(allWeapons, translate);
    assert forall q :: q in t ==> exists x :: x in allItems && x.reviewable && q == translate(x) by {
      forall q | q in t ensures exists x :: x in allItems && x.reviewable && q == translate(x) {
        var i :| 0 <= i < |t| && t[i] == q;
        assert allWeapons[i] in allWeapons;
      }
    }
    if |ratings| > 0 then newGuns else t
  }

  /** Without ratings every item needs one, so the lighter branch returns what the filter would. */
  lemma DtrWeaponsBranchesAgree(stores: seq<StoreOrVendor>, translate: D1Item -> FetchRequest,
                                key: FetchRequest -> string, now: int, expiration: int)
    ensures GetDtrWeapons(stores, map[], translate, key, now, expiration) ==
            GetNewItems(Reviewable(stores), map[], translate, key, now, expiration)
  {
    var t := Translate(Reviewable(stores), translate);
    var none: map<string, Rating> := map[];
    NoRatingsKeepsAll(t, key, now, expiration);
    assert |none| == 0;
  }

  /**
   * `getWeaponList` with the de-duplication its `Set` is there for: the requests of
   * `getDtrWeapons`, each once, in the order of their first occurrence.
   */
  function GetWeaponList(stores: seq<StoreOrVendor>, ratings: map<string, Rating>, translate: D1Item -> FetchRequest,
                         key: FetchRequest -> string, now: int, expiration: int): (r: seq<FetchRequest>)
    ensures var w := GetDtrWeapons(stores, ratings, translate, key, now, expiration);
      && Distinct(r)
      && (forall q :: q in r <==> q in w)
      && |r| <= |w|
      && (forall i, j :: 0 <= i < j < |r| ==> r[i] in w && r[j] in w && FirstIndex(w, r[i]) < FirstIndex(w, r[j]))
  {
    var w := GetDtrWeapons(stores, ratings, translate, key, now, expiration);
    DedupDistinct(w);
    DedupMembers(w);
    DedupFirstOccurrenceOrder(w);
    DedupNotLonger(w);
    Dedup(w)
  }

  /**
   * `getWeaponList` as written: a JavaScript `Set` compares objects by reference, and each
   * request is a new object made by the translation, so the set drops nothing.
   */
  function GetWeaponListAsWritten(stores: seq<StoreOrVendor>, ratings: map<string, Rating>,
                                  translate: D1Item -> FetchRequest, key: FetchRequest -> string,
                                  now: int, expiration: int): (r: seq<FetchRequest>)
    ensures r == GetDtrWeapons(stores, ratings, translate, key, now, expiration)
    ensures forall q :: q in r ==> exists x :: x in GetAllItems(stores) && x.reviewable && q == translate(x)
    ensures |ratings| == 0 ==>
              |r| == |Reviewable(stores)| &&
              forall i :: 0 <= i < |r| ==> r[i] == translate(Reviewable(stores)[i])
  {
    GetDtrWeapons(stores, ratings, translate, key, now, expiration)
  }

  /**
   * A character holding two copies of one reviewable weapon: the list as written asks
   * about it twice, the de-duplicated list once.
   */
  lemma WeaponListAsWrittenRepeats(weapon: D1Item, translate: D1Item -> FetchRequest,
                                   key: FetchRequest -> string, now: int, expiration: int)
    requires weapon.reviewable
    ensures GetWeaponListAsWritten([StoreOrVendor([weapon, weapon], None)], map[], translate, key, now, expiration) ==
            [translate(weapon), translate(weapon)]
    ensures GetWeaponList([StoreOrVendor([weapon, weapon], None)], map[], translate, key, now, expiration) ==
            [translate(weapon)]
  {
    var stores := [StoreOrVendor([weapon, weapon], None)];
    assert stores[1..] == [];
    assert GetAllItems(stores) == [weapon, weapon];
    var p := (i: D1Item) => i.reviewable;
    assert [weapon, weapon][1..] == [weapon];
    assert [weapon][1..] == [];
    assert Filter([weapon], p) == [weapon];
    assert Reviewable(stores) == [weapon, weapon];
    var none: map<string, Rating> := map[];
    assert |none| == 0;
    var w := GetDtrWeapons(stores, none, translate, key, now, expiration);
    assert w == [translate(weapon), translate(weapon)];
    assert w[..1] == [translate(weapon)];
    assert w[..1][..0] == [];
    assert Dedup(w[..1]) == [translate(weapon)];
    assert Dedup(w) == [translate(weapon)];
  }

  lemma {:induction false} DedupNotLonger(s: seq<FetchRequest>)
    ensures |Dedup(s)| <= |s|
    decreases |s|
  {
    if |s| > 0 {
      DedupNotLonger(s[..|s| - 1]);
    }
  }
}
