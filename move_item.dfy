/**
 * Item transfers between stores (characters and the vault) for one stackable
 * item: the guards of a single user-initiated move, consolidating every stack
 * into one store, and distributing a stack evenly over the characters.
 *
 * The state is how many copies of the item each store holds. The remote item
 * service (`dimItemService.moveTo`) is modelled by `Inventory.MoveTo`, an
 * abstract transfer of an amount from one store to another that fails when
 * the source store does not hold that amount.
 */
module MoveItem {
  import opened SeqUtil
  import opened Wrappers

  type StoreId = string

  /** The id the store list gives the vault; every other store is a character. */
  const VaultId: StoreId := "vault"

  predicate IsVault(s: StoreId) { s == VaultId }
  predicate IsCharacter(s: StoreId) { s != VaultId }

  /** Copies of the item held by each store. */
  type Counts = map<StoreId, nat>

  /** A planned transfer: `amount` copies from `source` to `target`. */
  datatype Move = Move(source: StoreId, target: StoreId, amount: nat)

  /** Whether the item service can carry out `m`: both stores exist and the source holds enough. */
  predicate CanApply(c: Counts, m: Move) {
    m.source in c && m.target in c && c[m.source] >= m.amount
  }

  /** The per-store counts after the item service carried out `m`. */
  function Transfer(c: Counts, m: Move): (r: Counts)
    requires CanApply(c, m)
    ensures r.Keys == c.Keys
    ensures m.source != m.target ==>
              r[m.source] == c[m.source] - m.amount && r[m.target] == c[m.target] + m.amount
    ensures m.source == m.target ==> r[m.source] == c[m.source]
    ensures forall x :: x in c && x != m.source && x != m.target ==> r[x] == c[x]
  {
    var c1 := c[m.source := c[m.source] - m.amount];
    c1[m.target := c1[m.target] + m.amount]
  }

  /** The counts reached by a sequence of moves and whether every move succeeded. */
  datatype Outcome = Outcome(counts: Counts, ok: bool)

  /**
   * Moves applied one after the other; the first failing move aborts the rest. No store
   * appears or disappears, and a run that succeeds only moved between known stores.
   */
  function ApplyAll(c: Counts, moves: seq<Move>): (r: Outcome)
    ensures r.counts.Keys == c.Keys
    ensures r.ok ==> forall i :: 0 <= i < |moves| ==> moves[i].source in c && moves[i].target in c
    decreases |moves|
  {
    if moves == [] then Outcome(c, true)
    else
      var o := ApplyAll(c, moves[..|moves| - 1]);
      var m := moves[|moves| - 1];
      assert forall i :: 0 <= i < |moves| - 1 ==> moves[..|moves| - 1][i] == moves[i];
      if !o.ok then o
      else if !CanApply(o.counts, m) then Outcome(o.counts, false)
      else Outcome(Transfer(o.counts, m), true)
  }

  /** The outcome of one more move after `moves`. */
  lemma ApplySnoc(c: Counts, moves: seq<Move>, m: Move)
    ensures ApplyAll(c, moves + [m]) ==
            (var o := ApplyAll(c, moves);
             if !o.ok then o
             else if !CanApply(o.counts, m) then Outcome(o.counts, false)
             else Outcome(Transfer(o.counts, m), true))
  {
    assert (moves + [m])[..|moves + [m]| - 1] == moves;
  }

  /** Running `a + b` is running `a`, then `b` from where `a` left off, unless `a` failed. */
  lemma {:induction false} ApplyAllAppend(c: Counts, a: seq<Move>, b: seq<Move>)
    ensures ApplyAll(c, a + b) ==
            (var o := ApplyAll(c, a); if o.ok then ApplyAll(o.counts, b) else o)
    decreases |b|
  {
    if b == [] {
      assert a + b == a;
      assert ApplyAll(ApplyAll(c, a).counts, b) == Outcome(ApplyAll(c, a).counts, true);
    } else {
      var init := b[..|b| - 1];
      var m := b[|b| - 1];
      assert b == init + [m];
      assert a + b == (a + init) + [m];
      ApplyAllAppend(c, a, init);
      ApplySnoc(c, a + init, m);
      var o := ApplyAll(c, a);
      if o.ok {
        ApplySnoc(o.counts, init, m);
      }
    }
  }

  /** Total number of copies a sequence of moves carries. */
  function SumAmounts(moves: seq<Move>): int
    decreases |moves|
  {
    if |moves| == 0 then 0 else moves[0].amount + SumAmounts(moves[1..])
  }

  lemma {:induction false} SumAmountsAppend(a: seq<Move>, b: seq<Move>)
    ensures SumAmounts(a + b) == SumAmounts(a) + SumAmounts(b)
    decreases |a|
  {
    if a == [] {
      assert a + b == b;
    } else {
      assert (a + b)[1..] == a[1..] + b;
      SumAmountsAppend(a[1..], b);
    }
  }

  // ---------------------------------------------------------------------------
  // Ordering the stores: `_.sortBy(stores, s => s.id === 'vault' ? 2 : 1)`.
  // The sort is stable, so the characters keep their order and the vault goes last.
  // ---------------------------------------------------------------------------

  function Characters(stores: seq<StoreId>): seq<StoreId> {
    Filter(stores, IsCharacter)
  }

  lemma {:induction false} SplitLength(stores: seq<StoreId>)
    ensures |Filter(stores, IsCharacter)| + |Filter(stores, IsVault)| == |stores|
    decreases |stores|
  {
    if stores != [] {
      SplitLength(stores[1..]);
    }
  }

  function VaultLast(stores: seq<StoreId>): (r: seq<StoreId>)
    ensures |r| == |stores|
    ensures forall x :: x in r <==> x in stores
  {
    SplitLength(stores);
    Characters(stores) + Filter(stores, IsVault)
  }

  lemma {:induction false} DistinctTail(s: seq<StoreId>)
    requires s != [] && Distinct(s)
    ensures Distinct(s[1..]) && s[0] !in s[1..]
  {
    forall i, j | 0 <= i < j < |s[1..]| ensures s[1..][i] != s[1..][j] {
      assert s[1..][i] == s[i + 1] && s[1..][j] == s[j + 1];
    }
  }

  lemma {:induction false} FilterNone(s: seq<StoreId>, p: StoreId -> bool)
    requires forall x :: x in s ==> !p(x)
    ensures Filter(s, p) == []
    decreases |s|
  {
    if s != [] {
      assert s[0] in s;
      FilterNone(s[1..], p);
    }
  }

  lemma {:induction false} VaultOnlyOnce(stores: seq<StoreId>)
    requires Distinct(stores) && VaultId in stores
    ensures Filter(stores, IsVault) == [VaultId]
    decreases |stores|
  {
    DistinctTail(stores);
    if stores[0] == VaultId {
      FilterNone(stores[1..], IsVault);
    } else {
      VaultOnlyOnce(stores[1..]);
    }
  }

  /** With distinct store ids and one vault, sorting puts the characters first, in order, and the vault last. */
  lemma VaultLastShape(stores: seq<StoreId>)
    requires Distinct(stores) && VaultId in stores
    ensures var r := VaultLast(stores);
      && |r| == |stores| >= 1
      && Distinct(r)
      && r[|r| - 1] == VaultId
      && r[..|r| - 1] == Characters(stores)
      && VaultId !in Characters(stores)
      && (forall x :: x in r <==> x in stores)
  {
    var r := VaultLast(stores);
    var chars := Characters(stores);
    VaultOnlyOnce(stores);
    FilterDistinct(stores, IsCharacter);
    assert r == chars + [VaultId];
    assert r[..|r| - 1] == chars;
    forall x ensures x in r <==> x in stores {
    }
    forall i, j | 0 <= i < j < |r| ensures r[i] != r[j] {
      if j == |r| - 1 {
        assert r[i] == chars[i] && chars[i] in chars;
      } else {
        assert r[i] == chars[i] && r[j] == chars[j];
      }
    }
  }

  // ---------------------------------------------------------------------------
  // Distribution plan (over the sorted stores; the vault is the last one)
  // ---------------------------------------------------------------------------

  /** `amounts`: what each sorted store holds. */
  function AmountsOf(sorted: seq<StoreId>, c: Counts): (r: seq<int>)
    requires forall x :: x in sorted ==> x in c
    ensures |r| == |sorted|
    ensures forall k :: 0 <= k < |r| ==> r[k] == c[sorted[k]] >= 0
  {
    seq(|sorted|, k requires 0 <= k < |sorted| => c[sorted[k]])
  }

  /** `Math.ceil(total / n)` for a non-negative total. */
  function Ceil(total: nat, n: nat): (r: nat)
    requires n > 0
    ensures total <= n * r < total + n
  {
    var q := total / n;
    assert n * (q + 1) == n * q + n;
    if total % n == 0 then q else q + 1
  }

  /**
   * Target of the store at sorted position `i` when `total` copies are shared
   * by `n` characters: the first `total % n` characters get the ceiling of
   * `total / n`, the others its floor, the vault (position `n`) nothing.
   */
  function TargetAt(total: nat, n: nat, i: nat): nat
    requires n > 0
  {
    if i >= n then 0 else if i < total % n then Ceil(total, n) else total / n
  }

  function Targets(total: nat, storeCount: nat): (r: seq<int>)
    requires storeCount >= 2
    ensures |r| == storeCount
  {
    seq(storeCount, i requires 0 <= i < storeCount => TargetAt(total, storeCount - 1, i))
  }

  /** `deltas`: how many copies each sorted store must gain (positive) or give up (negative). */
  function Deltas(amounts: seq<int>, targets: seq<int>): (r: seq<int>)
    requires |amounts| == |targets|
    ensures |r| == |amounts|
    ensures forall k :: 0 <= k < |r| ==> amounts[k] + r[k] == targets[k]
  {
    seq(|amounts|, k requires 0 <= k < |amounts| => targets[k] - amounts[k])
  }

  /** The move to the vault planned for sorted store `j`, if any. */
  function VaultStep(sorted: seq<StoreId>, deltas: seq<int>, j: nat): (r: seq<Move>)
    requires |sorted| == |deltas| >= 1 && j < |deltas|
    ensures |r| <= 1
  {
    var vi := |sorted| - 1;
    if deltas[j] < 0 && j != vi then [Move(sorted[j], sorted[vi], -deltas[j])] else []
  }

  /**
   * The move from the vault planned for sorted store `j`, if any (the `else if`
   * branch: a positive delta never takes the vault branch, so it needs no other test).
   */
  function TargetStep(sorted: seq<StoreId>, deltas: seq<int>, j: nat): (r: seq<Move>)
    requires |sorted| == |deltas| >= 1 && j < |deltas|
    ensures |r| <= 1
  {
    var vi := |sorted| - 1;
    if deltas[j] > 0 then [Move(sorted[vi], sorted[j], deltas[j])] else []
  }

  /** The moves to the vault planned for the first `k` sorted stores. */
  function VaultMoves(sorted: seq<StoreId>, deltas: seq<int>, k: nat): seq<Move>
    requires |sorted| == |deltas| >= 1 && k <= |deltas|
    decreases k
  {
    if k == 0 then [] else VaultMoves(sorted, deltas, k - 1) + VaultStep(sorted, deltas, k - 1)
  }

  /** The moves from the vault planned for the first `k` sorted stores. */
  function TargetMoves(sorted: seq<StoreId>, deltas: seq<int>, k: nat): seq<Move>
    requires |sorted| == |deltas| >= 1 && k <= |deltas|
    decreases k
  {
    if k == 0 then [] else TargetMoves(sorted, deltas, k - 1) + TargetStep(sorted, deltas, k - 1)
  }

  /** Copies the vault moves of the first `k` sorted stores bring to the vault. */
  function Supply(sorted: seq<StoreId>, deltas: seq<int>, k: nat): int
    requires |sorted| == |deltas| >= 1 && k <= |deltas|
    decreases k
  {
    if k == 0 then 0
    else Supply(sorted, deltas, k - 1) + (if deltas[k - 1] < 0 && k - 1 != |sorted| - 1 then -deltas[k - 1] else 0)
  }

  /** Copies the target moves of the first `k` sorted stores take out of the vault. */
  function Demand(sorted: seq<StoreId>, deltas: seq<int>, k: nat): int
    requires |sorted| == |deltas| >= 1 && k <= |deltas|
    decreases k
  {
    if k == 0 then 0
    else Demand(sorted, deltas, k - 1) + (if deltas[k - 1] > 0 then deltas[k - 1] else 0)
  }

  /** `amounts` and `total`, read store by store. */
  method ReadAmounts(sorted: seq<StoreId>, c: Counts) returns (amounts: seq<int>, total: nat)
    requires forall x :: x in sorted ==> x in c
    ensures amounts == AmountsOf(sorted, c)
    ensures total == Sum(amounts)
  {
    amounts, total := [], 0;
    var i := 0;
    while i < |sorted|
      invariant 0 <= i <= |sorted|
      invariant amounts == AmountsOf(sorted, c)[..i]
      invariant total == Sum(amounts)
    {
      var amount := c[sorted[i]];
      assert (amounts + [amount])[..|amounts|] == amounts;
      total := total + amount;
      amounts := amounts + [amount];
      assert AmountsOf(sorted, c)[..i + 1] == AmountsOf(sorted, c)[..i] + [amount];
      i := i + 1;
    }
    assert AmountsOf(sorted, c)[..|sorted|] == AmountsOf(sorted, c);
  }

  /** `targets`: the running `remainder` hands the ceiling to the first characters. */
  method ComputeTargets(total: nat, storeCount: nat) returns (targets: seq<int>)
    requires storeCount >= 2
    ensures targets == Targets(total, storeCount)
  {
    var numTargets := storeCount - 1;
    var remainder: int := total % numTargets;
    targets := [];
    var index := 0;
    while index < storeCount
      invariant 0 <= index <= storeCount
      invariant targets == Targets(total, storeCount)[..index]
      invariant remainder == total % numTargets - (if index < numTargets then index else numTargets)
    {
      var result: int;
      if index >= numTargets {
        result := 0;
      } else {
        result := if remainder > 0 then Ceil(total, numTargets) else total / numTargets;
        remainder := remainder - 1;
      }
      assert Targets(total, storeCount)[..index + 1] == Targets(total, storeCount)[..index] + [result];
      targets := targets + [result];
      index := index + 1;
    }
    assert Targets(total, storeCount)[..storeCount] == Targets(total, storeCount);
  }

  /** One round of the `forEach` over `deltas`: which list, if either, grows. */
  lemma PlanStep(sorted: seq<StoreId>, deltas: seq<int>, index: nat)
    requires |sorted| == |deltas| >= 1 && index < |deltas|
    ensures var vi := |sorted| - 1; var d := deltas[index];
      var vm := VaultMoves(sorted, deltas, index); var tm := TargetMoves(sorted, deltas, index);
      && (d < 0 && index != vi ==>
            VaultMoves(sorted, deltas, index + 1) == vm + [Move(sorted[index], sorted[vi], -d)] &&
            TargetMoves(sorted, deltas, index + 1) == tm)
      && (d > 0 ==>
            VaultMoves(sorted, deltas, index + 1) == vm &&
            TargetMoves(sorted, deltas, index + 1) == tm + [Move(sorted[vi], sorted[index], d)])
      && (d == 0 || (d < 0 && index == vi) ==>
            VaultMoves(sorted, deltas, index + 1) == vm && TargetMoves(sorted, deltas, index + 1) == tm)
  {
    var vm := VaultMoves(sorted, deltas, index);
    var tm := TargetMoves(sorted, deltas, index);
    assert vm + [] == vm && tm + [] == tm;
  }

  /** The `forEach` over `deltas` that fills `vaultMoves` and `targetMoves`. */
  method PlanMoves(sorted: seq<StoreId>, deltas: seq<int>) returns (vaultMoves: seq<Move>, targetMoves: seq<Move>)
    requires |sorted| == |deltas| >= 1
    ensures vaultMoves == VaultMoves(sorted, deltas, |deltas|)
    ensures targetMoves == TargetMoves(sorted, deltas, |deltas|)
  {
    vaultMoves, targetMoves := [], [];
    var vaultIndex := |sorted| - 1;
    var vault := sorted[vaultIndex];
    var index := 0;
    while index < |deltas|
      invariant 0 <= index <= |deltas|
      invariant vaultMoves == VaultMoves(sorted, deltas, index)
      invariant targetMoves == TargetMoves(sorted, deltas, index)
    {
      var delta := deltas[index];
      PlanStep(sorted, deltas, index);
      if delta < 0 && index != vaultIndex {
        vaultMoves := vaultMoves + [Move(sorted[index], vault, -delta)];
      } else if delta > 0 {
        targetMoves := targetMoves + [Move(vault, sorted[index], delta)];
      }
      index := index + 1;
    }
  }

  // ---------------------------------------------------------------------------
  // What the plan promises
  // ---------------------------------------------------------------------------

  lemma {:induction false} TargetsPrefixSum(total: nat, storeCount: nat, k: nat)
    requires storeCount >= 2 && k <= storeCount - 1
    ensures Sum(Targets(total, storeCount)[..k]) ==
            k * (total / (storeCount - 1)) + (if k < total % (storeCount - 1) then k else total % (storeCount - 1))
    decreases k
  {
    var n := storeCount - 1;
    var t := Targets(total, storeCount);
    if k > 0 {
      TargetsPrefixSum(total, storeCount, k - 1);
      assert t[..k][..k - 1] == t[..k - 1];
      assert Sum(t[..k]) == Sum(t[..k - 1]) + t[k - 1];
      if k - 1 < total % n {
        assert total % n != 0;
        assert t[k - 1] == total / n + 1;
      } else {
        assert t[k - 1] == total / n;
      }
      assert k * (total / n) == (k - 1) * (total / n) + total / n;
    }
  }

  /**
   * The targets share out exactly `total`: the vault gets nothing, every character
   * the floor or the ceiling of `total / n`, the ceiling going to the first `total % n`.
   */
  lemma TargetsShareTotal(total: nat, storeCount: nat)
    requires storeCount >= 2
    ensures var t := Targets(total, storeCount); var n := storeCount - 1;
      && Sum(t) == total
      && t[n] == 0
      && (forall i :: 0 <= i < n ==> t[i] == (if i < total % n then Ceil(total, n) else total / n))
      && (forall i :: 0 <= i < n ==> total / n <= t[i] <= total / n + 1)
  {
    var n := storeCount - 1;
    var t := Targets(total, storeCount);
    TargetsPrefixSum(total, storeCount, n);
    assert total == n * (total / n) + total % n;
    assert t[..n + 1] == t;
    assert t[..n + 1][..n] == t[..n];
  }

  lemma {:induction false} SumDeltas(amounts: seq<int>, targets: seq<int>)
    requires |amounts| == |targets|
    ensures Sum(Deltas(amounts, targets)) == Sum(targets) - Sum(amounts)
    decreases |amounts|
  {
    if |amounts| > 0 {
      var m := |amounts| - 1;
      SumDeltas(amounts[..m], targets[..m]);
      assert Deltas(amounts, targets)[..m] == Deltas(amounts[..m], targets[..m]);
    }
  }

  /** Every planned move carries at least one copy, between the vault and a character. */
  lemma {:induction false} PlannedMovesShape(sorted: seq<StoreId>, deltas: seq<int>, k: nat)
    requires |sorted| == |deltas| >= 1 && k <= |deltas|
    ensures forall m :: m in VaultMoves(sorted, deltas, k) ==>
              m.amount > 0 && m.target == sorted[|sorted| - 1] &&
              exists j :: 0 <= j < k && j != |sorted| - 1 && m.source == sorted[j] && m.amount == -deltas[j]
    ensures forall m :: m in TargetMoves(sorted, deltas, k) ==>
              m.amount > 0 && m.source == sorted[|sorted| - 1] &&
              exists j :: 0 <= j < k && deltas[j] > 0 && m.target == sorted[j] && m.amount == deltas[j]
    decreases k
  {
    if k > 0 {
      PlannedMovesShape(sorted, deltas, k - 1);
    }
  }

  lemma SumAmountsOne(m: Move)
    ensures SumAmounts([m]) == m.amount
  {
    assert [m][1..] == [];
  }

  /** The planned vault moves carry, in total, the supply. */
  lemma {:induction false} VaultMovesCarrySupply(sorted: seq<StoreId>, deltas: seq<int>, k: nat)
    requires |sorted| == |deltas| >= 1 && k <= |deltas|
    ensures SumAmounts(VaultMoves(sorted, deltas, k)) == Supply(sorted, deltas, k)
    decreases k
  {
    if k > 0 {
      VaultMovesCarrySupply(sorted, deltas, k - 1);
      var step := VaultStep(sorted, deltas, k - 1);
      SumAmountsAppend(VaultMoves(sorted, deltas, k - 1), step);
      if step != [] {
        assert step == [step[0]];
        SumAmountsOne(step[0]);
      }
    }
  }

  /** The planned target moves carry, in total, the demand. */
  lemma {:induction false} TargetMovesCarryDemand(sorted: seq<StoreId>, deltas: seq<int>, k: nat)
    requires |sorted| == |deltas| >= 1 && k <= |deltas|
    ensures SumAmounts(TargetMoves(sorted, deltas, k)) == Demand(sorted, deltas, k)
    decreases k
  {
    if k > 0 {
      TargetMovesCarryDemand(sorted, deltas, k - 1);
      var step := TargetStep(sorted, deltas, k - 1);
      SumAmountsAppend(TargetMoves(sorted, deltas, k - 1), step);
      if step != [] {
        assert step == [step[0]];
        SumAmountsOne(step[0]);
      }
    }
  }

  /** The demand minus the supply adds up to the deltas (the vault's own delta counts as demand met). */
  lemma {:induction false} MovesBalance(sorted: seq<StoreId>, deltas: seq<int>, k: nat)
    requires |sorted| == |deltas| >= 1 && k <= |deltas|
    ensures Demand(sorted, deltas, k) - Supply(sorted, deltas, k) ==
            Sum(deltas[..k]) + VaultShortfall(sorted, deltas, k)
    decreases k
  {
    if k > 0 {
      var j := k - 1;
      MovesBalance(sorted, deltas, j);
      assert deltas[..k][..j] == deltas[..j];
      assert Sum(deltas[..k]) == Sum(deltas[..j]) + deltas[j];
    }
  }

  /** What the vault itself gives up, counted once its position is reached. */
  function VaultShortfall(sorted: seq<StoreId>, deltas: seq<int>, k: nat): int
    requires |sorted| == |deltas| >= 1 && k <= |deltas|
  {
    var vi := |sorted| - 1;
    if vi < k && deltas[vi] < 0 then -deltas[vi] else 0
  }

  lemma {:induction false} DemandGrows(sorted: seq<StoreId>, deltas: seq<int>, k: nat, n: nat)
    requires |sorted| == |deltas| >= 1 && k <= n <= |deltas|
    ensures Demand(sorted, deltas, k) <= Demand(sorted, deltas, n)
    decreases n
  {
    if k < n {
      DemandGrows(sorted, deltas, k, n - 1);
    }
  }

  /** After the first `k` vault moves: those stores gave up their surplus and the vault holds it. */
  ghost predicate AfterVaultMoves(c0: Counts, c: Counts, sorted: seq<StoreId>, deltas: seq<int>, k: nat)
    requires |sorted| == |deltas| >= 1 && k <= |deltas|
    requires forall x :: x in sorted ==> x in c0
  {
    var vi := |sorted| - 1;
    && c.Keys == c0.Keys
    && (forall j :: 0 <= j < vi ==>
          c[sorted[j]] == (if j < k && deltas[j] < 0 then c0[sorted[j]] + deltas[j] else c0[sorted[j]]))
    && c[sorted[vi]] == c0[sorted[vi]] + Supply(sorted, deltas, k)
  }

  /** One more vault move succeeds and keeps `AfterVaultMoves`. */
  lemma VaultStepOk(c0: Counts, c: Counts, sorted: seq<StoreId>, deltas: seq<int>, j: nat)
    requires |sorted| == |deltas| >= 1 && j < |deltas| && Distinct(sorted)
    requires forall x :: x in sorted ==> x in c0
    requires forall i :: 0 <= i < |sorted| ==> c0[sorted[i]] + deltas[i] >= 0
    requires AfterVaultMoves(c0, c, sorted, deltas, j)
    ensures var step := VaultStep(sorted, deltas, j);
      if step == [] then AfterVaultMoves(c0, c, sorted, deltas, j + 1)
      else CanApply(c, step[0]) && AfterVaultMoves(c0, Transfer(c, step[0]), sorted, deltas, j + 1)
  {
    var vi := |sorted| - 1;
    var step := VaultStep(sorted, deltas, j);
    if step != [] {
      var m := step[0];
      assert m == Move(sorted[j], sorted[vi], -deltas[j]) && j != vi;
      assert sorted[j] != sorted[vi];
      assert c[sorted[j]] == c0[sorted[j]];
      var c' := Transfer(c, m);
      forall i | 0 <= i < vi
        ensures c'[sorted[i]] == (if i < j + 1 && deltas[i] < 0 then c0[sorted[i]] + deltas[i] else c0[sorted[i]])
      {
        if i != j {
          assert sorted[i] != sorted[j] && sorted[i] != sorted[vi];
        }
      }
    }
  }

  /** The vault moves all succeed and leave each character's surplus in the vault. */
  lemma {:induction false} VaultPhase(c0: Counts, sorted: seq<StoreId>, deltas: seq<int>, k: nat)
    requires |sorted| == |deltas| >= 1 && k <= |deltas| && Distinct(sorted)
    requires forall x :: x in sorted ==> x in c0
    requires forall j :: 0 <= j < |sorted| ==> c0[sorted[j]] + deltas[j] >= 0
    ensures ApplyAll(c0, VaultMoves(sorted, deltas, k)).ok
    ensures AfterVaultMoves(c0, ApplyAll(c0, VaultMoves(sorted, deltas, k)).counts, sorted, deltas, k)
    decreases k
  {
    if k > 0 {
      var j := k - 1;
      VaultPhase(c0, sorted, deltas, j);
      var prev := VaultMoves(sorted, deltas, j);
      var c := ApplyAll(c0, prev).counts;
      VaultStepOk(c0, c, sorted, deltas, j);
      var step := VaultStep(sorted, deltas, j);
      if step == [] {
        assert VaultMoves(sorted, deltas, k) == prev;
      } else {
        assert VaultMoves(sorted, deltas, k) == prev + [step[0]];
        ApplySnoc(c0, prev, step[0]);
      }
    }
  }

  /** After the first `k` target moves: those stores received their deficit out of the vault. */
  ghost predicate AfterTargetMoves(c1: Counts, c: Counts, sorted: seq<StoreId>, deltas: seq<int>, k: nat)
    requires |sorted| == |deltas| >= 1 && k <= |deltas|
    requires forall x :: x in sorted ==> x in c1
  {
    var vi := |sorted| - 1;
    && c.Keys == c1.Keys
    && (forall j :: 0 <= j < vi ==>
          c[sorted[j]] == (if j < k && deltas[j] > 0 then c1[sorted[j]] + deltas[j] else c1[sorted[j]]))
    && c[sorted[vi]] + Demand(sorted, deltas, k) == c1[sorted[vi]]
  }

  /** One more target move succeeds (the vault still holds enough) and keeps `AfterTargetMoves`. */
  lemma TargetStepOk(c1: Counts, c: Counts, sorted: seq<StoreId>, deltas: seq<int>, j: nat)
    requires |sorted| == |deltas| >= 1 && j < |deltas| && Distinct(sorted)
    requires forall x :: x in sorted ==> x in c1
    requires deltas[|sorted| - 1] <= 0
    requires c1[sorted[|sorted| - 1]] >= Demand(sorted, deltas, |deltas|)
    requires AfterTargetMoves(c1, c, sorted, deltas, j)
    ensures var step := TargetStep(sorted, deltas, j);
      if step == [] then AfterTargetMoves(c1, c, sorted, deltas, j + 1)
      else CanApply(c, step[0]) && AfterTargetMoves(c1, Transfer(c, step[0]), sorted, deltas, j + 1)
  {
    var vi := |sorted| - 1;
    var step := TargetStep(sorted, deltas, j);
    if step != [] {
      var m := step[0];
      assert j != vi;
      assert m == Move(sorted[vi], sorted[j], deltas[j]);
      assert sorted[j] != sorted[vi];
      DemandGrows(sorted, deltas, j + 1, |deltas|);
      assert c[sorted[vi]] >= deltas[j];
      var c' := Transfer(c, m);
      forall i | 0 <= i < vi
        ensures c'[sorted[i]] == (if i < j + 1 && deltas[i] > 0 then c1[sorted[i]] + deltas[i] else c1[sorted[i]])
      {
        if i != j {
          assert sorted[i] != sorted[j] && sorted[i] != sorted[vi];
        }
      }
    }
  }

  /** The target moves, carried out after the vault moves, all succeed and bring every deficit. */
  lemma {:induction false} TargetPhase(c1: Counts, sorted: seq<StoreId>, deltas: seq<int>, k: nat)
    requires |sorted| == |deltas| >= 1 && k <= |deltas| && Distinct(sorted)
    requires forall x :: x in sorted ==> x in c1
    requires deltas[|sorted| - 1] <= 0
    requires c1[sorted[|sorted| - 1]] >= Demand(sorted, deltas, |deltas|)
    ensures ApplyAll(c1, TargetMoves(sorted, deltas, k)).ok
    ensures AfterTargetMoves(c1, ApplyAll(c1, TargetMoves(sorted, deltas, k)).counts, sorted, deltas, k)
    decreases k
  {
    if k > 0 {
      var j := k - 1;
      TargetPhase(c1, sorted, deltas, j);
      var prev := TargetMoves(sorted, deltas, j);
      var c := ApplyAll(c1, prev).counts;
      TargetStepOk(c1, c, sorted, deltas, j);
      var step := TargetStep(sorted, deltas, j);
      if step == [] {
        assert TargetMoves(sorted, deltas, k) == prev;
      } else {
        assert TargetMoves(sorted, deltas, k) == prev + [step[0]];
        ApplySnoc(c1, prev, step[0]);
      }
    }
  }

  /** The whole distribution plan for the current counts, in sorted-store coordinates. */
  datatype Plan = Plan(sorted: seq<StoreId>, amounts: seq<int>, targets: seq<int>, deltas: seq<int>,
                       vaultMoves: seq<Move>, targetMoves: seq<Move>)

  function PlanFor(stores: seq<StoreId>, c: Counts): (p: Plan)
    requires |stores| >= 2 && forall x :: x in stores ==> x in c
    ensures |p.sorted| == |p.amounts| == |p.targets| == |p.deltas| == |stores|
  {
    var sorted := VaultLast(stores);
    assert forall x :: x in sorted ==> x in c by {
      forall x | x in sorted ensures x in c {
      }
    }
    var amounts := AmountsOf(sorted, c);
    SumNonNegative(amounts);
    var targets := Targets(Sum(amounts), |sorted|);
    var deltas := Deltas(amounts, targets);
    Plan(sorted, amounts, targets, deltas,
         VaultMoves(sorted, deltas, |deltas|), TargetMoves(sorted, deltas, |deltas|))
  }

  /** Carrying out the vault moves and then the target moves over `sorted` (the vault last). */
  lemma CarryOut(c: Counts, sorted: seq<StoreId>, deltas: seq<int>)
    requires |sorted| == |deltas| >= 1 && Distinct(sorted)
    requires forall x :: x in sorted ==> x in c
    requires forall j :: 0 <= j < |sorted| ==> c[sorted[j]] + deltas[j] >= 0
    requires c[sorted[|sorted| - 1]] + deltas[|sorted| - 1] == 0
    requires Demand(sorted, deltas, |deltas|) == Supply(sorted, deltas, |deltas|) + c[sorted[|sorted| - 1]]
    ensures var afterVault := ApplyAll(c, VaultMoves(sorted, deltas, |deltas|));
      var afterTargets := ApplyAll(afterVault.counts, TargetMoves(sorted, deltas, |deltas|));
      && afterVault.ok && afterTargets.ok
      && afterTargets.counts.Keys == c.Keys
      && (forall j :: 0 <= j < |sorted| ==> afterTargets.counts[sorted[j]] == c[sorted[j]] + deltas[j])
  {
    var n := |deltas|;
    VaultPhase(c, sorted, deltas, n);
    var c1 := ApplyAll(c, VaultMoves(sorted, deltas, n)).counts;
    VaultHoldsDemand(c, c1, sorted, deltas);
    TargetPhase(c1, sorted, deltas, n);
    var c2 := ApplyAll(c1, TargetMoves(sorted, deltas, n)).counts;
    FinalCounts(c, c1, c2, sorted, deltas);
  }

  /** After the vault moves the vault holds exactly what the target moves will take. */
  lemma VaultHoldsDemand(c: Counts, c1: Counts, sorted: seq<StoreId>, deltas: seq<int>)
    requires |sorted| == |deltas| >= 1
    requires forall x :: x in sorted ==> x in c
    requires Demand(sorted, deltas, |deltas|) == Supply(sorted, deltas, |deltas|) + c[sorted[|sorted| - 1]]
    requires AfterVaultMoves(c, c1, sorted, deltas, |deltas|)
    ensures forall x :: x in sorted ==> x in c1
    ensures c1[sorted[|sorted| - 1]] == Demand(sorted, deltas, |deltas|)
  {
  }

  /** Both phases together move every store by its delta. */
  lemma FinalCounts(c: Counts, c1: Counts, c2: Counts, sorted: seq<StoreId>, deltas: seq<int>)
    requires |sorted| == |deltas| >= 1
    requires forall x :: x in sorted ==> x in c
    requires c[sorted[|sorted| - 1]] + deltas[|sorted| - 1] == 0
    requires Demand(sorted, deltas, |deltas|) == Supply(sorted, deltas, |deltas|) + c[sorted[|sorted| - 1]]
    requires AfterVaultMoves(c, c1, sorted, deltas, |deltas|)
    requires forall x :: x in sorted ==> x in c1
    requires AfterTargetMoves(c1, c2, sorted, deltas, |deltas|)
    ensures forall j :: 0 <= j < |sorted| ==> c2[sorted[j]] == c[sorted[j]] + deltas[j]
  {
    var n := |deltas|;
    forall j | 0 <= j < n ensures c2[sorted[j]] == c[sorted[j]] + deltas[j] {
      if j < n - 1 {
        assert c1[sorted[j]] == (if deltas[j] < 0 then c[sorted[j]] + deltas[j] else c[sorted[j]]);
        assert c2[sorted[j]] == (if deltas[j] > 0 then c1[sorted[j]] + deltas[j] else c1[sorted[j]]);
      }
    }
  }

  /** Deltas that sum to zero, the vault's taking away exactly its `held` copies, balance demand and supply. */
  lemma DemandMeetsSupply(sorted: seq<StoreId>, deltas: seq<int>, held: nat)
    requires |sorted| == |deltas| >= 1
    requires Sum(deltas) == 0 && deltas[|sorted| - 1] + held == 0
    ensures Demand(sorted, deltas, |deltas|) == Supply(sorted, deltas, |deltas|) + held
  {
    var n := |deltas|;
    MovesBalance(sorted, deltas, n);
    assert deltas[..n] == deltas;
  }

  /** The sorted stores of a plan: the same distinct stores, the vault last. */
  lemma PlanSorted(stores: seq<StoreId>, c: Counts)
    requires |stores| >= 2 && Distinct(stores) && VaultId in stores
    requires forall x :: x in stores ==> x in c
    ensures var p := PlanFor(stores, c);
      && Distinct(p.sorted) && p.sorted[|stores| - 1] == VaultId
      && (forall x :: x in p.sorted <==> x in stores)
  {
    var p := PlanFor(stores, c);
    assert p.sorted == VaultLast(stores);
    VaultLastShape(stores);
  }

  /** The deltas of a plan take every store to its target and add up to zero. */
  lemma PlanDeltas(stores: seq<StoreId>, c: Counts)
    requires |stores| >= 2 && forall x :: x in stores ==> x in c
    ensures var p := PlanFor(stores, c);
      && (forall j :: 0 <= j < |stores| ==> c[p.sorted[j]] + p.deltas[j] == p.targets[j] >= 0)
      && p.targets[|stores| - 1] == 0
      && Sum(p.deltas) == 0
  {
    var p := PlanFor(stores, c);
    var n := |stores|;
    assert p.amounts == AmountsOf(p.sorted, c);
    SumNonNegative(p.amounts);
    var total := Sum(p.amounts);
    assert p.targets == Targets(total, n);
    TargetsShareTotal(total, n);
    assert p.deltas == Deltas(p.amounts, p.targets);
    SumDeltas(p.amounts, p.targets);
  }

  /** The facts about a plan that carrying it out relies on. */
  ghost predicate SoundPlan(stores: seq<StoreId>, c: Counts, p: Plan) {
    var n := |stores|;
    && n >= 1 && |p.sorted| == n && |p.deltas| == n && |p.targets| == n
    && Distinct(p.sorted) && p.sorted[n - 1] == VaultId
    && (forall x :: x in p.sorted <==> x in stores)
    && (forall x :: x in p.sorted ==> x in c)
    && (forall j :: 0 <= j < n ==> c[p.sorted[j]] + p.deltas[j] == p.targets[j] >= 0)
    && p.targets[n - 1] == 0
    && Sum(p.deltas) == 0
    && Demand(p.sorted, p.deltas, n) == Supply(p.sorted, p.deltas, n) + c[VaultId]
  }

  lemma PlanFacts(stores: seq<StoreId>, c: Counts)
    requires |stores| >= 2 && Distinct(stores) && VaultId in stores
    requires forall x :: x in stores ==> x in c
    ensures SoundPlan(stores, c, PlanFor(stores, c))
  {
    var p := PlanFor(stores, c);
    var vi := |stores| - 1;
    PlanSorted(stores, c);
    PlanDeltas(stores, c);
    assert p.deltas[vi] + c[VaultId] == 0;
    DemandMeetsSupply(p.sorted, p.deltas, c[VaultId]);
  }

  /**
   * The plan is sound: every move carries a positive amount between a character and
   * the vault, the vault never receives a move from itself nor a target move, and
   * the target moves carry exactly what the vault moves bring plus what the vault already held.
   */
  lemma PlanIsBalanced(stores: seq<StoreId>, c: Counts)
    requires |stores| >= 2 && Distinct(stores) && VaultId in stores
    requires forall x :: x in stores ==> x in c
    ensures var p := PlanFor(stores, c);
      && Sum(p.deltas) == 0
      && (forall m :: m in p.vaultMoves ==> m.amount > 0 && m.target == VaultId && m.source != VaultId && m.source in stores)
      && (forall m :: m in p.targetMoves ==> m.amount > 0 && m.source == VaultId && m.target != VaultId && m.target in stores)
      && SumAmounts(p.targetMoves) == SumAmounts(p.vaultMoves) + c[VaultId]
  {
    var p := PlanFor(stores, c);
    var n := |stores|;
    PlanFacts(stores, c);
    VaultMovesCarrySupply(p.sorted, p.deltas, n);
    TargetMovesCarryDemand(p.sorted, p.deltas, n);
    PlannedMovesShape(p.sorted, p.deltas, n);
    forall m | m in p.vaultMoves ensures m.source != VaultId && m.source in stores {
      var j :| 0 <= j < n && j != n - 1 && m.source == p.sorted[j] && m.amount == -p.deltas[j];
      assert p.sorted[j] in p.sorted;
    }
    forall m | m in p.targetMoves ensures m.target != VaultId && m.target in stores {
      var j :| 0 <= j < n && p.deltas[j] > 0 && m.target == p.sorted[j] && m.amount == p.deltas[j];
      assert p.sorted[j] in p.sorted;
    }
  }

  /**
   * Carrying out the plan -- all vault moves in store order, then all target moves --
   * never fails and leaves every store holding exactly its target.
   */
  lemma DistributionReachesTargets(stores: seq<StoreId>, c: Counts)
    requires |stores| >= 2 && Distinct(stores) && VaultId in stores
    requires forall x :: x in stores ==> x in c
    ensures var p := PlanFor(stores, c);
      var afterVault := ApplyAll(c, p.vaultMoves);
      var afterTargets := ApplyAll(afterVault.counts, p.targetMoves);
      && afterVault.ok && afterTargets.ok
      && afterTargets.counts.Keys == c.Keys
      && (forall k :: 0 <= k < |stores| ==> afterTargets.counts[p.sorted[k]] == p.targets[k])
      && afterTargets.counts[VaultId] == 0
  {
    var p := PlanFor(stores, c);
    PlanFacts(stores, c);
    assert forall x :: x in p.sorted ==> x in c;
    CarryOut(c, p.sorted, p.deltas);
  }

  /** Corollary for the characters: each ends with the floor or the ceiling of the average. */
  lemma DistributionIsEven(stores: seq<StoreId>, c: Counts, s: StoreId)
    requires |stores| >= 2 && Distinct(stores) && VaultId in stores
    requires forall x :: x in stores ==> x in c
    requires s in stores && s != VaultId
    ensures var p := PlanFor(stores, c);
      var final := ApplyAll(ApplyAll(c, p.vaultMoves).counts, p.targetMoves).counts;
      var total := Sum(p.amounts); var n := |stores| - 1;
      total >= 0 && total / n <= final[s] <= Ceil(total, n)
  {
    var p := PlanFor(stores, c);
    VaultLastShape(stores);
    SumNonNegative(p.amounts);
    assert p.sorted == VaultLast(stores);
    assert p.targets == Targets(Sum(p.amounts), |stores|);
    var k :| 0 <= k < |stores| && p.sorted[k] == s;
    assert k != |stores| - 1;
    DistributionReachesTargets(stores, c);
    var final := ApplyAll(ApplyAll(c, p.vaultMoves).counts, p.targetMoves).counts;
    assert final[s] == p.targets[k];
    CharacterTargetIsEven(Sum(p.amounts), |stores|, k);
  }

  /** A character's target lies between the floor and the ceiling of the average. */
  lemma CharacterTargetIsEven(total: nat, storeCount: nat, k: nat)
    requires storeCount >= 2 && k < storeCount - 1
    ensures total / (storeCount - 1) <= Targets(total, storeCount)[k] <= Ceil(total, storeCount - 1)
  {
    TargetsShareTotal(total, storeCount);
  }

  // ---------------------------------------------------------------------------
  // Consolidation: every movable character stack to the vault, then the vault to the target
  // ---------------------------------------------------------------------------

  /**
   * The first loop of `consolidate` over the first `i` characters of `chars`: a character
   * other than the target store whose stack can be found outside the postmaster (`loose`)
   * sends everything it holds to the vault.
   */
  function CollectToVault(c: Counts, chars: seq<StoreId>, i: nat, loose: set<StoreId>, target: StoreId): (r: Counts)
    requires VaultId in c && i <= |chars| && forall x :: x in chars ==> x in c
    ensures r.Keys == c.Keys
    decreases i
  {
    if i == 0 then c
    else
      var prev := CollectToVault(c, chars, i - 1, loose, target);
      var x := chars[i - 1];
      assert x in chars;
      if x != target && x in loose then Transfer(prev, Move(x, VaultId, prev[x])) else prev
  }

  /** Copies the first loop of `consolidate` takes out of the first `i` characters of `chars`. */
  function Collected(c: Counts, chars: seq<StoreId>, i: nat, loose: set<StoreId>, target: StoreId): int
    requires i <= |chars| && forall x :: x in chars ==> x in c
    decreases i
  {
    if i == 0 then 0
    else
      var x := chars[i - 1];
      assert x in chars;
      Collected(c, chars, i - 1, loose, target) + (if x != target && x in loose then c[x] else 0)
  }

  /** The counts once `consolidate` has finished. */
  function ConsolidatedCounts(c: Counts, stores: seq<StoreId>, loose: set<StoreId>, target: StoreId): (r: Counts)
    requires VaultId in c && target in c && forall x :: x in stores ==> x in c
    ensures r.Keys == c.Keys
  {
    var chars := Characters(stores);
    var c1 := CollectToVault(c, chars, |chars|, loose, target);
    if target != VaultId && c1[VaultId] > 0 then Transfer(c1, Move(VaultId, target, c1[VaultId])) else c1
  }

  lemma {:induction false} CollectToVaultEffect(c: Counts, chars: seq<StoreId>, i: nat, loose: set<StoreId>, target: StoreId)
    requires VaultId in c && i <= |chars| && forall x :: x in chars ==> x in c
    requires Distinct(chars) && VaultId !in chars
    ensures var r := CollectToVault(c, chars, i, loose, target);
      && r[VaultId] == c[VaultId] + Collected(c, chars, i, loose, target)
      && (forall j :: 0 <= j < |chars| ==>
            r[chars[j]] == (if j < i && chars[j] != target && chars[j] in loose then 0 else c[chars[j]]))
      && (forall x :: x in c && x !in chars && x != VaultId ==> r[x] == c[x])
    decreases i
  {
    if i > 0 {
      CollectToVaultEffect(c, chars, i - 1, loose, target);
      var prev := CollectToVault(c, chars, i - 1, loose, target);
      var r := CollectToVault(c, chars, i, loose, target);
      var x := chars[i - 1];
      assert x in chars && x != VaultId;
      var moved := x != target && x in loose;
      assert prev[x] == c[x];
      assert r == if moved then Transfer(prev, Move(x, VaultId, prev[x])) else prev;
      assert r[VaultId] == prev[VaultId] + (if moved then c[x] else 0);
      forall j | 0 <= j < |chars|
        ensures r[chars[j]] == (if j < i && chars[j] != target && chars[j] in loose then 0 else c[chars[j]])
      {
        if j == i - 1 {
          assert r[x] == if moved then 0 else prev[x];
        } else {
          assert chars[j] != x && chars[j] in chars;
          assert r[chars[j]] == prev[chars[j]];
        }
      }
      forall y | y in c && y !in chars && y != VaultId ensures r[y] == c[y] {
        assert y != x;
      }
    }
  }

  /**
   * `consolidate` gathers the item in `target`: a character other than the target loses
   * its stack exactly when it had one outside the postmaster, every other store keeps what
   * it held, and the target ends with its own copies plus all that was gathered -- through
   * the vault, which is left empty when it is not itself the target.
   */
  lemma ConsolidationGathers(c: Counts, stores: seq<StoreId>, loose: set<StoreId>, target: StoreId)
    requires Distinct(stores) && VaultId in stores && target in stores
    requires forall x :: x in stores ==> x in c
    ensures var r := ConsolidatedCounts(c, stores, loose, target);
      var gathered := Collected(c, Characters(stores), |Characters(stores)|, loose, target);
      && (forall x :: x in stores && x != target && x != VaultId ==> r[x] == (if x in loose then 0 else c[x]))
      && (target == VaultId ==> r[VaultId] == c[VaultId] + gathered)
      && (target != VaultId ==> r[VaultId] == 0 && r[target] == c[target] + c[VaultId] + gathered)
      && (forall x :: x in c && x !in stores ==> r[x] == c[x])
  {
    var chars := Characters(stores);
    VaultLastShape(stores);
    FilterDistinct(stores, IsCharacter);
    forall x | x in stores ensures x in chars <==> x != VaultId {
    }
    forall x | x in chars ensures x in stores {
    }
    CollectToVaultEffect(c, chars, |chars|, loose, target);
    var c1 := CollectToVault(c, chars, |chars|, loose, target);
    forall x | x in chars ensures c1[x] == (if x != target && x in loose then 0 else c[x]) {
      var j := FirstIndex(chars, x);
    }
  }

  // ---------------------------------------------------------------------------
  // A single user-initiated move (`moveItemTo`)
  // ---------------------------------------------------------------------------

  /** The fields of the item that `moveItemTo` looks at. */
  datatype TransferItem = TransferItem(
    owner: StoreId,
    notransfer: bool,
    inPostmaster: bool,
    equipped: bool,
    amount: nat,
    maxStackSize: nat,
    uniqueStack: bool)

  /** How `moveItemTo` ends. */
  datatype MoveItemOutcome =
    | CannotMove                        // throws `Help.CannotMove`
    | AlreadyThere                      // returns the item without moving it
    | Canceled                          // the amount prompt was dismissed ('move-canceled', caught)
    | MoveFailed(amount: nat)           // the item service failed (caught)
    | Moved(amount: nat, reload: bool)  // moved; `reload` asks to refresh the characters

  /** `amount || 1`: a zero amount moves one copy. */
  function DefaultMoveAmount(amount: nat): (r: nat)
    ensures r >= 1
    ensures amount != 0 ==> r == amount
  {
    if amount == 0 then 1 else amount
  }

  /** When the user is asked how much of the stack to move. */
  predicate PromptsForAmount(item: TransferItem, chooseAmount: bool) {
    chooseAmount && item.maxStackSize > 1 && item.amount > 1 && !item.uniqueStack
  }

  /** Whether the move is refused outright. */
  predicate Refused(item: TransferItem, store: StoreId) {
    item.notransfer && item.owner != store
  }

  /** Whether the item already is where and how the move would put it. */
  predicate NothingToDo(item: TransferItem, store: StoreId, equip: bool) {
    item.owner == store && !item.inPostmaster && item.equipped == equip
  }

  class Inventory {
    /** Store ids in the order the store list gives them. */
    const stores: seq<StoreId>
    var counts: Counts

    /** The store ids are distinct and the counts hold exactly one entry per store. */
    ghost predicate Valid()
      reads this
    {
      Distinct(stores) && counts.Keys == set x | x in stores
    }

    constructor (stores: seq<StoreId>, counts: Counts)
      requires Distinct(stores) && counts.Keys == set x | x in stores
      ensures Valid() && this.stores == stores && this.counts == counts
    {
      this.stores := stores;
      this.counts := counts;
    }

    /** `dimItemService.moveTo`: carry out one transfer, or fail and change nothing. */
    method MoveTo(m: Move) returns (ok: bool)
      requires Valid()
      modifies this
      ensures Valid()
      ensures ok == CanApply(old(counts), m)
      ensures counts == if ok then Transfer(old(counts), m) else old(counts)
    {
      ok := CanApply(counts, m);
      if ok {
        counts := Transfer(counts, m);
      }
    }

    /** `applyMoves`: the moves one after the other; a failure aborts the rest. */
    method ApplyMoves(moves: seq<Move>) returns (ok: bool)
      requires Valid()
      modifies this
      ensures Valid()
      ensures Outcome(counts, ok) == ApplyAll(old(counts), moves)
    {
      ok := true;
      var i := 0;
      while i < |moves|
        invariant Valid()
        invariant 0 <= i <= |moves|
        invariant ApplyAll(old(counts), moves[..i]) == Outcome(counts, true)
      {
        ApplySnoc(old(counts), moves[..i], moves[i]);
        assert moves[..i + 1] == moves[..i] + [moves[i]];
        ok := MoveTo(moves[i]);
        if !ok {
          ApplyAllAppend(old(counts), moves[..i + 1], moves[i + 1..]);
          assert moves[..i + 1] + moves[i + 1..] == moves;
          return;
        }
        i := i + 1;
      }
      assert moves[..|moves|] == moves;
    }

    /** `distribute`: spread the item evenly over the characters, emptying the vault. */
    method Distribute() returns (ok: bool)
      requires Valid() && |stores| >= 2 && VaultId in stores
      modifies this
      ensures Valid() && ok
      ensures counts.Keys == old(counts).Keys
      ensures var p := PlanFor(stores, old(counts));
        forall k :: 0 <= k < |stores| ==> counts[p.sorted[k]] == p.targets[k]
    {
      ghost var p := PlanFor(stores, counts);
      DistributionReachesTargets(stores, counts);
      var sorted := VaultLast(stores);
      VaultLastShape(stores);
      assert forall x :: x in sorted ==> x in counts;
      var amounts, total := ReadAmounts(sorted, counts);
      var targets := ComputeTargets(total, |sorted|);
      var deltas := Deltas(amounts, targets);
      var vaultMoves, targetMoves := PlanMoves(sorted, deltas);
      assert vaultMoves == p.vaultMoves && targetMoves == p.targetMoves;
      ok := ApplyMoves(vaultMoves);
      if ok {
        ok := ApplyMoves(targetMoves);
      }
    }

    /** The first loop of `consolidate`: every loose stack of a character other than `target` goes to the vault. */
    method CollectLoose(characters: seq<StoreId>, loose: set<StoreId>, target: StoreId)
      requires Valid() && VaultId in counts && forall x :: x in characters ==> x in counts
      modifies this
      ensures Valid()
      ensures counts == CollectToVault(old(counts), characters, |characters|, loose, target)
    {
      var i := 0;
      while i < |characters|
        invariant Valid()
        invariant 0 <= i <= |characters|
        invariant counts == CollectToVault(old(counts), characters, i, loose, target)
      {
        var s := characters[i];
        assert s in characters;
        if s != target && s in loose {
          var ok := MoveTo(Move(s, VaultId, counts[s]));
        }
        i := i + 1;
      }
    }

    /** `consolidate`: gather the item into `target`; `loose` are the characters holding a stack outside the postmaster. */
    method Consolidate(loose: set<StoreId>, target: StoreId) returns (ok: bool)
      requires Valid() && VaultId in stores && target in stores
      modifies this
      ensures Valid() && ok
      ensures counts == ConsolidatedCounts(old(counts), stores, loose, target)
    {
      var characters := Characters(stores);
      assert forall x :: x in characters ==> x in counts by {
        forall x | x in characters ensures x in counts {
        }
      }
      CollectLoose(characters, loose, target);
      ok := true;
      if target != VaultId && counts[VaultId] > 0 {
        ok := MoveTo(Move(VaultId, target, counts[VaultId]));
      }
    }

    /**
     * `moveItemTo`: refuse a non-transferable item meant for another store, return early
     * when nothing would change, otherwise ask for an amount when the stack allows it
     * (`chosen` is the answer, `None` a cancel) and hand the move to the item service.
     */
    method MoveItemTo(item: TransferItem, store: StoreId, equip: bool, amount: nat, chooseAmount: bool,
                      chosen: Option<nat>) returns (outcome: MoveItemOutcome)
      requires Valid()
      modifies this
      ensures Valid()
      ensures outcome == CannotMove <==> Refused(item, store)
      ensures outcome == AlreadyThere <==> !Refused(item, store) && NothingToDo(item, store, equip)
      ensures outcome == Canceled <==>
                !Refused(item, store) && !NothingToDo(item, store, equip) &&
                PromptsForAmount(item, chooseAmount) && chosen == None
      ensures (outcome.Moved? || outcome.MoveFailed?) ==>
                outcome.amount == (if PromptsForAmount(item, chooseAmount) then chosen.value else DefaultMoveAmount(amount))
      ensures outcome.Moved? ==>
                outcome.reload == (item.equipped || equip) &&
                CanApply(old(counts), Move(item.owner, store, outcome.amount)) &&
                counts == Transfer(old(counts), Move(item.owner, store, outcome.amount))
      ensures outcome.MoveFailed? ==> !CanApply(old(counts), Move(item.owner, store, outcome.amount))
      ensures !outcome.Moved? ==> counts == old(counts)
    {
      if item.notransfer && item.owner != store {
        return CannotMove;
      }
      if item.owner == store && !item.inPostmaster {
        if (item.equipped && equip) || (!item.equipped && !equip) {
          return AlreadyThere;
        }
      }
      var moveAmount := DefaultMoveAmount(amount);
      var reload := item.equipped || equip;
      if chooseAmount && item.maxStackSize > 1 && item.amount > 1 && !item.uniqueStack {
        match chosen {
          case None => return Canceled;
          case Some(n) => moveAmount := n;
        }
      }
      var ok := MoveTo(Move(item.owner, store, moveAmount));
      if ok {
        outcome := Moved(moveAmount, reload);
      } else {
        outcome := MoveFailed(moveAmount);
      }
    }
  }
}
