/**
 * The values InventoryService works on and the pure meaning of its two
 * mutations.  An Item is a stock record (a row of inventory.csv), a Recipe a
 * menu entry (an object of recipes.json).  Quantities are real numbers: the
 * Java doubles are modelled without rounding.
 *
 * A recipe's ingredient map is a hash map whose iteration order Java leaves
 * unspecified; it is represented by its entries listed in that (arbitrary)
 * iteration order, each item id at most once.
 */
module Stock {

  datatype Item = Item(id: int, name: string, stock: real, unit: string, threshold: real)

  /** One entry of a recipe's ingredient map: item id and required quantity. */
  datatype Ingredient = Ingredient(itemId: int, qty: real)

  datatype Recipe = Recipe(id: int, name: string, price: real, ingredients: seq<Ingredient>)

  /** One low-stock e-mail: item name, stock after the sale, unit. */
  datatype Alert = Alert(itemName: string, currentStock: real, unit: string)

  type Inventory = map<int, Item>

  /** Every record sits under its own id (loadStock puts each item under its id). */
  predicate KeyedById(inv: Inventory) {
    forall id :: id in inv ==> inv[id].id == id
  }

  predicate NonNegative(inv: Inventory) {
    forall id :: id in inv ==> inv[id].stock >= 0.0
  }

  /** The low flag of getJsonData and the condition for a low-stock e-mail. */
  predicate IsLow(item: Item) {
    item.stock <= item.threshold
  }

  function AlertFor(item: Item): Alert {
    Alert(item.name, item.stock, item.unit)
  }

  /** The entries form a map: no item id is listed twice. */
  predicate DistinctIds(ings: seq<Ingredient>) {
    forall i, j :: 0 <= i < j < |ings| ==> ings[i].itemId != ings[j].itemId
  }

  predicate Listed(ings: seq<Ingredient>, id: int) {
    exists k :: 0 <= k < |ings| && ings[k].itemId == id
  }

  /** The quantity the recipe requires of item id; 0 for an item it does not use. */
  function QtyOf(ings: seq<Ingredient>, id: int): (q: real)
    ensures !Listed(ings, id) ==> q == 0.0
    ensures DistinctIds(ings) ==>
              forall k :: 0 <= k < |ings| && ings[k].itemId == id ==> q == ings[k].qty
  {
    if ings == [] then 0.0
    else
      var init := ings[..|ings| - 1];
      assert forall k :: 0 <= k < |init| ==> init[k] == ings[k];
      if ings[|ings| - 1].itemId == id then ings[|ings| - 1].qty else QtyOf(init, id)
  }

  lemma ListedSnoc(ings: seq<Ingredient>, e: Ingredient)
    ensures forall x :: Listed(ings + [e], x) <==> Listed(ings, x) || x == e.itemId
  {
    var r := ings + [e];
    forall x ensures Listed(r, x) <==> Listed(ings, x) || x == e.itemId {
      if Listed(r, x) {
        var k :| 0 <= k < |r| && r[k].itemId == x;
        if k < |ings| { assert ings[k].itemId == x; }
      }
      if Listed(ings, x) {
        var k :| 0 <= k < |ings| && ings[k].itemId == x;
        assert r[k].itemId == x;
      }
      assert r[|ings|].itemId == e.itemId;
    }
  }

  lemma QtyOfSnoc(ings: seq<Ingredient>, e: Ingredient)
    ensures forall x :: QtyOf(ings + [e], x) == if x == e.itemId then e.qty else QtyOf(ings, x)
  {
    assert (ings + [e])[..|ings|] == ings;
  }

  lemma DistinctSnoc(ings: seq<Ingredient>, e: Ingredient)
    requires DistinctIds(ings) && !Listed(ings, e.itemId)
    ensures DistinctIds(ings + [e])
  {
  }

  /** Adding an entry to the map: an existing entry for the id gets the new
      quantity in place, a new id is appended (HashMap.put). */
  function PutIngredient(ings: seq<Ingredient>, id: int, qty: real): (r: seq<Ingredient>)
    requires DistinctIds(ings)
    ensures DistinctIds(r)
    ensures QtyOf(r, id) == qty && Listed(r, id)
    ensures forall other :: other != id ==>
              QtyOf(r, other) == QtyOf(ings, other) && (Listed(r, other) <==> Listed(ings, other))
  {
    var e := Ingredient(id, qty);
    if ings == [] then
      ListedSnoc([], e);
      QtyOfSnoc([], e);
      assert [] + [e] == [e];
      [e]
    else
      var init := ings[..|ings| - 1];
      var last := ings[|ings| - 1];
      assert ings == init + [last];
      ListedSnoc(init, last);
      QtyOfSnoc(init, last);
      if last.itemId == id then
        ListedSnoc(init, e);
        QtyOfSnoc(init, e);
        DistinctSnoc(init, e);
        init + [e]
      else
        var p := PutIngredient(init, id, qty);
        ListedSnoc(p, last);
        QtyOfSnoc(p, last);
        DistinctSnoc(p, last);
        p + [last]
  }

  // ---------------------------------------------------------------------------
  // Selling a recipe
  // ---------------------------------------------------------------------------

  /** The ingredient cannot supply q: it is missing or its stock is below q. */
  predicate IsShort(inv: Inventory, id: int, q: real) {
    id !in inv || inv[id].stock < q
  }

  /** The availability check of processOrder: no ingredient is short. */
  predicate Available(inv: Inventory, ings: seq<Ingredient>) {
    forall i :: 0 <= i < |ings| ==> !IsShort(inv, ings[i].itemId, ings[i].qty)
  }

  /** The first short entry at or after i in iteration order, or -1. */
  function FirstShortFrom(inv: Inventory, ings: seq<Ingredient>, i: nat): (k: int)
    requires i <= |ings|
    ensures k == -1 || (i <= k < |ings| && IsShort(inv, ings[k].itemId, ings[k].qty))
    ensures forall j :: i <= j < |ings| && (k == -1 || j < k) ==> !IsShort(inv, ings[j].itemId, ings[j].qty)
    decreases |ings| - i
  {
    if i == |ings| then -1
    else if IsShort(inv, ings[i].itemId, ings[i].qty) then i
    else FirstShortFrom(inv, ings, i + 1)
  }

  /** The entry the availability check stops at, or -1 when every ingredient
      is available. */
  function FirstShort(inv: Inventory, ings: seq<Ingredient>): int {
    FirstShortFrom(inv, ings, 0)
  }

  /** The check fails exactly when some ingredient is short. */
  lemma FirstShortIffUnavailable(inv: Inventory, ings: seq<Ingredient>)
    ensures FirstShort(inv, ings) == -1 <==> Available(inv, ings)
    ensures FirstShort(inv, ings) != -1 ==>
              0 <= FirstShort(inv, ings) < |ings|
              && IsShort(inv, ings[FirstShort(inv, ings)].itemId, ings[FirstShort(inv, ings)].qty)
  {
  }

  /** The name an "Out of stock" message gives for a short ingredient. */
  function ShortName(inv: Inventory, id: int): string {
    if id in inv then inv[id].name else "Unknown"
  }

  /** The commit step for one entry: its item loses the required quantity. */
  function Take(inv: Inventory, ing: Ingredient): Inventory {
    if ing.itemId in inv then inv[ing.itemId := inv[ing.itemId].(stock := inv[ing.itemId].stock - ing.qty)]
    else inv
  }

  /** The stock after the commit phase has run over the listed entries. */
  function Deduct(inv: Inventory, ings: seq<Ingredient>): Inventory {
    if ings == [] then inv else Take(Deduct(inv, ings[..|ings| - 1]), ings[|ings| - 1])
  }

  /** The commit phase keeps every record, with its id, name, unit and
      threshold: only stock changes. */
  lemma {:induction false} DeductKeepsRecords(inv: Inventory, ings: seq<Ingredient>)
    ensures Deduct(inv, ings).Keys == inv.Keys
    ensures forall id :: id in inv ==> Deduct(inv, ings)[id] == inv[id].(stock := Deduct(inv, ings)[id].stock)
    ensures KeyedById(inv) ==> KeyedById(Deduct(inv, ings))
  {
    if ings != [] {
      DeductKeepsRecords(inv, ings[..|ings| - 1]);
    }
  }

  /** The stock after restockItem(id, qty). */
  function Restock(inv: Inventory, id: int, qty: real): Inventory {
    if id in inv then inv[id := inv[id].(stock := inv[id].stock + qty)] else inv
  }

  /** Restocking each listed ingredient by its quantity, in order. */
  function RestockAll(inv: Inventory, ings: seq<Ingredient>): Inventory {
    if ings == [] then inv
    else Restock(RestockAll(inv, ings[..|ings| - 1]), ings[|ings| - 1].itemId, ings[|ings| - 1].qty)
  }

  /** Running the commit phase lowers each item by what the recipe requires
      of it and changes nothing else. */
  lemma {:induction false} DeductPointwise(inv: Inventory, ings: seq<Ingredient>)
    requires DistinctIds(ings)
    ensures Deduct(inv, ings).Keys == inv.Keys
    ensures forall id :: id in inv ==>
              Deduct(inv, ings)[id] == inv[id].(stock := inv[id].stock - QtyOf(ings, id))
  {
    if ings != [] {
      var init := ings[..|ings| - 1];
      var last := ings[|ings| - 1];
      assert forall k :: 0 <= k < |init| ==> init[k] == ings[k];
      DeductPointwise(inv, init);
      assert !Listed(init, last.itemId);
    }
  }

  lemma {:induction false} RestockAllPointwise(inv: Inventory, ings: seq<Ingredient>)
    requires DistinctIds(ings)
    ensures RestockAll(inv, ings).Keys == inv.Keys
    ensures forall id :: id in inv ==>
              RestockAll(inv, ings)[id] == inv[id].(stock := inv[id].stock + QtyOf(ings, id))
  {
    if ings != [] {
      var init := ings[..|ings| - 1];
      var last := ings[|ings| - 1];
      assert forall k :: 0 <= k < |init| ==> init[k] == ings[k];
      RestockAllPointwise(inv, init);
      assert !Listed(init, last.itemId);
    }
  }

  /** A sale touches only the recipe's ingredients, changes nothing but their
      stock, and lowers each by exactly its required quantity. */
  lemma SaleChangesOnlyRecipeStock(inv: Inventory, ings: seq<Ingredient>)
    requires DistinctIds(ings)
    ensures Deduct(inv, ings).Keys == inv.Keys
    ensures forall id :: id in inv && !Listed(ings, id) ==> Deduct(inv, ings)[id] == inv[id]
    ensures forall k :: 0 <= k < |ings| && ings[k].itemId in inv ==>
              Deduct(inv, ings)[ings[k].itemId]
                == inv[ings[k].itemId].(stock := inv[ings[k].itemId].stock - ings[k].qty)
  {
    DeductPointwise(inv, ings);
  }

  /** The check-then-commit order keeps stock non-negative: every deducted
      quantity was at most the stock it came from. */
  lemma SaleKeepsStockNonNegative(inv: Inventory, ings: seq<Ingredient>)
    requires DistinctIds(ings) && NonNegative(inv) && Available(inv, ings)
    ensures NonNegative(Deduct(inv, ings))
  {
    DeductPointwise(inv, ings);
    forall id | id in inv
      ensures Deduct(inv, ings)[id].stock >= 0.0
    {
      if Listed(ings, id) {
        var k :| 0 <= k < |ings| && ings[k].itemId == id;
        assert !IsShort(inv, ings[k].itemId, ings[k].qty);
      }
    }
  }

  /** Restocking touches only the named item and changes only its stock, by
      exactly qty; an unknown id changes nothing. */
  lemma RestockChangesOnlyItem(inv: Inventory, id: int, qty: real)
    ensures Restock(inv, id, qty).Keys == inv.Keys
    ensures forall other :: other in inv && other != id ==> Restock(inv, id, qty)[other] == inv[other]
    ensures id in inv ==> Restock(inv, id, qty)[id] == inv[id].(stock := inv[id].stock + qty)
    ensures id !in inv ==> Restock(inv, id, qty) == inv
  {
  }

  lemma RestockKeepsStockNonNegative(inv: Inventory, id: int, qty: real)
    requires NonNegative(inv) && qty >= 0.0
    ensures NonNegative(Restock(inv, id, qty))
  {
  }

  /** Restocking every ingredient of a sold recipe by its quantity restores
      the inventory as it was before the sale. */
  lemma RestockUndoesSale(inv: Inventory, ings: seq<Ingredient>)
    requires DistinctIds(ings)
    ensures RestockAll(Deduct(inv, ings), ings) == inv
  {
    DeductPointwise(inv, ings);
    var sold := Deduct(inv, ings);
    RestockAllPointwise(sold, ings);
    var back := RestockAll(sold, ings);
    forall id | id in inv
      ensures back[id] == inv[id]
    {
      assert back[id] == sold[id].(stock := sold[id].stock + QtyOf(ings, id));
    }
    assert back.Keys == inv.Keys;
  }

  // ---------------------------------------------------------------------------
  // Low-stock alerts
  // ---------------------------------------------------------------------------

  /** The e-mails the commit phase sends: after each entry's deduction, one
      for its item if that item is now at or below its threshold. */
  function SaleAlerts(inv: Inventory, ings: seq<Ingredient>): seq<Alert> {
    if ings == [] then []
    else
      var after := Deduct(inv, ings);
      var id := ings[|ings| - 1].itemId;
      SaleAlerts(inv, ings[..|ings| - 1]) + (if id in after && IsLow(after[id]) then [AlertFor(after[id])] else [])
  }

  /** The listed ingredients (in order) whose record in inv is low. */
  function LowIds(ings: seq<Ingredient>, inv: Inventory): (low: seq<int>)
    ensures forall x :: x in low <==> Listed(ings, x) && x in inv && IsLow(inv[x])
    ensures forall i :: 0 <= i < |low| ==> low[i] in inv
  {
    if ings == [] then []
    else
      var init := ings[..|ings| - 1];
      var last := ings[|ings| - 1].itemId;
      assert forall k :: 0 <= k < |init| ==> init[k] == ings[k];
      assert forall x :: Listed(ings, x) <==> Listed(init, x) || x == last by {
        forall x ensures Listed(ings, x) ==> Listed(init, x) || x == last {
          if Listed(ings, x) {
            var k :| 0 <= k < |ings| && ings[k].itemId == x;
            if k < |init| { assert init[k].itemId == x; }
          }
        }
      }
      LowIds(init, inv) + (if last in inv && IsLow(inv[last]) then [last] else [])
  }

  /** The e-mails for the listed items, in order. */
  function AlertsFor(ids: seq<int>, inv: Inventory): seq<Alert>
    requires forall i :: 0 <= i < |ids| ==> ids[i] in inv
  {
    seq(|ids|, i requires 0 <= i < |ids| => AlertFor(inv[ids[i]]))
  }

  /** The alerts of a sale are exactly one per recipe ingredient that is low
      after the whole sale, in iteration order, each carrying that item's
      final stock. */
  lemma {:induction false} SaleAlertsAreFinalLows(inv: Inventory, ings: seq<Ingredient>)
    requires DistinctIds(ings)
    ensures var after := Deduct(inv, ings);
            SaleAlerts(inv, ings) == AlertsFor(LowIds(ings, after), after)
  {
    if ings != [] {
      var init := ings[..|ings| - 1];
      var id := ings[|ings| - 1].itemId;
      assert forall k :: 0 <= k < |init| ==> init[k] == ings[k];
      var before := Deduct(inv, init);
      var after := Deduct(inv, ings);
      var lastLow := if id in after && IsLow(after[id]) then [id] else [];
      assert SaleAlerts(inv, ings) == SaleAlerts(inv, init) + AlertsFor(lastLow, after);
      assert LowIds(ings, after) == LowIds(init, after) + lastLow;
      SaleAlertsAreFinalLows(inv, init);
      assert !Listed(init, id);
      LowIdsFrame(init, before, after);
      AlertsForFrame(LowIds(init, before), before, after);
      AlertsForAppend(LowIds(init, after), lastLow, after);
    }
  }

  lemma AlertsForAppend(ids: seq<int>, more: seq<int>, inv: Inventory)
    requires forall i :: 0 <= i < |ids| ==> ids[i] in inv
    requires forall i :: 0 <= i < |more| ==> more[i] in inv
    ensures AlertsFor(ids + more, inv) == AlertsFor(ids, inv) + AlertsFor(more, inv)
  {
  }

  /** LowIds only looks at the listed items. */
  lemma {:induction false} LowIdsFrame(ings: seq<Ingredient>, inv: Inventory, inv': Inventory)
    requires forall x :: Listed(ings, x) ==> (x in inv <==> x in inv') && (x in inv ==> inv[x] == inv'[x])
    ensures LowIds(ings, inv) == LowIds(ings, inv')
  {
    if ings != [] {
      var init := ings[..|ings| - 1];
      assert forall k :: 0 <= k < |init| ==> init[k] == ings[k];
      forall x | Listed(init, x) ensures Listed(ings, x) {
        var k :| 0 <= k < |init| && init[k].itemId == x;
        assert ings[k].itemId == x;
      }
      assert Listed(ings, ings[|ings| - 1].itemId);
      LowIdsFrame(init, inv, inv');
    }
  }

  lemma AlertsForFrame(ids: seq<int>, inv: Inventory, inv': Inventory)
    requires forall i :: 0 <= i < |ids| ==> ids[i] in inv && ids[i] in inv' && inv[ids[i]] == inv'[ids[i]]
    ensures AlertsFor(ids, inv) == AlertsFor(ids, inv')
  {
  }

  /** No item is e-mailed about twice in one sale. */
  lemma {:induction false} LowIdsDistinct(ings: seq<Ingredient>, inv: Inventory)
    requires DistinctIds(ings)
    ensures var low := LowIds(ings, inv);
            forall i, j :: 0 <= i < j < |low| ==> low[i] != low[j]
  {
    if ings != [] {
      var init := ings[..|ings| - 1];
      var last := ings[|ings| - 1].itemId;
      assert forall k :: 0 <= k < |init| ==> init[k] == ings[k];
      LowIdsDistinct(init, inv);
      assert !Listed(init, last);
      assert last !in LowIds(init, inv);
    }
  }

  // ---------------------------------------------------------------------------
  // Sorted snapshot (saveInventory)
  // ---------------------------------------------------------------------------

  predicate Distinct(ids: seq<int>) {
    forall i, j :: 0 <= i < j < |ids| ==> ids[i] != ids[j]
  }

  predicate StrictlyIncreasing(ids: seq<int>) {
    forall i, j :: 0 <= i < j < |ids| ==> ids[i] < ids[j]
  }

  /** x put into its place in an increasing sequence. */
  function Insert(x: int, s: seq<int>): (r: seq<int>)
    requires StrictlyIncreasing(s) && x !in s
    ensures StrictlyIncreasing(r) && |r| == |s| + 1
    ensures forall y :: y in r <==> y == x || y in s
  {
    if s == [] then [x]
    else if x < s[0] then [x] + s
    else
      var t := Insert(x, s[1..]);
      assert forall y :: y in s <==> y == s[0] || y in s[1..];
      assert forall i :: 0 <= i < |t| ==> s[0] < t[i] by {
        forall i | 0 <= i < |t| ensures s[0] < t[i] {
          assert t[i] in t;
        }
      }
      [s[0]] + t
  }

  /** Collections.sort over a list of distinct ids. */
  function SortIds(ids: seq<int>): (r: seq<int>)
    requires Distinct(ids)
    ensures StrictlyIncreasing(r) && |r| == |ids|
    ensures forall y :: y in r <==> y in ids
  {
    if ids == [] then []
    else
      var init := ids[..|ids| - 1];
      assert forall y :: y in ids <==> y in init || y == ids[|ids| - 1];
      Insert(ids[|ids| - 1], SortIds(init))
  }

  lemma SameElementsNonEmpty(a: seq<int>, b: seq<int>)
    requires a != [] && forall y :: y in a <==> y in b
    ensures b != []
  {
    var x := a[0];
    assert x in a;
    var i :| 0 <= i < |b| && b[i] == x;
  }

  /** An increasing sequence is fixed by its elements: the sorted order does
      not depend on the order the ids came in. */
  lemma {:induction false} IncreasingIsUnique(a: seq<int>, b: seq<int>)
    requires StrictlyIncreasing(a) && StrictlyIncreasing(b)
    requires forall y :: y in a <==> y in b
    ensures a == b
  {
    if a != [] { SameElementsNonEmpty(a, b); }
    if b != [] { SameElementsNonEmpty(b, a); }
    if a != [] {
      assert a[0] in a && b[0] in b;
      assert a[0] in b;
      var j :| 0 <= j < |b| && b[j] == a[0];
      assert b[0] in a;
      var i :| 0 <= i < |a| && a[i] == b[0];
      assert a[0] <= a[i] && b[0] <= b[j];
      forall y ensures y in a[1..] <==> y in b[1..] {
        assert y in a <==> y == a[0] || y in a[1..];
        assert y in b <==> y == b[0] || y in b[1..];
        if y in a[1..] {
          var k :| 0 <= k < |a[1..]| && a[1..][k] == y;
          assert a[k + 1] == y;
        }
        if y in b[1..] {
          var k :| 0 <= k < |b[1..]| && b[1..][k] == y;
          assert b[k + 1] == y;
        }
      }
      IncreasingIsUnique(a[1..], b[1..]);
      assert a == [a[0]] + a[1..] && b == [b[0]] + b[1..];
    }
  }

  /** The records of the listed ids, in order. */
  function Rows(inv: Inventory, ids: seq<int>): (rows: seq<Item>)
    requires forall i :: 0 <= i < |ids| ==> ids[i] in inv
    ensures |rows| == |ids|
    ensures forall i :: 0 <= i < |ids| ==> rows[i] == inv[ids[i]]
  {
    if ids == [] then [] else [inv[ids[0]]] + Rows(inv, ids[1..])
  }

  /** ids lists every key of inv exactly once (the key set in some
      iteration order). */
  predicate ListsKeys(ids: seq<int>, inv: Inventory) {
    Distinct(ids) && (forall i :: 0 <= i < |ids| ==> ids[i] in inv) && (forall id :: id in inv ==> id in ids)
  }

  /** What saveInventory writes: one row per record, in increasing id order. */
  function Snapshot(inv: Inventory, ids: seq<int>): seq<Item>
    requires ListsKeys(ids, inv)
  {
    var sorted := SortIds(ids);
    assert forall i :: 0 <= i < |sorted| ==> sorted[i] in inv by {
      forall i | 0 <= i < |sorted| ensures sorted[i] in inv {
        assert sorted[i] in sorted;
      }
    }
    Rows(inv, sorted)
  }

  lemma RowsSortedById(inv: Inventory, ids: seq<int>)
    requires KeyedById(inv) && StrictlyIncreasing(ids)
    requires forall i :: 0 <= i < |ids| ==> ids[i] in inv
    ensures var rows := Rows(inv, ids);
            forall i, j :: 0 <= i < j < |rows| ==> rows[i].id < rows[j].id
  {
  }

  lemma RowsCover(inv: Inventory, ids: seq<int>)
    requires forall i :: 0 <= i < |ids| ==> ids[i] in inv
    requires forall id :: id in inv ==> id in ids
    ensures forall id :: id in inv ==> inv[id] in Rows(inv, ids)
  {
    var rows := Rows(inv, ids);
    forall id | id in inv
      ensures inv[id] in rows
    {
      var i :| 0 <= i < |ids| && ids[i] == id;
      assert rows[i] == inv[id];
    }
  }

  lemma RowsAreRecords(inv: Inventory, ids: seq<int>)
    requires KeyedById(inv)
    requires forall i :: 0 <= i < |ids| ==> ids[i] in inv
    ensures forall r :: r in Rows(inv, ids) ==> r.id in inv && inv[r.id] == r
  {
    var rows := Rows(inv, ids);
    forall r | r in rows
      ensures r.id in inv && inv[r.id] == r
    {
      var i :| 0 <= i < |rows| && rows[i] == r;
      var id := ids[i];
      assert r == inv[id];
      assert inv[id].id == id;
    }
  }

  /** The snapshot lists every record exactly once, sorted by id. */
  lemma SnapshotSortedById(inv: Inventory, ids: seq<int>)
    requires KeyedById(inv) && ListsKeys(ids, inv)
    ensures var rows := Snapshot(inv, ids);
            && (forall i, j :: 0 <= i < j < |rows| ==> rows[i].id < rows[j].id)
            && (forall id :: id in inv ==> inv[id] in rows)
            && (forall r :: r in rows ==> r.id in inv && inv[r.id] == r)
  {
    var sorted := SortIds(ids);
    forall i | 0 <= i < |sorted|
      ensures sorted[i] in inv
    {
      assert sorted[i] in sorted;
    }
    assert Snapshot(inv, ids) == Rows(inv, sorted);
    RowsSortedById(inv, sorted);
    RowsCover(inv, sorted);
    RowsAreRecords(inv, sorted);
  }

  /** The snapshot does not depend on the iteration order of the key set. */
  lemma SnapshotIndependentOfOrder(inv: Inventory, ids: seq<int>, ids': seq<int>)
    requires ListsKeys(ids, inv) && ListsKeys(ids', inv)
    ensures Snapshot(inv, ids) == Snapshot(inv, ids')
  {
    forall y ensures y in ids <==> y in ids' {
      if y in ids {
        var i :| 0 <= i < |ids| && ids[i] == y;
      }
      if y in ids' {
        var i :| 0 <= i < |ids'| && ids'[i] == y;
      }
    }
    IncreasingIsUnique(SortIds(ids), SortIds(ids'));
  }
}
