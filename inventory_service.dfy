/**
 * InventoryService: the stock records, the menu, and the order and restock
 * operations over them.  The e-mail service is represented by the list of
 * alerts handed to it, and inventory.csv by the rows last written to it.
 */
module Inventory {
  import opened Stock
  import JsonScan

  /** A response with the given status word and message:
      {"success":<status>,"message":"<msg>"}. */
  function Response(status: string, msg: string): string {
    "{\"success\":" + status + ",\"message\":\"" + msg + "\"}"
  }

  /** The status of a response reads back, with the scanner of the recipe
      loader, as its status word. */
  lemma StatusReadsBack(status: string, msg: string)
    requires status == "true" || status == "false"
    ensures JsonScan.IndexOf(Response(status, msg), "\"success\":") == 1
    ensures JsonScan.ValueFrom(Response(status, msg), 11) == status
  {
    var s := Response(status, msg);
    var sk := "\"success\":";
    assert s[1..11] == sk;
    assert s[0] == '{';
    assert !JsonScan.OccursAt(s, sk, 0) by {
      assert s[0..10][0] == s[0];
    }
    JsonScan.IndexOfIs(s, sk, 1);
    assert s[11..11 + |status|] == status;
    assert s[11 + |status|] == ',';
    assert JsonScan.SkipSeparators(s, 11) == 11;
    JsonScan.PlainValueEnd(s, 11, status);
    JsonScan.TrimKeeps(status);
  }

  /** The message key of a response first occurs right after the status. */
  lemma MessageKeyAt(status: string, msg: string)
    requires status == "true" || status == "false"
    ensures JsonScan.IndexOf(Response(status, msg), "\"message\":") == 12 + |status|
  {
    var pre := "{\"success\":" + status + ",\"";
    var s := Response(status, msg);
    assert s == pre + ("message\":\"" + msg + "\"}");
    var mk := "\"message\":";
    var p := 12 + |status|;
    assert |pre| == p + 1;
    assert s[p..p + 10] == mk;
    assert 'm' !in pre;
    forall q | 0 <= q < p
      ensures !JsonScan.OccursAt(s, mk, q)
    {
      var c := s[q + 1];
      assert c == pre[q + 1];
      assert c in pre;
      if q + 10 <= |s| {
        assert s[q..q + 10][1] == c;
      }
    }
    JsonScan.IndexOfIs(s, mk, p);
  }

  /** The message key of a response stands right after the status, and the
      message of a response free of double quotes reads back as that message
      in its quotes. */
  lemma MessageReadsBack(status: string, msg: string)
    requires status == "true" || status == "false"
    ensures JsonScan.IndexOf(Response(status, msg), "\"message\":") == 12 + |status|
    ensures '"' !in msg ==>
              JsonScan.ValueFrom(Response(status, msg), 22 + |status|) == "\"" + msg + "\""
  {
    MessageKeyAt(status, msg);
    if '"' !in msg {
      var s := Response(status, msg);
      var st := 22 + |status|;
      var w := "\"" + msg + "\"";
      assert s == ("{\"success\":" + status + ",\"message\":") + (w + "}");
      assert s[st..st + |msg| + 2] == w;
      assert s[st] == '"';
      assert JsonScan.SkipSeparators(s, st) == st;
      assert s[st + |msg| + 2] == '}';
      JsonScan.QuotedValueEnd(s, st, msg);
      JsonScan.TrimKeeps(w);
    }
  }

  /** error: the failure response.  Read back with the recipe scanner, its
      status is false and, for a message free of double quotes, its message
      is msg. */
  function ErrorJson(msg: string): (r: string)
    ensures |r| == 30 + |msg|
    ensures JsonScan.IndexOf(r, "\"success\":") == 1
    ensures JsonScan.ValueFrom(r, 11) == "false"
    ensures '"' !in msg ==> JsonScan.ValueFrom(r, 27) == "\"" + msg + "\""
  {
    StatusReadsBack("false", msg);
    MessageReadsBack("false", msg);
    Response("false", msg)
  }

  /** success: the success response.  Read back with the recipe scanner, its
      status is true and, for a message free of double quotes, its message
      is msg. */
  function SuccessJson(msg: string): (r: string)
    ensures |r| == 29 + |msg|
    ensures JsonScan.IndexOf(r, "\"success\":") == 1
    ensures JsonScan.ValueFrom(r, 11) == "true"
    ensures '"' !in msg ==> JsonScan.ValueFrom(r, 26) == "\"" + msg + "\""
  {
    StatusReadsBack("true", msg);
    MessageReadsBack("true", msg);
    Response("true", msg)
  }

  /** One inventory entry of getJsonData. */
  datatype ItemView = ItemView(id: int, name: string, stock: real, unit: string, low: bool)

  /** One menu entry of getJsonData. */
  datatype DishView = DishView(id: int, name: string, price: real)

  class InventoryService {
    var inventory: Inventory
    /** The key set of inventory, in the hash map's iteration order. */
    var itemIds: seq<int>
    var menu: map<int, Recipe>
    /** The keys of menu in insertion order (a LinkedHashMap). */
    var menuIds: seq<int>
    /** Every low-stock alert handed to the e-mail service, in order. */
    var sentAlerts: seq<Alert>
    /** The rows of the last inventory.csv written. */
    var savedRows: seq<Item>

    ghost predicate Valid()
      reads this
    {
      && KeyedById(inventory)
      && ListsKeys(itemIds, inventory)
      && (forall id :: id in menu ==> menu[id].id == id && DistinctIds(menu[id].ingredients))
      && Distinct(menuIds)
      && (forall i :: 0 <= i < |menuIds| ==> menuIds[i] in menu)
      && (forall id :: id in menu ==> id in menuIds)
    }

    constructor ()
      ensures Valid()
      ensures inventory == map[] && menu == map[] && itemIds == [] && menuIds == []
      ensures sentAlerts == [] && savedRows == []
    {
      inventory := map[];
      itemIds := [];
      menu := map[];
      menuIds := [];
      sentAlerts := [];
      savedRows := [];
    }

    /** One inventory.csv row read by loadStock: the record is put under its id. */
    method PutItem(item: Item)
      requires Valid()
      modifies this
      ensures Valid()
      ensures inventory == old(inventory)[item.id := item]
      ensures itemIds == old(itemIds) + (if item.id in old(inventory) then [] else [item.id])
      ensures menu == old(menu) && menuIds == old(menuIds)
      ensures sentAlerts == old(sentAlerts) && savedRows == old(savedRows)
    {
      if item.id !in inventory {
        itemIds := itemIds + [item.id];
      }
      inventory := inventory[item.id := item];
    }

    /** One recipe read by loadMenuFromJson: it is put under its id; a new id
        goes to the end of the menu order, a known one keeps its place. */
    method PutRecipe(r: Recipe)
      requires Valid() && DistinctIds(r.ingredients)
      modifies this
      ensures Valid()
      ensures menu == old(menu)[r.id := r]
      ensures menuIds == old(menuIds) + (if r.id in old(menu) then [] else [r.id])
      ensures inventory == old(inventory) && itemIds == old(itemIds)
      ensures sentAlerts == old(sentAlerts) && savedRows == old(savedRows)
    {
      if r.id !in menu {
        menuIds := menuIds + [r.id];
      }
      menu := menu[r.id := r];
    }

    /** saveInventory: one row per record, in increasing id order. */
    method SaveInventory()
      requires Valid()
      modifies this
      ensures Valid()
      ensures savedRows == Snapshot(inventory, itemIds)
      ensures inventory == old(inventory) && itemIds == old(itemIds)
      ensures menu == old(menu) && menuIds == old(menuIds) && sentAlerts == old(sentAlerts)
    {
      var sorted := SortIds(itemIds);
      var rows: seq<Item> := [];
      for i := 0 to |sorted|
        invariant |rows| == i
        invariant forall j :: 0 <= j < i ==> sorted[j] in inventory && rows[j] == inventory[sorted[j]]
      {
        assert sorted[i] in sorted;
        rows := rows + [inventory[sorted[i]]];
      }
      savedRows := rows;
    }

    /** restockItem: an existing item gains qty and the file is rewritten;
        an unknown id changes nothing. */
    method RestockItem(id: int, qty: real) returns (found: bool)
      requires Valid()
      modifies this
      ensures Valid()
      ensures found <==> id in old(inventory)
      ensures inventory == Restock(old(inventory), id, qty)
      ensures found ==> savedRows == Snapshot(inventory, itemIds)
      ensures !found ==> savedRows == old(savedRows)
      ensures itemIds == old(itemIds) && menu == old(menu) && menuIds == old(menuIds)
      ensures sentAlerts == old(sentAlerts)
    {
      if id in inventory {
        var item := inventory[id];
        inventory := inventory[id := item.(stock := item.stock + qty)];
        SaveInventory();
        return true;
      }
      return false;
    }

    /** processOrder: "Item not found" for an unknown dish; otherwise the
        availability check over the ingredients, in iteration order, stops
        at the first short one and changes nothing; when none is short every
        ingredient is deducted, each one that ends at or below its threshold
        is reported, and the file is rewritten. */
    method ProcessOrder(menuId: int) returns (response: string)
      requires Valid()
      modifies this
      ensures Valid()
      ensures itemIds == old(itemIds) && menu == old(menu) && menuIds == old(menuIds)
      ensures menuId !in menu ==>
                && response == ErrorJson("Item not found")
                && inventory == old(inventory)
                && sentAlerts == old(sentAlerts) && savedRows == old(savedRows)
      ensures menuId in menu && FirstShort(old(inventory), menu[menuId].ingredients) != -1 ==>
                var ings := menu[menuId].ingredients;
                var k := FirstShort(old(inventory), ings);
                && response == ErrorJson("Out of stock: " + ShortName(old(inventory), ings[k].itemId))
                && inventory == old(inventory)
                && sentAlerts == old(sentAlerts) && savedRows == old(savedRows)
      ensures menuId in menu && FirstShort(old(inventory), menu[menuId].ingredients) == -1 ==>
                var ings := menu[menuId].ingredients;
                && response == SuccessJson("Sold " + menu[menuId].name)
                && inventory == Deduct(old(inventory), ings)
                && sentAlerts == old(sentAlerts) + SaleAlerts(old(inventory), ings)
                && savedRows == Snapshot(inventory, itemIds)
    {
      if menuId !in menu {
        return ErrorJson("Item not found");
      }
      var r := menu[menuId];
      var k := FindShort(r.ingredients);
      if k != -1 {
        var id := r.ingredients[k].itemId;
        var name := if id in inventory then inventory[id].name else "Unknown";
        return ErrorJson("Out of stock: " + name);
      }
      FirstShortIffUnavailable(inventory, r.ingredients);
      CommitSale(r.ingredients);
      SaveInventory();
      response := SuccessJson("Sold " + r.name);
    }

    /** The availability loop of processOrder: the first ingredient, in
        iteration order, that is missing or below its required quantity. */
    method FindShort(ings: seq<Ingredient>) returns (k: int)
      ensures k == -1 <==> Available(inventory, ings)
      ensures k != -1 ==> 0 <= k < |ings| && IsShort(inventory, ings[k].itemId, ings[k].qty)
      ensures k == FirstShort(inventory, ings)
    {
      for i := 0 to |ings|
        invariant forall j :: 0 <= j < i ==> !IsShort(inventory, ings[j].itemId, ings[j].qty)
      {
        var id := ings[i].itemId;
        if id !in inventory || inventory[id].stock < ings[i].qty {
          return i;
        }
      }
      return -1;
    }

    /** One more entry of the commit phase: the next Take and the alert it may raise. */
    static lemma SaleStep(inv: Inventory, ings: seq<Ingredient>, i: nat)
      requires i < |ings|
      ensures Deduct(inv, ings[..i + 1]) == Take(Deduct(inv, ings[..i]), ings[i])
      ensures var after := Deduct(inv, ings[..i + 1]);
              var id := ings[i].itemId;
              SaleAlerts(inv, ings[..i + 1])
                == SaleAlerts(inv, ings[..i]) + (if id in after && IsLow(after[id]) then [AlertFor(after[id])] else [])
    {
      assert ings[..i + 1][..i] == ings[..i];
    }

    /** The deduction loop of processOrder: each ingredient loses its
        quantity, and an alert goes out for each one left at or below its
        threshold. */
    method CommitSale(ings: seq<Ingredient>)
      requires Valid() && DistinctIds(ings) && Available(inventory, ings)
      modifies this
      ensures Valid()
      ensures inventory == Deduct(old(inventory), ings)
      ensures sentAlerts == old(sentAlerts) + SaleAlerts(old(inventory), ings)
      ensures itemIds == old(itemIds) && menu == old(menu) && menuIds == old(menuIds)
      ensures savedRows == old(savedRows)
    {
      ghost var before := inventory;
      for i := 0 to |ings|
        invariant inventory == Deduct(before, ings[..i])
        invariant inventory.Keys == before.Keys
        invariant sentAlerts == old(sentAlerts) + SaleAlerts(before, ings[..i])
        invariant itemIds == old(itemIds) && menu == old(menu) && menuIds == old(menuIds)
        invariant savedRows == old(savedRows)
      {
        var id := ings[i].itemId;
        SaleStep(before, ings, i);
        assert !IsShort(before, id, ings[i].qty);
        ghost var current := inventory;
        var item := inventory[id];
        item := item.(stock := item.stock - ings[i].qty);
        inventory := inventory[id := item];
        assert inventory == Take(current, ings[i]);
        if item.stock <= item.threshold {
          sentAlerts := sentAlerts + [AlertFor(item)];
        }
      }
      assert ings[..|ings|] == ings;
      DeductKeepsRecords(before, ings);
    }

    /** getJsonData: every record with its low flag, in the inventory's
        iteration order, and every dish in menu order. */
    method GetJsonData() returns (items: seq<ItemView>, dishes: seq<DishView>)
      requires Valid()
      ensures |items| == |itemIds|
      ensures forall i :: 0 <= i < |items| ==>
                var item := inventory[itemIds[i]];
                items[i] == ItemView(item.id, item.name, item.stock, item.unit, items[i].low)
                && (items[i].low <==> IsLow(item))
      ensures |dishes| == |menuIds|
      ensures forall i :: 0 <= i < |dishes| ==>
                var r := menu[menuIds[i]];
                dishes[i] == DishView(r.id, r.name, r.price)
    {
      items := [];
      for i := 0 to |itemIds|
        invariant |items| == i
        invariant forall j :: 0 <= j < i ==>
                    var item := inventory[itemIds[j]];
                    items[j] == ItemView(item.id, item.name, item.stock, item.unit, item.stock <= item.threshold)
      {
        var item := inventory[itemIds[i]];
        items := items + [ItemView(item.id, item.name, item.stock, item.unit, item.stock <= item.threshold)];
      }
      dishes := [];
      for j := 0 to |menuIds|
        invariant |dishes| == j
        invariant forall k :: 0 <= k < j ==>
                    var r := menu[menuIds[k]];
                    dishes[k] == DishView(r.id, r.name, r.price)
      {
        var r := menu[menuIds[j]];
        dishes := dishes + [DishView(r.id, r.name, r.price)];
      }
    }
  }

  /** A successful order keeps every stock non-negative, keeps the service's
      invariant, and restocking its ingredients undoes it. */
  lemma SaleIsSafe(inv: Inventory, r: Recipe)
    requires DistinctIds(r.ingredients) && NonNegative(inv)
    requires FirstShort(inv, r.ingredients) == -1
    ensures NonNegative(Deduct(inv, r.ingredients))
    ensures RestockAll(Deduct(inv, r.ingredients), r.ingredients) == inv
  {
    FirstShortIffUnavailable(inv, r.ingredients);
    SaleKeepsStockNonNegative(inv, r.ingredients);
    RestockUndoesSale(inv, r.ingredients);
  }
}
