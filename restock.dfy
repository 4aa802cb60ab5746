/**
 * The restock planner of the lumber-yard demo (pallet-builder.js): the yard's bunks, each
 * flagged or not, the `restockOrder` list kept in step with the flags, the click guard that
 * refuses full bunks, and the totals shown in the sidebar, the yard-health panel and the PDF
 * request. Rendering, camera motion and status messages are not modelled.
 */
module Restock {
  import opened Wrappers
  import StockBands

  const TRUCK_MAX_LBS: int := 48000

  /** A catalog entry: the fields the planner's arithmetic uses. */
  datatype CatalogItem = CatalogItem(id: string, capacity: int, unitWeight: int)

  /** `CATALOG`: id, bunk capacity (pieces) and unit weight (lbs) of the 20 products. */
  const CATALOG: seq<CatalogItem> := [
    CatalogItem("dim-2x4x8", 294, 9),
    CatalogItem("dim-2x4x10", 294, 11),
    CatalogItem("dim-2x4x12", 294, 14),
    CatalogItem("dim-2x6x8", 189, 14),
    CatalogItem("dim-2x6x12", 189, 21),
    CatalogItem("dim-2x8x12", 147, 28),
    CatalogItem("dim-2x10x12", 98, 35),
    CatalogItem("dim-2x12x16", 84, 56),
    CatalogItem("dim-4x4x8", 60, 22),
    CatalogItem("dim-4x4x10", 60, 28),
    CatalogItem("sht-ply34", 40, 70),
    CatalogItem("sht-ply12", 50, 48),
    CatalogItem("sht-osb", 60, 44),
    CatalogItem("sht-mdf", 30, 86),
    CatalogItem("pt-2x6x12", 120, 28),
    CatalogItem("pt-4x4x8", 48, 30),
    CatalogItem("pt-6x6x12", 24, 80),
    CatalogItem("sp-deck", 96, 16),
    CatalogItem("sp-cedar", 480, 5),
    CatalogItem("sp-landscape", 36, 18)
  ]

  /** Catalog ids are unique and every product has a positive capacity and weight. */
  lemma CatalogWellFormed()
    ensures forall i, j :: 0 <= i < j < |CATALOG| ==> CATALOG[i].id != CATALOG[j].id
    ensures forall i :: 0 <= i < |CATALOG| ==> CATALOG[i].capacity > 0 && CATALOG[i].unitWeight > 0
  {
    var ids := ["dim-2x4x8", "dim-2x4x10", "dim-2x4x12", "dim-2x6x8", "dim-2x6x12", "dim-2x8x12", "dim-2x10x12",
                "dim-2x12x16", "dim-4x4x8", "dim-4x4x10", "sht-ply34", "sht-ply12", "sht-osb", "sht-mdf", "pt-2x6x12",
                "pt-4x4x8", "pt-6x6x12", "sp-deck", "sp-cedar", "sp-landscape"];
    assert forall i, j :: 0 <= i < j < |ids| ==> ids[i] != ids[j];
    assert forall i :: 0 <= i < |CATALOG| ==> CATALOG[i].id == ids[i];
  }

  /** One bunk in the yard: a catalog item with its stock level and its restock flag. */
  class Bunk {
    const id: string
    const capacity: int
    const unitWeight: int
    const current: int
    var flagged: bool

    constructor (item: CatalogItem, current: int)
      ensures id == item.id && capacity == item.capacity && unitWeight == item.unitWeight
      ensures this.current == current && !flagged
    {
      id := item.id;
      capacity := item.capacity;
      unitWeight := item.unitWeight;
      this.current := current;
      flagged := false;
    }
  }

  // ---------------------------------------------------------------------------------------------
  // Specification functions over a list of bunks (they read only constant fields)

  /** Pieces to order for one bunk: `capacity - current`. */
  function ToOrder(b: Bunk): int
  {
    b.capacity - b.current
  }

  /** `restockOrder.filter(b => b.id !== id)`: the entries with another id, in their order. */
  function WithoutId(order: seq<Bunk>, id: string): (r: seq<Bunk>)
    ensures |r| <= |order|
    ensures forall i :: 0 <= i < |r| ==> r[i] in order && r[i].id != id
    ensures forall i :: 0 <= i < |order| && order[i].id != id ==> order[i] in r
  {
    if order == [] then []
    else if order[0].id != id then [order[0]] + WithoutId(order[1..], id)
    else WithoutId(order[1..], id)
  }

  /** The filter distributes over concatenation, so the kept entries stay in their order. */
  lemma {:induction false} WithoutIdConcat(a: seq<Bunk>, b: seq<Bunk>, id: string)
    ensures WithoutId(a + b, id) == WithoutId(a, id) + WithoutId(b, id)
  {
    if a == [] {
      assert a + b == b;
    } else {
      assert (a + b)[0] == a[0];
      assert (a + b)[1..] == a[1..] + b;
      WithoutIdConcat(a[1..], b, id);
    }
  }

  /** No bunk (equivalently, no id) appears twice. */
  predicate DistinctIds(order: seq<Bunk>)
  {
    forall i, j :: 0 <= i < j < |order| ==> order[i].id != order[j].id
  }

  lemma {:induction false} WithoutIdKeepsDistinct(order: seq<Bunk>, id: string)
    requires DistinctIds(order)
    ensures DistinctIds(WithoutId(order, id))
  {
    if order != [] {
      WithoutIdKeepsDistinct(order[1..], id);
      var rest := WithoutId(order[1..], id);
      if order[0].id != id {
        forall j | 0 <= j < |rest| ensures order[0].id != rest[j].id {
          assert rest[j] in order[1..];
        }
      }
    }
  }

  lemma AppendNewId(order: seq<Bunk>, b: Bunk)
    requires DistinctIds(order)
    requires forall k :: 0 <= k < |order| ==> order[k].id != b.id
    ensures DistinctIds(order + [b])
  {
  }

  /** Removing an id from a list without it changes nothing. */
  lemma {:induction false} WithoutAbsentId(order: seq<Bunk>, id: string)
    requires forall i :: 0 <= i < |order| ==> order[i].id != id
    ensures WithoutId(order, id) == order
  {
    if order != [] {
      WithoutAbsentId(order[1..], id);
      assert order == [order[0]] + order[1..];
    }
  }

  /** Only bunks below capacity: each contributes at least one piece and no negative weight. */
  predicate AllRestockable(order: seq<Bunk>)
  {
    forall i :: 0 <= i < |order| ==> order[i].current < order[i].capacity && order[i].unitWeight >= 0
  }

  /** A restockable order splits into a head that orders at least one piece, of non-negative
      weight, and a restockable rest. */
  lemma RestockableTail(order: seq<Bunk>)
    requires order != []
    ensures AllRestockable(order) ==> AllRestockable(order[1..])
    ensures AllRestockable(order) ==> ToOrder(order[0]) >= 1 && ToOrder(order[0]) * order[0].unitWeight >= 0
  {
    if AllRestockable(order) {
      forall i | 0 <= i < |order| - 1 ensures order[1..][i] == order[i + 1] { }
      assert ToOrder(order[0]) * order[0].unitWeight >= 0;
    }
  }

  /** Pieces to order, summed over the list (`totalQty`): an order of bunks below capacity asks
      for at least one piece per bunk. */
  function TotalQty(order: seq<Bunk>): (r: int)
    ensures AllRestockable(order) ==> r >= |order|
  {
    if order == [] then 0
    else
      RestockableTail(order);
      ToOrder(order[0]) + TotalQty(order[1..])
  }

  /** Pounds to deliver, summed over the list (`totalWeight`): never negative for bunks below
      capacity. */
  function TotalWeight(order: seq<Bunk>): (r: int)
    ensures AllRestockable(order) ==> r >= 0
  {
    if order == [] then 0
    else
      RestockableTail(order);
      ToOrder(order[0]) * order[0].unitWeight + TotalWeight(order[1..])
  }

  lemma {:induction false} TotalsAppend(order: seq<Bunk>, b: Bunk)
    ensures TotalQty(order + [b]) == TotalQty(order) + ToOrder(b)
    ensures TotalWeight(order + [b]) == TotalWeight(order) + ToOrder(b) * b.unitWeight
  {
    if order != [] {
      assert (order + [b])[1..] == order[1..] + [b];
      TotalsAppend(order[1..], b);
    } else {
      assert [] + [b] == [b];
    }
  }

  // ---------------------------------------------------------------------------------------------
  // Sidebar load bar

  datatype LoadLevel = Normal | Warn | Danger

  /** `Math.min(totalWeight / TRUCK_MAX_LBS, 1)`. */
  function LoadFraction(totalWeight: int): (f: real)
    ensures f <= 1.0
  {
    var f := totalWeight as real / TRUCK_MAX_LBS as real;
    if f < 1.0 then f else 1.0
  }

  /** The load bar's class: `danger` above 0.9 of a truck, `warn` above 0.7; in pounds, `danger`
      iff more than 43 200 lbs and `warn` iff more than 33 600 and at most 43 200. */
  function LoadLevelOf(totalWeight: int): (level: LoadLevel)
    ensures level == Danger <==> totalWeight > 43200
    ensures level == Warn <==> 33600 < totalWeight <= 43200
    ensures level == Normal <==> totalWeight <= 33600
  {
    var w := totalWeight as real;
    StockBands.DivCompare(w, 48000.0, 0.9);
    StockBands.DivCompare(w, 48000.0, 0.7);
    StockBands.DivCompare(w, 48000.0, 1.0);
    var f := LoadFraction(totalWeight);
    if f > 0.9 then Danger else if f > 0.7 then Warn else Normal
  }

  // ---------------------------------------------------------------------------------------------
  // Yard health panel

  /** The yard-health counts `(full, low, crit)`: `pct >= 0.5` counts as full, `pct >= 0.2` as low,
      anything else as critical. */
  function HealthCounts(bunks: seq<Bunk>): (r: (nat, nat, nat))
    ensures r.0 + r.1 + r.2 == |bunks|
  {
    if bunks == [] then (0, 0, 0)
    else
      var rest := HealthCounts(bunks[..|bunks| - 1]);
      var b := bunks[|bunks| - 1];
      var pct := StockBands.Pct(b.current, b.capacity);
      if pct >= 0.5 then (rest.0 + 1, rest.1, rest.2)
      else if pct >= 0.2 then (rest.0, rest.1 + 1, rest.2)
      else (rest.0, rest.1, rest.2 + 1)
  }

  /** Bunks in the Full or OK band. */
  function CountAtLeastOk(bunks: seq<Bunk>): nat
  {
    if bunks == [] then 0
    else
      var b := bunks[|bunks| - 1];
      var band := StockBands.StockBand(b.current, b.capacity);
      CountAtLeastOk(bunks[..|bunks| - 1]) + (if band == StockBands.Full || band == StockBands.Ok then 1 else 0)
  }

  /** The panel's "full" figure is the Full and OK bands together, not the Full band alone. */
  lemma {:induction false} HealthFullIsAtLeastOk(bunks: seq<Bunk>)
    ensures HealthCounts(bunks).0 == CountAtLeastOk(bunks)
  {
    if bunks != [] {
      var b := bunks[|bunks| - 1];
      HealthFullIsAtLeastOk(bunks[..|bunks| - 1]);
      StockBands.PctBand(b.current, b.capacity);
    }
  }

  // ---------------------------------------------------------------------------------------------
  // PDF request payload (`generatePdf`)

  /** One line of the PDF request: pieces to order and their weight. */
  datatype OrderLine = OrderLine(id: string, toOrder: int, totalWeight: int)

  /** The request's totals; `totalCost` and the images are not modelled. */
  datatype Payload = Payload(items: seq<OrderLine>, totalWeight: int, totalPieces: int, totalBunks: nat)

  function OrderLines(order: seq<Bunk>): (r: seq<OrderLine>)
    ensures |r| == |order|
  {
    if order == [] then []
    else [OrderLine(order[0].id, ToOrder(order[0]), ToOrder(order[0]) * order[0].unitWeight)] + OrderLines(order[1..])
  }

  /** `items.reduce((s, i) => s + i.totalWeight, 0)`: a left fold. */
  function SumWeightFrom(acc: int, items: seq<OrderLine>): (r: int)
    decreases |items|
    ensures (forall i :: 0 <= i < |items| ==> items[i].totalWeight >= 0) ==> r >= acc
  {
    if items == [] then acc else SumWeightFrom(acc + items[0].totalWeight, items[1..])
  }

  /** `items.reduce((s, i) => s + i.toOrder, 0)`: a left fold. */
  function SumPiecesFrom(acc: int, items: seq<OrderLine>): (r: int)
    decreases |items|
    ensures (forall i :: 0 <= i < |items| ==> items[i].toOrder >= 0) ==> r >= acc
  {
    if items == [] then acc else SumPiecesFrom(acc + items[0].toOrder, items[1..])
  }

  /** The body `generatePdf` posts, or None when the order is empty (it returns at once). */
  function PdfPayload(order: seq<Bunk>): (p: Option<Payload>)
    ensures p.None? <==> order == []
  {
    if order == [] then None
    else
      var items := OrderLines(order);
      Some(Payload(items, SumWeightFrom(0, items), SumPiecesFrom(0, items), |items|))
  }

  lemma {:induction false} FoldsMatchTotals(acc: int, order: seq<Bunk>)
    ensures SumPiecesFrom(acc, OrderLines(order)) == acc + TotalQty(order)
    ensures SumWeightFrom(acc, OrderLines(order)) == acc + TotalWeight(order)
    decreases |order|
  {
    if order != [] {
      var lines := OrderLines(order);
      assert lines[1..] == OrderLines(order[1..]);
      FoldsMatchTotals(acc + ToOrder(order[0]), order[1..]);
      FoldsMatchTotals(acc + ToOrder(order[0]) * order[0].unitWeight, order[1..]);
    }
  }

  /** The PDF request carries the sidebar's figures: as many bunks as the order, and the same
      piece and weight totals. */
  lemma PdfPayloadMatchesSidebar(order: seq<Bunk>)
    requires order != []
    ensures PdfPayload(order).value.totalBunks == |order|
    ensures PdfPayload(order).value.totalPieces == TotalQty(order)
    ensures PdfPayload(order).value.totalWeight == TotalWeight(order)
  {
    FoldsMatchTotals(0, order);
  }

  // ---------------------------------------------------------------------------------------------
  // The yard

  /** A non-empty order of flagged bunks drawn from the yard shows a flagged bunk in the yard. */
  lemma FlaggedWitness(order: seq<Bunk>, bunks: seq<Bunk>)
    requires order != []
    requires forall k :: 0 <= k < |order| ==> order[k] in bunks
    requires forall j :: 0 <= j < |bunks| ==> (bunks[j].flagged <==> bunks[j] in order)
    ensures exists j :: 0 <= j < |bunks| && bunks[j].flagged
  {
    assert order[0] in bunks;
    var j :| 0 <= j < |bunks| && bunks[j] == order[0];
    assert bunks[j] in order;
  }

  /** `bunkData` and `restockOrder`. */
  class Yard {
    var bunkData: seq<Bunk>
    var restockOrder: seq<Bunk>

    /** Ids are unique, every capacity is positive, and `restockOrder` holds exactly the flagged
        bunks of the yard, each once. */
    ghost predicate Valid()
      reads this, bunkData
    {
      && DistinctIds(bunkData)
      && (forall i :: 0 <= i < |bunkData| ==> bunkData[i].capacity > 0)
      && DistinctIds(restockOrder)
      && (forall i :: 0 <= i < |restockOrder| ==> restockOrder[i] in bunkData)
      && (forall i :: 0 <= i < |bunkData| ==> (bunkData[i].flagged <==> bunkData[i] in restockOrder))
    }

    /** Every flagged bunk is below capacity (the click guard's promise). */
    ghost predicate OnlyRestockableFlagged()
      reads this, bunkData
    {
      forall i :: 0 <= i < |bunkData| && bunkData[i].flagged ==> bunkData[i].current < bunkData[i].capacity
    }

    /** The flags, in yard order. */
    ghost function Flags(): seq<bool>
      reads this, bunkData
    {
      seq(|bunkData|, i reads this, bunkData requires 0 <= i < |bunkData| => bunkData[i].flagged)
    }

    constructor ()
      ensures bunkData == [] && restockOrder == [] && Valid()
    {
      bunkData := [];
      restockOrder := [];
    }

    /** `buildYard()` with the random fill levels given: fresh bunks for the catalog, none flagged,
        an empty order. */
    method BuildYard(fills: seq<int>)
      requires |fills| == |CATALOG|
      modifies this
      ensures |bunkData| == |CATALOG| && restockOrder == []
      ensures forall i :: 0 <= i < |CATALOG| ==>
        && fresh(bunkData[i]) && bunkData[i].id == CATALOG[i].id && bunkData[i].capacity == CATALOG[i].capacity
        && bunkData[i].unitWeight == CATALOG[i].unitWeight && bunkData[i].current == fills[i] && !bunkData[i].flagged
      ensures Valid() && OnlyRestockableFlagged()
    {
      CatalogWellFormed();
      var items: seq<Bunk> := [];
      var k := 0;
      while k < |CATALOG|
        invariant 0 <= k <= |CATALOG| && |items| == k
        invariant forall i :: 0 <= i < k ==>
          && fresh(items[i]) && items[i].id == CATALOG[i].id && items[i].capacity == CATALOG[i].capacity
          && items[i].unitWeight == CATALOG[i].unitWeight && items[i].current == fills[i] && !items[i].flagged
      {
        var b := new Bunk(CATALOG[k], fills[k]);
        items := items + [b];
        k := k + 1;
      }
      bunkData := items;
      restockOrder := [];
    }

    /** `toggleFlag(idx)`: flip one bunk's flag; a newly flagged bunk is appended to the order, an
        unflagged one removed from it by id. */
    method ToggleFlag(idx: nat)
      requires Valid() && idx < |bunkData|
      modifies this, bunkData[idx]
      ensures Valid()
      ensures bunkData == old(bunkData)
      ensures bunkData[idx].flagged == !old(bunkData[idx].flagged)
      ensures forall j :: 0 <= j < |bunkData| && j != idx ==> bunkData[j].flagged == old(bunkData[j].flagged)
      ensures restockOrder == if bunkData[idx].flagged then old(restockOrder) + [bunkData[idx]]
                              else WithoutId(old(restockOrder), bunkData[idx].id)
      ensures old(bunkData[idx].flagged || bunkData[idx].current < bunkData[idx].capacity) && old(OnlyRestockableFlagged())
              ==> OnlyRestockableFlagged()
    {
      var bunk := bunkData[idx];
      assert forall j :: 0 <= j < |bunkData| && j != idx ==> bunkData[j].id != bunk.id;
      bunk.flagged := !bunk.flagged;
      if bunk.flagged {
        forall k | 0 <= k < |restockOrder| ensures restockOrder[k].id != bunk.id {
          assert restockOrder[k] in bunkData;
        }
        AppendNewId(restockOrder, bunk);
        restockOrder := restockOrder + [bunk];
      } else {
        WithoutIdKeepsDistinct(restockOrder, bunk.id);
        restockOrder := WithoutId(restockOrder, bunk.id);
      }
    }

    /** The guard of `onMouseClick` / `onTouchTap` on a bunk that was hit: a bunk at or above
        capacity is refused ("fully stocked"); otherwise its flag is toggled. */
    method SelectBunk(idx: nat) returns (toggled: bool)
      requires Valid() && idx < |bunkData|
      modifies this, bunkData[idx]
      ensures Valid() && bunkData == old(bunkData)
      ensures toggled <==> old(bunkData[idx].current < bunkData[idx].capacity)
      ensures !toggled ==> Flags() == old(Flags()) && restockOrder == old(restockOrder)
      ensures toggled ==> restockOrder == if bunkData[idx].flagged then old(restockOrder) + [bunkData[idx]]
                                          else WithoutId(old(restockOrder), bunkData[idx].id)
      ensures toggled ==> Flags() == old(Flags())[idx := !old(bunkData[idx].flagged)]
      ensures old(OnlyRestockableFlagged()) ==> OnlyRestockableFlagged()
    {
      var bunk := bunkData[idx];
      if bunk.current >= bunk.capacity {
        return false;
      }
      ToggleFlag(idx);
      return true;
    }

    /** `clearSelection()`: toggle every flagged bunk, in yard order. */
    method ClearSelection()
      requires Valid()
      modifies this, bunkData
      ensures Valid() && bunkData == old(bunkData)
      ensures forall i :: 0 <= i < |bunkData| ==> !bunkData[i].flagged
      ensures restockOrder == []
    {
      var i := 0;
      while i < |bunkData|
        invariant 0 <= i <= |bunkData| && Valid() && bunkData == old(bunkData)
        invariant forall j :: 0 <= j < i ==> !bunkData[j].flagged
      {
        if bunkData[i].flagged {
          ToggleFlag(i);
        }
        i := i + 1;
      }
      if restockOrder != [] {
        FlaggedWitness(restockOrder, bunkData);
        assert false;
      }
    }

    /** The summary loop of `updateSidebar()`: bunks, pieces and pounds in the order. */
    method SidebarTotals() returns (totalItems: nat, totalQty: int, totalWeight: int)
      ensures totalItems == |restockOrder|
      ensures totalQty == TotalQty(restockOrder) && totalWeight == TotalWeight(restockOrder)
    {
      totalItems := |restockOrder|;
      totalQty, totalWeight := 0, 0;
      var k := 0;
      while k < |restockOrder|
        invariant 0 <= k <= |restockOrder|
        invariant totalQty == TotalQty(restockOrder[..k]) && totalWeight == TotalWeight(restockOrder[..k])
      {
        var b := restockOrder[k];
        var qty := b.capacity - b.current;
        TotalsAppend(restockOrder[..k], b);
        assert restockOrder[..k + 1] == restockOrder[..k] + [b];
        totalQty := totalQty + qty;
        totalWeight := totalWeight + qty * b.unitWeight;
        k := k + 1;
      }
      assert restockOrder[..k] == restockOrder;
    }

    /** `updateYardHealth()`'s loop over the yard. */
    method YardHealth() returns (full: nat, low: nat, crit: nat)
      ensures (full, low, crit) == HealthCounts(bunkData)
      ensures full + low + crit == |bunkData|
    {
      full, low, crit := 0, 0, 0;
      var k := 0;
      while k < |bunkData|
        invariant 0 <= k <= |bunkData|
        invariant (full, low, crit) == HealthCounts(bunkData[..k])
      {
        var b := bunkData[k];
        var pct := StockBands.Pct(b.current, b.capacity);
        assert bunkData[..k + 1][..k] == bunkData[..k];
        if pct >= 0.5 {
          full := full + 1;
        } else if pct >= 0.2 {
          low := low + 1;
        } else {
          crit := crit + 1;
        }
        k := k + 1;
      }
      assert bunkData[..k] == bunkData;
    }
  }
}
