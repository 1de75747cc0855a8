/**
 * Laws of the Firestore ticket operations that relate several calls or pin
 * down the consequences of reading every stock value before the commit:
 * stock stays non-negative, repeated entries for one part do not add up, and
 * deleting a freshly created ticket undoes it except where the decrement was
 * clamped at zero.
 */
module FirestoreLaws {
  import opened Wrappers
  import opened Types
  import opened Seqs
  import opened Batch
  import opened FirestoreStore

  /** Every stored part has a non-negative quantity. */
  ghost predicate StockNonNegative(s: Store) {
    forall p :: p in s.spareParts ==> s.spareParts[p].quantity >= 0
  }

  /** `addRepair` never drives a quantity below zero, whatever the entries ask for. */
  lemma AddRepairKeepsStock(
    s: Store, brands: seq<Brand>, models: seq<Model>,
    t: Ticket, used: seq<UsedPart>, repairId: Id, rowIds: seq<Id>, now: Time)
    requires |rowIds| == |used|
    requires StockNonNegative(s)
    ensures StockNonNegative(AddRepair(s, brands, models, t, used, repairId, rowIds, now).store)
  {
    AddRepairStock(s, brands, models, t, used, repairId, rowIds, now);
  }

  /** `deleteRepair` keeps quantities non-negative as long as the rows it returns hold non-negative usages. */
  lemma DeleteRepairKeepsStock(s: Store, id: Id, rows: seq<RepairPart>, now: Time)
    requires QueryRows(s, id, rows)
    requires StockNonNegative(s)
    requires forall i :: 0 <= i < |rows| ==> rows[i].quantityUsed >= 0
    ensures StockNonNegative(DeleteRepair(s, id, rows, now))
  {
    DeleteRepairStock(s, id, rows, now);
    forall p | p in s.spareParts
      ensures DeleteRepair(s, id, rows, now).spareParts[p].quantity >= 0
    {
      var last := LastUse(Usages(rows), p);
      if last.Some? {
        var i :| LastUseAt(Usages(rows), p, i) && Usages(rows)[i] == last.value;
        assert last.value.quantityUsed == rows[i].quantityUsed;
      }
    }
  }

  // ----- concrete scenarios -----

  function SamplePart(quantity: int): SparePart {
    SparePart("b", "screen", "screen", None, "apple", "iphone-12", quantity, 50, 80, 2, 0, 0)
  }

  function SampleTicket(): Ticket {
    Ticket("Ali", "0550", "apple", "iphone-12", "screen", "", 20, 100, 30, Pending)
  }

  function StoreWithPart(quantity: int): Store {
    Store(map[], map["b" := SamplePart(quantity)], map[], map[])
  }

  /**
   * Two entries for the same part, using 3 and then 5 of a stock of 10, leave
   * 5 and not 2: both decrements are computed from the quantity read before
   * the commit, and the second write replaces the first.
   */
  lemma RepeatedEntriesDoNotAccumulate()
    ensures var used := [UsedPart("b", 3, 80), UsedPart("b", 5, 80)];
      var r := AddRepair(StoreWithPart(10), [], [], SampleTicket(), used, "t1", ["r1", "r2"], 7).store;
      && "b" in r.spareParts && r.spareParts["b"].quantity == 5
      && r.repairParts.Keys == {"r1", "r2"}
  {
    var used := [UsedPart("b", 3, 80), UsedPart("b", 5, 80)];
    var s := StoreWithPart(10);
    AddRepairStock(s, [], [], SampleTicket(), used, "t1", ["r1", "r2"], 7);
    AddRepairRows(s, [], [], SampleTicket(), used, "t1", ["r1", "r2"], 7);
    LastUseUnique(used[..1], "b", 0);
    assert used[..1] == used[..|used| - 1];
  }

  /** Using 5 of a stock of 2 leaves 0: the decrement is clamped rather than refused. */
  lemma OverdrawIsClamped()
    ensures var used := [UsedPart("b", 5, 80)];
      var r := AddRepair(StoreWithPart(2), [], [], SampleTicket(), used, "t1", ["r1"], 7).store;
      "b" in r.spareParts && r.spareParts["b"].quantity == 0
  {
    var used := [UsedPart("b", 5, 80)];
    AddRepairStock(StoreWithPart(2), [], [], SampleTicket(), used, "t1", ["r1"], 7);
    LastUseUnique(used, "b", 0);
  }

  // ----- add, then delete -----

  /** No two entries name the same part. */
  ghost predicate DistinctParts(used: seq<UsedPart>) {
    forall i, j :: 0 <= i < j < |used| ==> used[i].sparePartId != used[j].sparePartId
  }

  /** The ids `addRepair` is given are new: no such ticket, no such rows, and no row already points at the ticket. */
  ghost predicate FreshIds(s: Store, repairId: Id, rowIds: seq<Id>) {
    && repairId !in s.repairs
    && Distinct(rowIds)
    && (forall i :: 0 <= i < |rowIds| ==> rowIds[i] !in s.repairParts)
    && (forall k :: k in s.repairParts ==> s.repairParts[k].repairId != repairId)
  }

  /**
   * Quantity of a part after a decrement clamped at zero and the matching
   * increment: the original quantity exactly when it covered the usage, and
   * the usage itself (more than was there) when it did not.
   */
  function RoundTripQuantity(q: int, last: Option<UsedPart>): (r: int)
    ensures last.None? ==> r == q
    ensures last.Some? ==> (r == q <==> last.value.quantityUsed <= q)
    ensures last.Some? && q < last.value.quantityUsed ==> r == last.value.quantityUsed && r > q
  {
    match last
    case None => q
    case Some(u) => Max0(q - u.quantityUsed) + u.quantityUsed
  }

  /** Each row the query returns after `addRepair` with fresh ids is the usage row of one entry. */
  lemma QueriedRowIsEntry(
    s: Store, brands: seq<Brand>, models: seq<Model>,
    t: Ticket, used: seq<UsedPart>, repairId: Id, rowIds: seq<Id>, now: Time,
    rows: seq<RepairPart>, i: int)
    requires |rowIds| == |used| && FreshIds(s, repairId, rowIds)
    requires QueryRows(AddRepair(s, brands, models, t, used, repairId, rowIds, now).store, repairId, rows)
    requires 0 <= i < |rows|
    ensures exists j :: 0 <= j < |used| && rows[i].id == rowIds[j] && AsUsed(rows[i]) == used[j]
  {
    var s1 := AddRepair(s, brands, models, t, used, repairId, rowIds, now).store;
    AddRepairRows(s, brands, models, t, used, repairId, rowIds, now);
    var k := rows[i].id;
    assert k in s1.repairParts && s1.repairParts[k].repairId == repairId;
    if k !in rowIds {
      assert false;
    }
    var j :| 0 <= j < |rowIds| && rowIds[j] == k;
    assert rows[i] == UsageRow(rowIds[j], repairId, used[j], now);
  }

  /**
   * With fresh ids and one entry per part, the rows the query returns after
   * `addRepair` name each part with the same entry `addRepair` used, whatever
   * order the query returns them in.
   */
  lemma QueriedUsagesAgree(
    s: Store, brands: seq<Brand>, models: seq<Model>,
    t: Ticket, used: seq<UsedPart>, repairId: Id, rowIds: seq<Id>, now: Time,
    rows: seq<RepairPart>, p: Id)
    requires |rowIds| == |used| && FreshIds(s, repairId, rowIds) && DistinctParts(used)
    requires QueryRows(AddRepair(s, brands, models, t, used, repairId, rowIds, now).store, repairId, rows)
    ensures LastUse(Usages(rows), p) == LastUse(used, p)
  {
    var s1 := AddRepair(s, brands, models, t, used, repairId, rowIds, now).store;
    var us := Usages(rows);
    if LastUse(used, p).None? {
      forall i | 0 <= i < |rows|
        ensures us[i].sparePartId != p
      {
        QueriedRowIsEntry(s, brands, models, t, used, repairId, rowIds, now, rows, i);
      }
    } else {
      var j0 :| LastUseAt(used, p, j0) && used[j0] == LastUse(used, p).value;
      LastUseUnique(used, p, j0);
      AddRepairRows(s, brands, models, t, used, repairId, rowIds, now);
      assert rowIds[j0] in s1.repairParts && s1.repairParts[rowIds[j0]].repairId == repairId;
      assert rowIds[j0] in RowIds(rows);
      var i0 :| 0 <= i0 < |rows| && RowIds(rows)[i0] == rowIds[j0];
      assert rows[i0] == s1.repairParts[rowIds[j0]];
      assert us[i0] == used[j0];
      forall i | 0 <= i < |rows| && i != i0
        ensures us[i].sparePartId != p
      {
        QueriedRowIsEntry(s, brands, models, t, used, repairId, rowIds, now, rows, i);
        var j :| 0 <= j < |used| && rows[i].id == rowIds[j] && AsUsed(rows[i]) == used[j];
        assert RowIds(rows)[i] != RowIds(rows)[i0];
        assert j != j0;
      }
      LastUseUnique(us, p, i0);
    }
  }

  /** Deleting a freshly created ticket leaves the brands and tickets as they were before it was created. */
  lemma AddThenDeleteTickets(
    s: Store, brands: seq<Brand>, models: seq<Model>,
    t: Ticket, used: seq<UsedPart>, repairId: Id, rowIds: seq<Id>, now: Time,
    rows: seq<RepairPart>, later: Time)
    requires |rowIds| == |used| && FreshIds(s, repairId, rowIds)
    requires QueryRows(AddRepair(s, brands, models, t, used, repairId, rowIds, now).store, repairId, rows)
    ensures var s2 := DeleteRepair(AddRepair(s, brands, models, t, used, repairId, rowIds, now).store, repairId, rows, later);
      s2.brands == s.brands && s2.repairs == s.repairs
  {
    var s1 := AddRepair(s, brands, models, t, used, repairId, rowIds, now).store;
    AddRepairTicket(s, brands, models, t, used, repairId, rowIds, now);
    DeleteRepairTicket(s1, repairId, rows, later);
    assert s1.repairs - {repairId} == s.repairs;
  }

  /** Deleting a freshly created ticket removes exactly the usage rows its creation added. */
  lemma AddThenDeleteRows(
    s: Store, brands: seq<Brand>, models: seq<Model>,
    t: Ticket, used: seq<UsedPart>, repairId: Id, rowIds: seq<Id>, now: Time,
    rows: seq<RepairPart>, later: Time)
    requires |rowIds| == |used| && FreshIds(s, repairId, rowIds)
    requires QueryRows(AddRepair(s, brands, models, t, used, repairId, rowIds, now).store, repairId, rows)
    ensures DeleteRepair(AddRepair(s, brands, models, t, used, repairId, rowIds, now).store, repairId, rows, later).repairParts
         == s.repairParts
  {
    var s1 := AddRepair(s, brands, models, t, used, repairId, rowIds, now).store;
    var s2 := DeleteRepair(s1, repairId, rows, later);
    AddRepairRows(s, brands, models, t, used, repairId, rowIds, now);
    DeleteRepairRows(s1, repairId, rows, later);
    forall k
      ensures k in s2.repairParts <==> k in s.repairParts
      ensures k in s.repairParts ==> s2.repairParts[k] == s.repairParts[k]
    {
      if k in rowIds {
        var j :| 0 <= j < |rowIds| && rowIds[j] == k;
        assert s1.repairParts[k].repairId == repairId;
      }
    }
  }

  /** After creating and deleting a ticket, each part named by an entry holds max(0, q - u) + u. */
  lemma AddThenDeleteStock(
    s: Store, brands: seq<Brand>, models: seq<Model>,
    t: Ticket, used: seq<UsedPart>, repairId: Id, rowIds: seq<Id>, now: Time,
    rows: seq<RepairPart>, later: Time)
    requires |rowIds| == |used| && FreshIds(s, repairId, rowIds) && DistinctParts(used)
    requires QueryRows(AddRepair(s, brands, models, t, used, repairId, rowIds, now).store, repairId, rows)
    ensures var s2 := DeleteRepair(AddRepair(s, brands, models, t, used, repairId, rowIds, now).store, repairId, rows, later);
      && s2.spareParts.Keys == s.spareParts.Keys
      && (forall p :: p in s.spareParts ==>
            s2.spareParts[p].quantity == RoundTripQuantity(s.spareParts[p].quantity, LastUse(used, p)))
  {
    var s1 := AddRepair(s, brands, models, t, used, repairId, rowIds, now).store;
    AddRepairStock(s, brands, models, t, used, repairId, rowIds, now);
    DeleteRepairStock(s1, repairId, rows, later);
    forall p | p in s.spareParts
      ensures DeleteRepair(s1, repairId, rows, later).spareParts[p].quantity
           == RoundTripQuantity(s.spareParts[p].quantity, LastUse(used, p))
    {
      QueriedUsagesAgree(s, brands, models, t, used, repairId, rowIds, now, rows, p);
      ReturnAfterUse(s.spareParts[p], LastUse(used, p), now, later);
    }
  }

  lemma ReturnAfterUse(part: SparePart, last: Option<UsedPart>, now: Time, later: Time)
    ensures AfterReturn(AfterUse(part, last, now), last, later).quantity == RoundTripQuantity(part.quantity, last)
  {
  }
}
