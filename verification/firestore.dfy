/**
 * The repair-ticket operations of the Firestore backend.
 *
 * Creating a ticket writes the ticket, one part-usage row per used part, and
 * a stock decrement for each used part that exists; deleting a ticket returns
 * the stock of each of its rows and removes the rows and the ticket. Each
 * operation collects its writes in one batch and commits it at the end, and
 * every stock value it writes was read before the commit, from the store as
 * it was when the operation started.
 */
module FirestoreStore {
  import opened Wrappers
  import opened Types
  import opened Seqs
  import opened Batch

  /** `updateDoc` rejects when the document does not exist. */
  datatype StoreError = NotFound(id: Id)

  /** `Math.max(0, x)`. */
  function Max0(x: int): (r: int)
    ensures r >= 0 && r >= x
    ensures r == x || r == 0
  {
    if x < 0 then 0 else x
  }

  /** Entry `i` is the last entry of `used` that names part `p`. */
  ghost predicate LastUseAt(used: seq<UsedPart>, p: Id, i: int) {
    && 0 <= i < |used|
    && used[i].sparePartId == p
    && forall j :: i < j < |used| ==> used[j].sparePartId != p
  }

  /** The last entry naming part `p`: the one whose stock write survives the commit. */
  function LastUse(used: seq<UsedPart>, p: Id): (r: Option<UsedPart>)
    ensures r.None? <==> forall i :: 0 <= i < |used| ==> used[i].sparePartId != p
    ensures r.Some? ==> exists i :: LastUseAt(used, p, i) && used[i] == r.value
    decreases |used|
  {
    if |used| == 0 then None
    else if used[|used| - 1].sparePartId == p then
      assert LastUseAt(used, p, |used| - 1);
      Some(used[|used| - 1])
    else
      LastUseSnoc(used, p);
      LastUse(used[..|used| - 1], p)
  }

  lemma LastUseSnoc(used: seq<UsedPart>, p: Id)
    requires |used| > 0 && used[|used| - 1].sparePartId != p
    ensures forall i :: LastUseAt(used[..|used| - 1], p, i) ==> LastUseAt(used, p, i) && used[..|used| - 1][i] == used[i]
  {
  }

  /** The last entry naming `p` is the final entry when it names `p`, and otherwise the last one before it. */
  lemma LastUseUnfold(used: seq<UsedPart>, p: Id)
    requires |used| > 0
    ensures LastUse(used, p) ==
      if used[|used| - 1].sparePartId == p then Some(used[|used| - 1]) else LastUse(used[..|used| - 1], p)
  {
  }

  /** When exactly one entry names `p`, that entry is the last one. */
  lemma LastUseUnique(used: seq<UsedPart>, p: Id, i: int)
    requires 0 <= i < |used| && used[i].sparePartId == p
    requires forall j :: 0 <= j < |used| && j != i ==> used[j].sparePartId != p
    ensures LastUse(used, p) == Some(used[i])
  {
    var k :| LastUseAt(used, p, k) && used[k] == LastUse(used, p).value;
  }

  /** A part after `addRepair`: decremented by the last entry naming it, floored at zero. */
  function AfterUse(part: SparePart, last: Option<UsedPart>, now: Time): SparePart {
    match last
    case None => part
    case Some(u) => Stocked(part, StockSet(Max0(part.quantity - u.quantityUsed), now))
  }

  /** A part after `deleteRepair`: incremented by the last row naming it, with no ceiling. */
  function AfterReturn(part: SparePart, last: Option<UsedPart>, now: Time): SparePart {
    match last
    case None => part
    case Some(u) => Stocked(part, StockSet(part.quantity + u.quantityUsed, now))
  }

  // ===================== addRepair =====================

  /** The writes for one used part: its usage row, and a decrement if the part exists. */
  function EntryWrites(read: Store, repairId: Id, u: UsedPart, rowId: Id, now: Time): seq<Write> {
    [RowWrite(Put(rowId, UsageRow(rowId, repairId, u, now)))]
    + (if u.sparePartId in read.spareParts
       then [StockWrite(u.sparePartId, Max0(read.spareParts[u.sparePartId].quantity - u.quantityUsed), now)]
       else [])
  }

  function UsageWrites(read: Store, repairId: Id, used: seq<UsedPart>, rowIds: seq<Id>, now: Time): seq<Write>
    requires |rowIds| == |used|
    decreases |used|
  {
    if |used| == 0 then []
    else
      UsageWrites(read, repairId, used[..|used| - 1], rowIds[..|rowIds| - 1], now)
      + EntryWrites(read, repairId, used[|used| - 1], rowIds[|rowIds| - 1], now)
  }

  /** The batch `addRepair` builds: the ticket first, then the writes of each used part in order. */
  function AddRepairWrites(read: Store, repairId: Id, t: Ticket, used: seq<UsedPart>, rowIds: seq<Id>, now: Time): seq<Write>
    requires |rowIds| == |used|
  {
    [RepairWrite(Put(repairId, NewRepair(repairId, t, now)))] + UsageWrites(read, repairId, used, rowIds, now)
  }

  datatype Added = Added(store: Store, repair: Repair)

  /**
   * `addRepair(repair, usedParts)`. `repairId` and `rowIds` are the document
   * ids the backend generates (one per used part), `now` the commit time.
   * The returned ticket carries the brand and model found in the cached lists.
   */
  function AddRepair(
    s: Store, brands: seq<Brand>, models: seq<Model>,
    t: Ticket, used: seq<UsedPart>, repairId: Id, rowIds: seq<Id>, now: Time): (r: Added)
    requires |rowIds| == |used|
    ensures r.repair.id == repairId && r.repair.ticket == t
    ensures r.repair.createdAt == now && r.repair.updatedAt == now && r.repair.completedAt.None?
    ensures r.repair.brand.None? <==> forall i :: 0 <= i < |brands| ==> brands[i].id != t.deviceBrandId
    ensures r.repair.brand.Some? ==> r.repair.brand.value.id == t.deviceBrandId && r.repair.brand.value in brands
    ensures r.repair.model.None? <==> forall i :: 0 <= i < |models| ==> models[i].id != t.deviceModelId
    ensures r.repair.model.Some? ==> r.repair.model.value.id == t.deviceModelId && r.repair.model.value in models
  {
    Added(
      Commit(s, AddRepairWrites(s, repairId, t, used, rowIds, now)),
      NewRepair(repairId, t, now).(
        brand := Find(brands, (b: Brand) => b.id == t.deviceBrandId),
        model := Find(models, (m: Model) => m.id == t.deviceModelId)))
  }

  function RowPuts(repairId: Id, used: seq<UsedPart>, rowIds: seq<Id>, now: Time): (ops: seq<Op<RepairPart>>)
    requires |rowIds| == |used|
    ensures |ops| == |used|
    ensures forall i :: 0 <= i < |used| ==> ops[i] == Put(rowIds[i], UsageRow(rowIds[i], repairId, used[i], now))
  {
    seq(|used|, i requires 0 <= i < |used| => Put(rowIds[i], UsageRow(rowIds[i], repairId, used[i], now)))
  }

  lemma EntryWritesOps(read: Store, repairId: Id, u: UsedPart, rowId: Id, now: Time)
    ensures RepairOps(EntryWrites(read, repairId, u, rowId, now)) == []
    ensures RowOps(EntryWrites(read, repairId, u, rowId, now)) == [Put(rowId, UsageRow(rowId, repairId, u, now))]
  {
    var row: seq<Write> := [RowWrite(Put(rowId, UsageRow(rowId, repairId, u, now)))];
    var stock: seq<Write> :=
      if u.sparePartId in read.spareParts
      then [StockWrite(u.sparePartId, Max0(read.spareParts[u.sparePartId].quantity - u.quantityUsed), now)]
      else [];
    assert EntryWrites(read, repairId, u, rowId, now) == row + stock;
    OpsAppend(row, stock);
    assert row[..0] == [];
    if |stock| > 0 {
      assert stock[..0] == [];
    }
  }

  /** One entry writes stock only for its own part, and only when that part exists. */
  lemma EntryWritesStock(read: Store, repairId: Id, u: UsedPart, rowId: Id, now: Time, p: Id)
    ensures LastStock(EntryWrites(read, repairId, u, rowId, now), p) ==
      if u.sparePartId == p then DecrementOf(read, p, Some(u), now) else None
  {
    var row: seq<Write> := [RowWrite(Put(rowId, UsageRow(rowId, repairId, u, now)))];
    var stock: seq<Write> :=
      if u.sparePartId in read.spareParts
      then [StockWrite(u.sparePartId, Max0(read.spareParts[u.sparePartId].quantity - u.quantityUsed), now)]
      else [];
    assert EntryWrites(read, repairId, u, rowId, now) == row + stock;
    LastStockAppend(row, stock, p);
    assert row[..0] == [];
    assert LastStock(row[..0], p).None?;
    if |stock| > 0 {
      assert stock[..0] == [];
      assert LastStock(stock[..0], p).None?;
    }
  }

  /** The batch of used parts unfolds at its last entry. */
  lemma UsageWritesSnoc(read: Store, repairId: Id, used: seq<UsedPart>, rowIds: seq<Id>, now: Time)
    requires |rowIds| == |used| > 0
    ensures UsageWrites(read, repairId, used, rowIds, now)
      == UsageWrites(read, repairId, used[..|used| - 1], rowIds[..|used| - 1], now)
       + EntryWrites(read, repairId, used[|used| - 1], rowIds[|used| - 1], now)
  {
  }

  lemma RowPutsSnoc(repairId: Id, used: seq<UsedPart>, rowIds: seq<Id>, now: Time)
    requires |rowIds| == |used| > 0
    ensures RowPuts(repairId, used, rowIds, now)
      == RowPuts(repairId, used[..|used| - 1], rowIds[..|used| - 1], now)
       + [Put(rowIds[|used| - 1], UsageRow(rowIds[|used| - 1], repairId, used[|used| - 1], now))]
  {
  }

  /** The writes of a batch of used parts hold no ticket writes and one usage-row set per entry, in order. */
  lemma UsageWritesOps(read: Store, repairId: Id, used: seq<UsedPart>, rowIds: seq<Id>, now: Time)
    requires |rowIds| == |used|
    ensures RepairOps(UsageWrites(read, repairId, used, rowIds, now)) == []
    ensures RowOps(UsageWrites(read, repairId, used, rowIds, now)) == RowPuts(repairId, used, rowIds, now)
  {
    UsageWritesRepairOps(read, repairId, used, rowIds, now);
    UsageWritesRowOps(read, repairId, used, rowIds, now);
  }

  lemma {:induction false} UsageWritesRepairOps(read: Store, repairId: Id, used: seq<UsedPart>, rowIds: seq<Id>, now: Time)
    requires |rowIds| == |used|
    ensures RepairOps(UsageWrites(read, repairId, used, rowIds, now)) == []
    decreases |used|
  {
    if |used| > 0 {
      var n := |used| - 1;
      var a := UsageWrites(read, repairId, used[..n], rowIds[..n], now);
      var e := EntryWrites(read, repairId, used[n], rowIds[n], now);
      UsageWritesSnoc(read, repairId, used, rowIds, now);
      UsageWritesRepairOps(read, repairId, used[..n], rowIds[..n], now);
      EntryWritesOps(read, repairId, used[n], rowIds[n], now);
      OpsAppend(a, e);
    }
  }

  lemma {:induction false} UsageWritesRowOps(read: Store, repairId: Id, used: seq<UsedPart>, rowIds: seq<Id>, now: Time)
    requires |rowIds| == |used|
    ensures RowOps(UsageWrites(read, repairId, used, rowIds, now)) == RowPuts(repairId, used, rowIds, now)
    decreases |used|
  {
    if |used| > 0 {
      var n := |used| - 1;
      var a := UsageWrites(read, repairId, used[..n], rowIds[..n], now);
      var e := EntryWrites(read, repairId, used[n], rowIds[n], now);
      UsageWritesSnoc(read, repairId, used, rowIds, now);
      UsageWritesRowOps(read, repairId, used[..n], rowIds[..n], now);
      EntryWritesOps(read, repairId, used[n], rowIds[n], now);
      OpsAppend(a, e);
      assert RowOps(a + e) == RowPuts(repairId, used[..n], rowIds[..n], now) + [Put(rowIds[n], UsageRow(rowIds[n], repairId, used[n], now))];
      RowPutsSnoc(repairId, used, rowIds, now);
    }
  }

  /** The stock write, if any, that `addRepair` leaves on part `p` given the last entry naming it. */
  function DecrementOf(read: Store, p: Id, last: Option<UsedPart>, now: Time): Option<StockSet> {
    if p in read.spareParts && last.Some?
    then Some(StockSet(Max0(read.spareParts[p].quantity - last.value.quantityUsed), now))
    else None
  }

  /** The last stock write to part `p` is the decrement computed for the last entry naming `p`. */
  lemma {:induction false} UsageWritesStock(read: Store, repairId: Id, used: seq<UsedPart>, rowIds: seq<Id>, now: Time, p: Id)
    requires |rowIds| == |used|
    ensures LastStock(UsageWrites(read, repairId, used, rowIds, now), p) == DecrementOf(read, p, LastUse(used, p), now)
    decreases |used|
  {
    if |used| > 0 {
      var n := |used| - 1;
      UsageStockSnoc(read, repairId, used, rowIds, now, p);
      UsageWritesStock(read, repairId, used[..n], rowIds[..n], now, p);
      EntryWritesStock(read, repairId, used[n], rowIds[n], now, p);
      DecrementStep(read, used, p, now);
    }
  }

  /** The last stock write of the batch is the last entry's own, if it has one, and otherwise the earlier entries'. */
  lemma UsageStockSnoc(read: Store, repairId: Id, used: seq<UsedPart>, rowIds: seq<Id>, now: Time, p: Id)
    requires |rowIds| == |used| > 0
    ensures var e := LastStock(EntryWrites(read, repairId, used[|used| - 1], rowIds[|used| - 1], now), p);
      LastStock(UsageWrites(read, repairId, used, rowIds, now), p)
        == if e.Some? then e else LastStock(UsageWrites(read, repairId, used[..|used| - 1], rowIds[..|used| - 1], now), p)
  {
    UsageWritesSnoc(read, repairId, used, rowIds, now);
    LastStockAppend(UsageWrites(read, repairId, used[..|used| - 1], rowIds[..|used| - 1], now),
                    EntryWrites(read, repairId, used[|used| - 1], rowIds[|used| - 1], now), p);
  }

  /** The decrement left on `p` is the last entry's own when it has one, and otherwise the one before it. */
  lemma DecrementStep(read: Store, used: seq<UsedPart>, p: Id, now: Time)
    requires |used| > 0
    ensures var here := if used[|used| - 1].sparePartId == p then DecrementOf(read, p, Some(used[|used| - 1]), now) else None;
      DecrementOf(read, p, LastUse(used, p), now)
        == if here.Some? then here else DecrementOf(read, p, LastUse(used[..|used| - 1], p), now)
  {
    LastUseUnfold(used, p);
  }

  /** `addRepair` stores the new ticket under its id and touches no brand. */
  lemma AddRepairTicket(
    s: Store, brands: seq<Brand>, models: seq<Model>,
    t: Ticket, used: seq<UsedPart>, repairId: Id, rowIds: seq<Id>, now: Time)
    requires |rowIds| == |used|
    ensures var r := AddRepair(s, brands, models, t, used, repairId, rowIds, now).store;
      && r.brands == s.brands
      && r.repairs == s.repairs[repairId := NewRepair(repairId, t, now)]
  {
    var head: seq<Write> := [RepairWrite(Put(repairId, NewRepair(repairId, t, now)))];
    var tail := UsageWrites(s, repairId, used, rowIds, now);
    var ws := AddRepairWrites(s, repairId, t, used, rowIds, now);
    assert ws == head + tail;
    CommitCollections(s, ws);
    OpsAppend(head, tail);
    assert head[..0] == [];
    UsageWritesOps(s, repairId, used, rowIds, now);
    var op := Put(repairId, NewRepair(repairId, t, now));
    assert RepairOps(ws) == [op];
    assert [op][..0] == [];
  }

  /**
   * `addRepair` leaves each existing part named by an entry at
   * max(0, q - quantity_used) for the LAST entry naming it, with q read
   * before the commit; every other part is unchanged and no part is created.
   */
  lemma AddRepairStock(
    s: Store, brands: seq<Brand>, models: seq<Model>,
    t: Ticket, used: seq<UsedPart>, repairId: Id, rowIds: seq<Id>, now: Time)
    requires |rowIds| == |used|
    ensures var r := AddRepair(s, brands, models, t, used, repairId, rowIds, now).store;
      && r.spareParts.Keys == s.spareParts.Keys
      && (forall p :: p in s.spareParts ==> r.spareParts[p] == AfterUse(s.spareParts[p], LastUse(used, p), now))
  {
    var ws := AddRepairWrites(s, repairId, t, used, rowIds, now);
    CommitStock(s, ws);
    forall p | p in s.spareParts
      ensures Commit(s, ws).spareParts[p] == AfterUse(s.spareParts[p], LastUse(used, p), now)
    {
      AddStockAt(s, repairId, t, used, rowIds, now, p);
    }
  }

  /** The ticket write in front of the batch leaves the last stock write on each part to the entries. */
  lemma AddStockAt(s: Store, repairId: Id, t: Ticket, used: seq<UsedPart>, rowIds: seq<Id>, now: Time, p: Id)
    requires |rowIds| == |used|
    ensures LastStock(AddRepairWrites(s, repairId, t, used, rowIds, now), p) == DecrementOf(s, p, LastUse(used, p), now)
    ensures p in s.spareParts ==>
      Restocked(s.spareParts[p], LastStock(AddRepairWrites(s, repairId, t, used, rowIds, now), p))
        == AfterUse(s.spareParts[p], LastUse(used, p), now)
  {
    var head: seq<Write> := [RepairWrite(Put(repairId, NewRepair(repairId, t, now)))];
    var tail := UsageWrites(s, repairId, used, rowIds, now);
    LastStockAppend(head, tail, p);
    assert head[..0] == [];
    assert LastStock(head, p).None?;
    UsageWritesStock(s, repairId, used, rowIds, now, p);
  }

  /** The usage rows `addRepair` commits are the row puts applied to the rows stored before. */
  lemma AddRepairRowOps(
    s: Store, brands: seq<Brand>, models: seq<Model>,
    t: Ticket, used: seq<UsedPart>, repairId: Id, rowIds: seq<Id>, now: Time)
    requires |rowIds| == |used|
    ensures AddRepair(s, brands, models, t, used, repairId, rowIds, now).store.repairParts
         == ApplyOps(s.repairParts, RowPuts(repairId, used, rowIds, now))
  {
    var head: seq<Write> := [RepairWrite(Put(repairId, NewRepair(repairId, t, now)))];
    var tail := UsageWrites(s, repairId, used, rowIds, now);
    var ws := AddRepairWrites(s, repairId, t, used, rowIds, now);
    assert ws == head + tail;
    CommitCollections(s, ws);
    OpsAppend(head, tail);
    assert head[..0] == [];
    assert RowOps(head) == [];
    UsageWritesOps(s, repairId, used, rowIds, now);
    assert RowOps(ws) == RowPuts(repairId, used, rowIds, now);
  }

  /** One key after the row puts: present iff stored before or generated, and kept unless generated. */
  lemma RowPutsAt(m: map<Id, RepairPart>, repairId: Id, used: seq<UsedPart>, rowIds: seq<Id>, now: Time, k: Id)
    requires |rowIds| == |used|
    ensures var r := ApplyOps(m, RowPuts(repairId, used, rowIds, now));
      && (k in r <==> k in m || k in rowIds)
      && (k in m && k !in rowIds ==> r[k] == m[k])
  {
    var ops := RowPuts(repairId, used, rowIds, now);
    var r := ApplyOps(m, ops);
    ApplyOpsAt(m, ops, k);
    LastOpNone(ops, k);
    match LastOp(ops, k) {
      case None =>
        assert Lookup(r, k) == Lookup(m, k);
      case Some(op) =>
        assert op.Put?;
        assert Lookup(r, k) == Some(op.value);
    }
    if k in rowIds {
      var i :| 0 <= i < |rowIds| && rowIds[i] == k;
      assert ops[i].key == k;
    }
  }

  /** With distinct row ids, the row under the i-th id is the i-th entry's usage row. */
  lemma RowPutsNew(m: map<Id, RepairPart>, repairId: Id, used: seq<UsedPart>, rowIds: seq<Id>, now: Time, i: int)
    requires |rowIds| == |used| && Distinct(rowIds) && 0 <= i < |used|
    ensures var r := ApplyOps(m, RowPuts(repairId, used, rowIds, now));
      rowIds[i] in r && r[rowIds[i]] == UsageRow(rowIds[i], repairId, used[i], now)
  {
    var ops := RowPuts(repairId, used, rowIds, now);
    ApplyOpsAt(m, ops, rowIds[i]);
    LastOpUnique(ops, rowIds[i], i);
    assert Lookup(ApplyOps(m, ops), rowIds[i]) == Some(UsageRow(rowIds[i], repairId, used[i], now));
  }

  /**
   * `addRepair` writes a usage row under each generated row id, carrying the
   * new ticket's id and the entry's part, quantity and price; rows already
   * stored under other ids are kept.
   */
  lemma AddRepairRows(
    s: Store, brands: seq<Brand>, models: seq<Model>,
    t: Ticket, used: seq<UsedPart>, repairId: Id, rowIds: seq<Id>, now: Time)
    requires |rowIds| == |used|
    ensures var r := AddRepair(s, brands, models, t, used, repairId, rowIds, now).store;
      && (forall k :: k in r.repairParts <==> k in s.repairParts || k in rowIds)
      && (forall k :: k in s.repairParts && k !in rowIds ==> r.repairParts[k] == s.repairParts[k])
      && (Distinct(rowIds) ==>
            forall i :: 0 <= i < |used| ==> r.repairParts[rowIds[i]] == UsageRow(rowIds[i], repairId, used[i], now))
  {
    AddRepairRowOps(s, brands, models, t, used, repairId, rowIds, now);
    forall k {
      RowPutsAt(s.repairParts, repairId, used, rowIds, now, k);
    }
    if Distinct(rowIds) {
      forall i | 0 <= i < |used| {
        RowPutsNew(s.repairParts, repairId, used, rowIds, now, i);
      }
    }
  }

  // ===================== deleteRepair =====================

  function RowIds(rows: seq<RepairPart>): (ids: seq<Id>)
    ensures |ids| == |rows|
    ensures forall i :: 0 <= i < |rows| ==> ids[i] == rows[i].id
  {
    seq(|rows|, i requires 0 <= i < |rows| => rows[i].id)
  }

  /**
   * `rows` is what the `repair_id == id` query returns: every usage row of
   * the ticket as stored, each once, in the backend's order.
   */
  ghost predicate QueryRows(s: Store, id: Id, rows: seq<RepairPart>) {
    && Distinct(RowIds(rows))
    && (forall i :: 0 <= i < |rows| ==>
          rows[i].id in s.repairParts && s.repairParts[rows[i].id] == rows[i] && rows[i].repairId == id)
    && (forall k :: k in s.repairParts && s.repairParts[k].repairId == id ==> k in RowIds(rows))
  }

  function AsUsed(row: RepairPart): UsedPart {
    UsedPart(row.sparePartId, row.quantityUsed, row.priceAtTime)
  }

  /** The rows read as used-part entries, in the same order. */
  function Usages(rows: seq<RepairPart>): (us: seq<UsedPart>)
    ensures |us| == |rows|
    ensures forall i :: 0 <= i < |rows| ==> us[i] == AsUsed(rows[i])
  {
    seq(|rows|, i requires 0 <= i < |rows| => AsUsed(rows[i]))
  }

  /** The writes for one usage row: return its quantity if the part exists, then delete the row. */
  function ReturnEntry(read: Store, row: RepairPart, now: Time): seq<Write> {
    (if row.sparePartId in read.spareParts
     then [StockWrite(row.sparePartId, read.spareParts[row.sparePartId].quantity + row.quantityUsed, now)]
     else [])
    + [RowWrite(Remove(row.id))]
  }

  function ReturnWrites(read: Store, rows: seq<RepairPart>, now: Time): seq<Write>
    decreases |rows|
  {
    if |rows| == 0 then []
    else ReturnWrites(read, rows[..|rows| - 1], now) + ReturnEntry(read, rows[|rows| - 1], now)
  }

  /** The batch `deleteRepair` builds: each row in query order, then the ticket itself. */
  function DeleteWrites(read: Store, id: Id, rows: seq<RepairPart>, now: Time): seq<Write> {
    ReturnWrites(read, rows, now) + [RepairWrite(Remove(id))]
  }

  /** `deleteRepair(id)`, given the rows its query returned. */
  function DeleteRepair(s: Store, id: Id, rows: seq<RepairPart>, now: Time): (r: Store)
    requires QueryRows(s, id, rows)
  {
    Commit(s, DeleteWrites(s, id, rows, now))
  }

  function RowRemoves(rows: seq<RepairPart>): (ops: seq<Op<RepairPart>>)
    ensures |ops| == |rows|
    ensures forall i :: 0 <= i < |rows| ==> ops[i] == Remove(rows[i].id)
  {
    seq(|rows|, i requires 0 <= i < |rows| => Remove(rows[i].id))
  }

  lemma ReturnEntryOps(read: Store, row: RepairPart, now: Time)
    ensures RepairOps(ReturnEntry(read, row, now)) == []
    ensures RowOps(ReturnEntry(read, row, now)) == [Remove(row.id)]
  {
    var stock: seq<Write> :=
      if row.sparePartId in read.spareParts
      then [StockWrite(row.sparePartId, read.spareParts[row.sparePartId].quantity + row.quantityUsed, now)]
      else [];
    var del: seq<Write> := [RowWrite(Remove(row.id))];
    assert ReturnEntry(read, row, now) == stock + del;
    OpsAppend(stock, del);
    assert del[..0] == [];
    if |stock| > 0 {
      assert stock[..0] == [];
    }
  }

  /** One row returns stock only to its own part, and only when that part exists. */
  lemma ReturnEntryStock(read: Store, row: RepairPart, now: Time, p: Id)
    ensures LastStock(ReturnEntry(read, row, now), p) ==
      if row.sparePartId == p then IncrementOf(read, p, Some(AsUsed(row)), now) else None
  {
    var stock: seq<Write> :=
      if row.sparePartId in read.spareParts
      then [StockWrite(row.sparePartId, read.spareParts[row.sparePartId].quantity + row.quantityUsed, now)]
      else [];
    var del: seq<Write> := [RowWrite(Remove(row.id))];
    assert ReturnEntry(read, row, now) == stock + del;
    LastStockAppend(stock, del, p);
    assert del[..0] == [];
    assert LastStock(del[..0], p).None?;
    if |stock| > 0 {
      assert stock[..0] == [];
      assert LastStock(stock[..0], p).None?;
    }
  }

  lemma ReturnWritesSnoc(read: Store, rows: seq<RepairPart>, now: Time)
    requires |rows| > 0
    ensures ReturnWrites(read, rows, now)
      == ReturnWrites(read, rows[..|rows| - 1], now) + ReturnEntry(read, rows[|rows| - 1], now)
  {
  }

  lemma RowRemovesSnoc(rows: seq<RepairPart>)
    requires |rows| > 0
    ensures RowRemoves(rows) == RowRemoves(rows[..|rows| - 1]) + [Remove(rows[|rows| - 1].id)]
  {
  }

  lemma UsagesSnoc(rows: seq<RepairPart>)
    requires |rows| > 0
    ensures Usages(rows[..|rows| - 1]) == Usages(rows)[..|rows| - 1]
    ensures Usages(rows)[|rows| - 1] == AsUsed(rows[|rows| - 1])
  {
  }

  lemma {:induction false} ReturnWritesOps(read: Store, rows: seq<RepairPart>, now: Time)
    ensures RepairOps(ReturnWrites(read, rows, now)) == []
    ensures RowOps(ReturnWrites(read, rows, now)) == RowRemoves(rows)
    decreases |rows|
  {
    if |rows| > 0 {
      var n := |rows| - 1;
      var a := ReturnWrites(read, rows[..n], now);
      var e := ReturnEntry(read, rows[n], now);
      ReturnWritesSnoc(read, rows, now);
      ReturnWritesOps(read, rows[..n], now);
      ReturnEntryOps(read, rows[n], now);
      OpsAppend(a, e);
      RowRemovesSnoc(rows);
    }
  }

  /** The stock write, if any, that `deleteRepair` leaves on part `p` given the last row naming it. */
  function IncrementOf(read: Store, p: Id, last: Option<UsedPart>, now: Time): Option<StockSet> {
    if p in read.spareParts && last.Some?
    then Some(StockSet(read.spareParts[p].quantity + last.value.quantityUsed, now))
    else None
  }

  lemma {:induction false} ReturnWritesStock(read: Store, rows: seq<RepairPart>, now: Time, p: Id)
    ensures LastStock(ReturnWrites(read, rows, now), p) == IncrementOf(read, p, LastUse(Usages(rows), p), now)
    decreases |rows|
  {
    if |rows| > 0 {
      var n := |rows| - 1;
      ReturnStockSnoc(read, rows, now, p);
      ReturnWritesStock(read, rows[..n], now, p);
      ReturnEntryStock(read, rows[n], now, p);
      IncrementStep(read, rows, p, now);
    }
  }

  /** The last stock write of the batch is the last row's own, if it has one, and otherwise the earlier rows'. */
  lemma ReturnStockSnoc(read: Store, rows: seq<RepairPart>, now: Time, p: Id)
    requires |rows| > 0
    ensures var e := LastStock(ReturnEntry(read, rows[|rows| - 1], now), p);
      LastStock(ReturnWrites(read, rows, now), p)
        == if e.Some? then e else LastStock(ReturnWrites(read, rows[..|rows| - 1], now), p)
  {
    ReturnWritesSnoc(read, rows, now);
    LastStockAppend(ReturnWrites(read, rows[..|rows| - 1], now), ReturnEntry(read, rows[|rows| - 1], now), p);
  }

  /** The increment left on `p` is the last row's own when it has one, and otherwise the one before it. */
  lemma IncrementStep(read: Store, rows: seq<RepairPart>, p: Id, now: Time)
    requires |rows| > 0
    ensures var here := if rows[|rows| - 1].sparePartId == p then IncrementOf(read, p, Some(AsUsed(rows[|rows| - 1])), now) else None;
      IncrementOf(read, p, LastUse(Usages(rows), p), now)
        == if here.Some? then here else IncrementOf(read, p, LastUse(Usages(rows[..|rows| - 1]), p), now)
  {
    UsagesSnoc(rows);
    LastUseUnfold(Usages(rows), p);
  }

  /** `deleteRepair` removes the ticket document and touches no brand. */
  lemma DeleteRepairTicket(s: Store, id: Id, rows: seq<RepairPart>, now: Time)
    requires QueryRows(s, id, rows)
    ensures var r := DeleteRepair(s, id, rows, now);
      && r.brands == s.brands
      && r.repairs == s.repairs - {id}
  {
    var body := ReturnWrites(s, rows, now);
    var last: seq<Write> := [RepairWrite(Remove(id))];
    var ws := DeleteWrites(s, id, rows, now);
    CommitCollections(s, ws);
    OpsAppend(body, last);
    assert last[..0] == [];
    ReturnWritesOps(s, rows, now);
    var op: Op<Repair> := Remove(id);
    assert RepairOps(ws) == [op];
    assert [op][..0] == [];
  }

  /** The usage rows `deleteRepair` commits are the row removes applied to the rows stored before. */
  lemma DeleteRepairRowOps(s: Store, id: Id, rows: seq<RepairPart>, now: Time)
    requires QueryRows(s, id, rows)
    ensures DeleteRepair(s, id, rows, now).repairParts == ApplyOps(s.repairParts, RowRemoves(rows))
  {
    var body := ReturnWrites(s, rows, now);
    var last: seq<Write> := [RepairWrite(Remove(id))];
    var ws := DeleteWrites(s, id, rows, now);
    CommitCollections(s, ws);
    OpsAppend(body, last);
    assert last[..0] == [];
    assert RowOps(last) == [];
    ReturnWritesOps(s, rows, now);
    assert RowOps(ws) == RowRemoves(rows);
  }

  /** One key after the row removes: gone iff it was one of the removed rows, otherwise as before. */
  lemma RowRemovesAt(m: map<Id, RepairPart>, rows: seq<RepairPart>, k: Id)
    ensures var r := ApplyOps(m, RowRemoves(rows));
      && (k in r <==> k in m && k !in RowIds(rows))
      && (k in r ==> r[k] == m[k])
  {
    var ops := RowRemoves(rows);
    var r := ApplyOps(m, ops);
    ApplyOpsAt(m, ops, k);
    LastOpNone(ops, k);
    match LastOp(ops, k) {
      case None =>
        assert Lookup(r, k) == Lookup(m, k);
      case Some(op) =>
        assert op.Remove?;
        assert Lookup(r, k) == None;
    }
    if k in RowIds(rows) {
      var i :| 0 <= i < |rows| && RowIds(rows)[i] == k;
      assert ops[i].key == k;
    }
  }

  /** `deleteRepair` removes every usage row of the ticket and keeps every other row as it was. */
  lemma {:induction false} DeleteRepairRows(s: Store, id: Id, rows: seq<RepairPart>, now: Time)
    requires QueryRows(s, id, rows)
    ensures var r := DeleteRepair(s, id, rows, now);
      && (forall k :: k in r.repairParts <==> k in s.repairParts && s.repairParts[k].repairId != id)
      && (forall k :: k in r.repairParts ==> r.repairParts[k] == s.repairParts[k])
  {
    DeleteRepairRowOps(s, id, rows, now);
    forall k
      ensures k in s.repairParts && k in RowIds(rows) ==> s.repairParts[k].repairId == id
      ensures k in s.repairParts && s.repairParts[k].repairId == id ==> k in RowIds(rows)
    {
      RowRemovesAt(s.repairParts, rows, k);
      if k in RowIds(rows) {
        var i :| 0 <= i < |rows| && RowIds(rows)[i] == k;
        assert rows[i].id == k;
      }
    }
    forall k {
      RowRemovesAt(s.repairParts, rows, k);
    }
  }

  /**
   * `deleteRepair` raises each existing part named by one of the ticket's
   * rows by that row's quantity_used (the last such row, in query order, when
   * several name it), with no upper bound; other parts are unchanged.
   */
  lemma DeleteRepairStock(s: Store, id: Id, rows: seq<RepairPart>, now: Time)
    requires QueryRows(s, id, rows)
    ensures var r := DeleteRepair(s, id, rows, now);
      && r.spareParts.Keys == s.spareParts.Keys
      && (forall p :: p in s.spareParts ==> r.spareParts[p] == AfterReturn(s.spareParts[p], LastUse(Usages(rows), p), now))
  {
    var ws := DeleteWrites(s, id, rows, now);
    CommitStock(s, ws);
    forall p | p in s.spareParts
      ensures Commit(s, ws).spareParts[p] == AfterReturn(s.spareParts[p], LastUse(Usages(rows), p), now)
    {
      DeleteStockAt(s, id, rows, now, p);
    }
  }

  /** The ticket removal at the end of the batch leaves the last stock write on each part to the rows. */
  lemma DeleteStockAt(s: Store, id: Id, rows: seq<RepairPart>, now: Time, p: Id)
    ensures LastStock(DeleteWrites(s, id, rows, now), p) == IncrementOf(s, p, LastUse(Usages(rows), p), now)
    ensures p in s.spareParts ==>
      Restocked(s.spareParts[p], LastStock(DeleteWrites(s, id, rows, now), p))
        == AfterReturn(s.spareParts[p], LastUse(Usages(rows), p), now)
  {
    var body := ReturnWrites(s, rows, now);
    var last: seq<Write> := [RepairWrite(Remove(id))];
    LastStockAppend(body, last, p);
    assert last[..0] == [];
    assert LastStock(last, p).None?;
    ReturnWritesStock(s, rows, now, p);
  }

  // ===================== updates =====================

  /**
   * `updateRepairStatus(id, status)`: the stored ticket gets the new status
   * and `updated_at`, and `completed_at` only when the status is completed;
   * the returned record is the cached one with status and `updated_at`
   * replaced (its `completed_at` is not refreshed), or nothing when the id is
   * not cached.
   */
  function UpdateRepairStatus(s: Store, cache: seq<Repair>, id: Id, status: Status, now: Time)
    : (r: Result<(Store, Option<Repair>), StoreError>)
    ensures r.Err? <==> id !in s.repairs
    ensures r.Err? ==> r.error == NotFound(id)
    ensures r.Ok? ==>
      && r.value.0.spareParts == s.spareParts
      && r.value.0.repairParts == s.repairParts
      && r.value.0.brands == s.brands
      && r.value.0.repairs.Keys == s.repairs.Keys
      && (forall k :: k in s.repairs && k != id ==> r.value.0.repairs[k] == s.repairs[k])
      && r.value.0.repairs[id] == WithStatus(s.repairs[id], status, now)
    ensures r.Ok? ==> (r.value.1.None? <==> forall i :: 0 <= i < |cache| ==> cache[i].id != id)
    ensures r.Ok? && r.value.1.Some? ==> exists i ::
      && FirstHitAt(cache, (c: Repair) => c.id == id, i)
      && r.value.1.value == cache[i].(ticket := cache[i].ticket.(status := status), updatedAt := now)
  {
    if id !in s.repairs then Err(NotFound(id))
    else
      var stored := s.(repairs := s.repairs[id := WithStatus(s.repairs[id], status, now)]);
      var ret :=
        match Find(cache, (c: Repair) => c.id == id)
        case None => None
        case Some(c) => Some(c.(ticket := c.ticket.(status := status), updatedAt := now));
      Ok((stored, ret))
  }

  /**
   * `updateBrand(id, updates)`: the stored brand is merged with the patch;
   * the returned record is the cached brand merged with it, or nothing when
   * the id is not cached.
   */
  function UpdateBrand(s: Store, cache: seq<Brand>, id: Id, patch: BrandPatch)
    : (r: Result<(Store, Option<Brand>), StoreError>)
    ensures r.Err? <==> id !in s.brands
    ensures r.Err? ==> r.error == NotFound(id)
    ensures r.Ok? ==>
      && r.value.0.spareParts == s.spareParts
      && r.value.0.repairs == s.repairs
      && r.value.0.repairParts == s.repairParts
      && r.value.0.brands.Keys == s.brands.Keys
      && (forall k :: k in s.brands && k != id ==> r.value.0.brands[k] == s.brands[k])
      && r.value.0.brands[id] == MergeBrand(s.brands[id], patch)
      && (r.value.1.None? <==> forall i :: 0 <= i < |cache| ==> cache[i].id != id)
      && (r.value.1.Some? ==> exists i ::
            FirstHitAt(cache, (b: Brand) => b.id == id, i) && r.value.1.value == MergeBrand(cache[i], patch))
  {
    if id !in s.brands then Err(NotFound(id))
    else
      var ret :=
        match Find(cache, (b: Brand) => b.id == id)
        case None => None
        case Some(b) => Some(MergeBrand(b, patch));
      Ok((s.(brands := s.brands[id := MergeBrand(s.brands[id], patch)]), ret))
  }

  /**
   * `updateSparePart(id, updates)`: the stored part is merged with the patch
   * and `updated_at` is refreshed; the returned record is the cached part
   * merged the same way, or nothing when the id is not cached.
   */
  function UpdateSparePart(s: Store, cache: seq<SparePart>, id: Id, patch: SparePartPatch, now: Time)
    : (r: Result<(Store, Option<SparePart>), StoreError>)
    ensures r.Err? <==> id !in s.spareParts
    ensures r.Err? ==> r.error == NotFound(id)
    ensures r.Ok? ==>
      && r.value.0.brands == s.brands
      && r.value.0.repairs == s.repairs
      && r.value.0.repairParts == s.repairParts
      && r.value.0.spareParts.Keys == s.spareParts.Keys
      && (forall k :: k in s.spareParts && k != id ==> r.value.0.spareParts[k] == s.spareParts[k])
      && r.value.0.spareParts[id].updatedAt == now
      && r.value.0.spareParts[id] == MergeSparePart(s.spareParts[id], patch).(updatedAt := now)
      && (r.value.1.None? <==> forall i :: 0 <= i < |cache| ==> cache[i].id != id)
      && (r.value.1.Some? ==> r.value.1.value.updatedAt == now && exists i ::
            FirstHitAt(cache, (p: SparePart) => p.id == id, i)
            && r.value.1.value == MergeSparePart(cache[i], patch).(updatedAt := now))
  {
    if id !in s.spareParts then Err(NotFound(id))
    else
      var ret :=
        match Find(cache, (p: SparePart) => p.id == id)
        case None => None
        case Some(p) => Some(MergeSparePart(p, patch).(updatedAt := now));
      Ok((s.(spareParts := s.spareParts[id := MergeSparePart(s.spareParts[id], patch).(updatedAt := now)]), ret))
  }
}
