/**
 * The document store behind the Firestore hooks and its write batches.
 *
 * A batch is a list of writes collected while an operation runs; nothing is
 * visible until the commit, which applies the writes in the order they were
 * added. Two writes to the same document therefore do not combine: the later
 * one replaces the earlier one.
 */
module Batch {
  import opened Wrappers
  import opened Types

  /** The collections the repair operations touch, keyed by document id. */
  datatype Store = Store(
    brands: map<Id, Brand>,
    spareParts: map<Id, SparePart>,
    repairs: map<Id, Repair>,
    repairParts: map<Id, RepairPart>)

  /** `batch.set` or `batch.delete` on one document of a collection. */
  datatype Op<V> = Put(key: Id, value: V) | Remove(key: Id)

  /** One write of a batch. A stock write is `batch.update(part, {quantity, updated_at})`. */
  datatype Write =
    | RepairWrite(rop: Op<Repair>)
    | RowWrite(pop: Op<RepairPart>)
    | StockWrite(partId: Id, quantity: int, at: Time)

  /** The quantity and timestamp a stock write leaves on a part. */
  datatype StockSet = StockSet(quantity: int, at: Time)

  function Lookup<V>(m: map<Id, V>, k: Id): Option<V> {
    if k in m then Some(m[k]) else None
  }

  function ApplyOp<V>(m: map<Id, V>, op: Op<V>): map<Id, V> {
    match op
    case Put(k, v) => m[k := v]
    case Remove(k) => m - {k}
  }

  function ApplyOps<V>(m: map<Id, V>, ops: seq<Op<V>>): map<Id, V>
    decreases |ops|
  {
    if |ops| == 0 then m else ApplyOp(ApplyOps(m, ops[..|ops| - 1]), ops[|ops| - 1])
  }

  /** A part after a stock update: only quantity and `updated_at` change. */
  function Stocked(p: SparePart, st: StockSet): (r: SparePart)
    ensures r.quantity == st.quantity && r.updatedAt == st.at
    ensures r.(quantity := p.quantity, updatedAt := p.updatedAt) == p
  {
    p.(quantity := st.quantity, updatedAt := st.at)
  }

  /** A part as a stock write leaves it, or unchanged when no write touched it. */
  function Restocked(p: SparePart, st: Option<StockSet>): SparePart {
    match st
    case None => p
    case Some(v) => Stocked(p, v)
  }

  function Apply(s: Store, w: Write): Store {
    match w
    case RepairWrite(op) => s.(repairs := ApplyOp(s.repairs, op))
    case RowWrite(op) => s.(repairParts := ApplyOp(s.repairParts, op))
    case StockWrite(p, q, at) =>
      if p in s.spareParts then s.(spareParts := s.spareParts[p := Stocked(s.spareParts[p], StockSet(q, at))])
      else s
  }

  /** `batch.commit()`: the writes take effect in the order they were added. */
  function Commit(s: Store, ws: seq<Write>): Store
    decreases |ws|
  {
    if |ws| == 0 then s else Apply(Commit(s, ws[..|ws| - 1]), ws[|ws| - 1])
  }

  // ----- Per-document view of a batch -----

  function RepairOps(ws: seq<Write>): seq<Op<Repair>>
    decreases |ws|
  {
    if |ws| == 0 then []
    else RepairOps(ws[..|ws| - 1]) + (if ws[|ws| - 1].RepairWrite? then [ws[|ws| - 1].rop] else [])
  }

  function RowOps(ws: seq<Write>): seq<Op<RepairPart>>
    decreases |ws|
  {
    if |ws| == 0 then []
    else RowOps(ws[..|ws| - 1]) + (if ws[|ws| - 1].RowWrite? then [ws[|ws| - 1].pop] else [])
  }

  /** The last set/delete of document `k` in `ops`. */
  function LastOp<V>(ops: seq<Op<V>>, k: Id): (r: Option<Op<V>>)
    ensures r.Some? ==> r.value.key == k && r.value in ops
    decreases |ops|
  {
    if |ops| == 0 then None
    else if ops[|ops| - 1].key == k then Some(ops[|ops| - 1])
    else LastOp(ops[..|ops| - 1], k)
  }

  /** The last stock write to part `p` in `ws`. */
  function LastStock(ws: seq<Write>, p: Id): Option<StockSet>
    decreases |ws|
  {
    if |ws| == 0 then None
    else
      var w := ws[|ws| - 1];
      if w.StockWrite? && w.partId == p then Some(StockSet(w.quantity, w.at))
      else LastStock(ws[..|ws| - 1], p)
  }

  /** The document left under `k` after applying `ops` is decided by the last op on `k` alone. */
  lemma {:induction false} ApplyOpsAt<V>(m: map<Id, V>, ops: seq<Op<V>>, k: Id)
    ensures Lookup(ApplyOps(m, ops), k) ==
      match LastOp(ops, k)
      case None => Lookup(m, k)
      case Some(Put(_, v)) => Some(v)
      case Some(Remove(_)) => None
    decreases |ops|
  {
    if |ops| > 0 {
      ApplyOpsAt(m, ops[..|ops| - 1], k);
    }
  }

  /** A committed part carries the last stock write to it; parts are never created or deleted. */
  lemma {:induction false} CommitStock(s: Store, ws: seq<Write>)
    ensures Commit(s, ws).spareParts.Keys == s.spareParts.Keys
    ensures forall p :: p in s.spareParts ==>
      Commit(s, ws).spareParts[p] == Restocked(s.spareParts[p], LastStock(ws, p))
    decreases |ws|
  {
    if |ws| > 0 {
      var init := ws[..|ws| - 1];
      CommitStock(s, init);
      var c := Commit(s, init);
      assert Commit(s, ws) == Apply(c, ws[|ws| - 1]);
      forall p | p in s.spareParts
        ensures Commit(s, ws).spareParts[p] == Restocked(s.spareParts[p], LastStock(ws, p))
      {
        assert c.spareParts[p] == Restocked(s.spareParts[p], LastStock(init, p));
      }
    }
  }

  /** Committing a batch acts on each collection through that collection's writes only. */
  lemma {:induction false} CommitCollections(s: Store, ws: seq<Write>)
    ensures Commit(s, ws).brands == s.brands
    ensures Commit(s, ws).repairs == ApplyOps(s.repairs, RepairOps(ws))
    ensures Commit(s, ws).repairParts == ApplyOps(s.repairParts, RowOps(ws))
    decreases |ws|
  {
    if |ws| > 0 {
      var init := ws[..|ws| - 1];
      var w := ws[|ws| - 1];
      CommitCollections(s, init);
      var c := Commit(s, init);
      assert Commit(s, ws) == Apply(c, w);
      if w.RepairWrite? {
        var ops := RepairOps(ws);
        assert ops == RepairOps(init) + [w.rop];
        assert ops[..|ops| - 1] == RepairOps(init);
        assert ApplyOps(s.repairs, ops) == ApplyOp(ApplyOps(s.repairs, RepairOps(init)), w.rop);
      } else {
        assert RepairOps(ws) == RepairOps(init) + [];
        assert RepairOps(ws) == RepairOps(init);
        assert Commit(s, ws).repairs == c.repairs;
      }
      if w.RowWrite? {
        var ops := RowOps(ws);
        assert ops == RowOps(init) + [w.pop];
        assert ops[..|ops| - 1] == RowOps(init);
        assert ApplyOps(s.repairParts, ops) == ApplyOp(ApplyOps(s.repairParts, RowOps(init)), w.pop);
      } else {
        assert RowOps(ws) == RowOps(init) + [];
        assert RowOps(ws) == RowOps(init);
        assert Commit(s, ws).repairParts == c.repairParts;
      }
    }
  }

  // ----- Batches built in two halves -----

  lemma {:induction false} OpsAppend(a: seq<Write>, b: seq<Write>)
    ensures RepairOps(a + b) == RepairOps(a) + RepairOps(b)
    ensures RowOps(a + b) == RowOps(a) + RowOps(b)
    decreases |b|
  {
    if |b| == 0 {
      assert a + b == a;
    } else {
      var ab := a + b;
      assert ab[..|ab| - 1] == a + b[..|b| - 1];
      OpsAppend(a, b[..|b| - 1]);
    }
  }

  lemma {:induction false} LastStockAppend(a: seq<Write>, b: seq<Write>, p: Id)
    ensures LastStock(a + b, p) == if LastStock(b, p).Some? then LastStock(b, p) else LastStock(a, p)
    decreases |b|
  {
    if |b| == 0 {
      assert a + b == a;
    } else {
      var ab := a + b;
      assert ab[..|ab| - 1] == a + b[..|b| - 1];
      LastStockAppend(a, b[..|b| - 1], p);
    }
  }

  lemma {:induction false} LastOpAppend<V>(a: seq<Op<V>>, b: seq<Op<V>>, k: Id)
    ensures LastOp(a + b, k) == if LastOp(b, k).Some? then LastOp(b, k) else LastOp(a, k)
    decreases |b|
  {
    if |b| == 0 {
      assert a + b == a;
    } else {
      var ab := a + b;
      assert ab[..|ab| - 1] == a + b[..|b| - 1];
      LastOpAppend(a, b[..|b| - 1], k);
    }
  }

  /** With no other op on `k`, the last op on `k` is the one at `i`. */
  lemma {:induction false} LastOpUnique<V>(ops: seq<Op<V>>, k: Id, i: int)
    requires 0 <= i < |ops| && ops[i].key == k
    requires forall j :: 0 <= j < |ops| && j != i ==> ops[j].key != k
    ensures LastOp(ops, k) == Some(ops[i])
    decreases |ops|
  {
    if i < |ops| - 1 {
      LastOpUnique(ops[..|ops| - 1], k, i);
    }
  }

  lemma {:induction false} LastOpNone<V>(ops: seq<Op<V>>, k: Id)
    ensures LastOp(ops, k).None? <==> forall j :: 0 <= j < |ops| ==> ops[j].key != k
    decreases |ops|
  {
    if |ops| > 0 {
      LastOpNone(ops[..|ops| - 1], k);
    }
  }
}
