/** The greedy allocation of an untargeted stock-out: walk the product's
    records holding stock in ascending id order, taking from each the
    smaller of its quantity and what is still to be taken, until nothing
    remains. `Allocated` is the resulting table, `AllocationMovements` the
    OUT movements written on the way. */
module Allocation {
  import opened Models
  import opened Ledger

  /** A record the walk may take from: the product's, with stock. */
  predicate Eligible(item: Item, productId: nat)
  {
    item.productId == productId && item.quantity > 0
  }

  /** The table after taking `need` units of `productId`. */
  function Allocated(items: seq<Item>, productId: nat, need: nat): (r: seq<Item>)
    ensures |r| == |items|
  {
    if items == [] || need == 0 then items
    else
      var head := items[0];
      if Eligible(head, productId) then
        var d := Min(head.quantity, need);
        [head.(quantity := head.quantity - d)] + Allocated(items[1..], productId, need - d)
      else
        [head] + Allocated(items[1..], productId, need)
  }

  /** What is left for the rest of the walk after the first record. */
  function NeedAfterHead(items: seq<Item>, productId: nat, need: nat): nat
    requires items != []
  {
    if Eligible(items[0], productId) && need > 0 then need - Min(items[0].quantity, need) else need
  }

  /** How much the walk takes at position `i` with `need` still to take:
      something exactly when the record may be taken from and something is
      still needed, and never more than is needed. */
  function TakenAt(items: seq<Item>, i: nat, productId: nat, need: nat): (r: nat)
    requires i < |items|
    ensures r <= need
    ensures r > 0 <==> Eligible(items[i], productId) && need > 0
  {
    if Eligible(items[i], productId) then Min(items[i].quantity, need) else 0
  }

  /** The record at `i` as the walk leaves it. */
  function LeftAt(items: seq<Item>, i: nat, productId: nat, need: nat): (r: Item)
    requires i < |items|
    ensures r == items[i].(quantity := r.quantity) && r.quantity <= items[i].quantity
  {
    items[i].(quantity := items[i].quantity - TakenAt(items, i, productId, need))
  }

  /** The movement the walk writes at `i`, if it takes anything there. */
  function WrittenAt(items: seq<Item>, i: nat, productId: nat, need: nat, remarks: Option<string>): (r: seq<Movement>)
    requires i < |items|
    ensures |r| <= 1 && (r != [] <==> TakenAt(items, i, productId, need) > 0)
  {
    var d := TakenAt(items, i, productId, need);
    if d > 0 then [Movement(productId, items[i].id, OUT, d, remarks)] else []
  }

  /** One step of the walk at position `i`: the record there is left as
      `LeftAt` says, and the walk goes on over the records after it with
      what is then still needed. */
  lemma WalkHead(items: seq<Item>, i: nat, productId: nat, need: nat)
    requires i < |items|
    ensures Allocated(items[i..], productId, need)
         == [LeftAt(items, i, productId, need)] + Allocated(items[i + 1..], productId, need - TakenAt(items, i, productId, need))
  {
    assert items[i..][0] == items[i];
    assert items[i..][1..] == items[i + 1..];
    if need == 0 {
      assert items[i..] == [items[i]] + items[i + 1..];
    }
  }

  /** The same step for the log: the movement `WrittenAt` says is written,
      then those of the walk over the records after position `i`. */
  lemma WalkHeadMovements(items: seq<Item>, i: nat, productId: nat, need: nat, remarks: Option<string>)
    requires i < |items|
    ensures AllocationMovements(items[i..], productId, need, remarks)
         == WrittenAt(items, i, productId, need, remarks)
            + AllocationMovements(items[i + 1..], productId, need - TakenAt(items, i, productId, need), remarks)
  {
    assert items[i..][0] == items[i];
    assert items[i..][1..] == items[i + 1..];
  }

  /** The state of the deduction loop: what is still to take, the records
      handled so far as the walk leaves them, the OUT movements written so
      far, and the positions of the records taken from (the list of
      updated records, in the order updated). */
  datatype Walk = Walk(remaining: nat, walked: seq<Item>, written: seq<Movement>, updated: seq<nat>)

  /** One pass of the deduction loop, over the record at `i`. */
  function Advance(items: seq<Item>, productId: nat, remarks: Option<string>, i: nat, w: Walk): Walk
    requires i < |items|
  {
    var d := TakenAt(items, i, productId, w.remaining);
    if d > 0 then
      Walk(w.remaining - d, w.walked + [LeftAt(items, i, productId, w.remaining)],
           w.written + [Movement(productId, items[i].id, OUT, d, remarks)], w.updated + [i])
    else
      Walk(w.remaining, w.walked + [LeftAt(items, i, productId, w.remaining)], w.written, w.updated)
  }

  /** The loop's state after the first `i` records, starting from `total`
      to take. */
  function WalkAfter(items: seq<Item>, productId: nat, total: nat, remarks: Option<string>, i: nat): (w: Walk)
    requires i <= |items|
    ensures |w.walked| == i && w.remaining <= total
  {
    if i == 0 then Walk(total, [], [], [])
    else Advance(items, productId, remarks, i - 1, WalkAfter(items, productId, total, remarks, i - 1))
  }

  /** The walk writes one movement per record it takes from. */
  lemma {:induction false} TouchedCount(items: seq<Item>, productId: nat, total: nat, remarks: Option<string>, i: nat)
    requires i <= |items|
    ensures |WalkAfter(items, productId, total, remarks, i).updated| == |WalkAfter(items, productId, total, remarks, i).written|
  {
    if i > 0 {
      TouchedCount(items, productId, total, remarks, i - 1);
    }
  }

  /** The `j`-th record taken from is the one the `j`-th movement is
      written for. */
  lemma {:induction false} TouchedAt(items: seq<Item>, productId: nat, total: nat, remarks: Option<string>, i: nat, j: nat)
    requires i <= |items|
    requires j < |WalkAfter(items, productId, total, remarks, i).updated|
    ensures WalkAfter(items, productId, total, remarks, i).updated[j] < i
    ensures j < |WalkAfter(items, productId, total, remarks, i).written|
    ensures WalkAfter(items, productId, total, remarks, i).written[j].itemId
         == items[WalkAfter(items, productId, total, remarks, i).updated[j]].id
  {
    TouchedCount(items, productId, total, remarks, i);
    TouchedCount(items, productId, total, remarks, i - 1);
    if j < |WalkAfter(items, productId, total, remarks, i - 1).updated| {
      TouchedAt(items, productId, total, remarks, i - 1, j);
    }
  }

  /** Handling the record before position `i` keeps the table built so
      far, followed by what the walk does to the rest, equal to the
      allocated table. */
  lemma SplitStep(items: seq<Item>, i: nat, productId: nat, need: nat, total: nat, done: seq<Item>)
    requires 0 < i <= |items|
    requires done + Allocated(items[i - 1..], productId, need) == Allocated(items, productId, total)
    ensures (done + [LeftAt(items, i - 1, productId, need)])
            + Allocated(items[i..], productId, need - TakenAt(items, i - 1, productId, need))
         == Allocated(items, productId, total)
  {
    WalkHead(items, i - 1, productId, need);
    var x := LeftAt(items, i - 1, productId, need);
    var rest := Allocated(items[i..], productId, need - TakenAt(items, i - 1, productId, need));
    assert (done + [x]) + rest == done + ([x] + rest);
  }

  /** Handling the record before position `i` keeps the movements written
      so far, followed by those the walk writes for the rest, equal to all
      of them. */
  lemma SplitStepMovements(items: seq<Item>, i: nat, productId: nat, need: nat, total: nat, remarks: Option<string>,
                           sent: seq<Movement>)
    requires 0 < i <= |items|
    requires sent + AllocationMovements(items[i - 1..], productId, need, remarks)
          == AllocationMovements(items, productId, total, remarks)
    ensures (sent + WrittenAt(items, i - 1, productId, need, remarks))
            + AllocationMovements(items[i..], productId, need - TakenAt(items, i - 1, productId, need), remarks)
         == AllocationMovements(items, productId, total, remarks)
  {
    WalkHeadMovements(items, i - 1, productId, need, remarks);
    var ms := WrittenAt(items, i - 1, productId, need, remarks);
    var more := AllocationMovements(items[i..], productId, need - TakenAt(items, i - 1, productId, need), remarks);
    assert (sent + ms) + more == sent + (ms + more);
  }

  /** After any number of records, the table the walk has produced so far
      followed by what it does to the rest is the whole allocated table. */
  lemma {:induction false} WalkedSplits(items: seq<Item>, productId: nat, total: nat, remarks: Option<string>, i: nat)
    requires i <= |items|
    ensures var w := WalkAfter(items, productId, total, remarks, i);
      w.walked + Allocated(items[i..], productId, w.remaining) == Allocated(items, productId, total)
  {
    if i == 0 {
      assert items[0..] == items;
    } else {
      WalkedSplits(items, productId, total, remarks, i - 1);
      var w := WalkAfter(items, productId, total, remarks, i - 1);
      SplitStep(items, i, productId, w.remaining, total, w.walked);
      var next := WalkAfter(items, productId, total, remarks, i);
      assert next.walked == w.walked + [LeftAt(items, i - 1, productId, w.remaining)];
      assert next.remaining == w.remaining - TakenAt(items, i - 1, productId, w.remaining);
    }
  }

  /** After any number of records, the movements written so far followed by
      those the walk writes for the rest are all the walk's movements. */
  lemma {:induction false} WrittenSplits(items: seq<Item>, productId: nat, total: nat, remarks: Option<string>, i: nat)
    requires i <= |items|
    ensures var w := WalkAfter(items, productId, total, remarks, i);
      w.written + AllocationMovements(items[i..], productId, w.remaining, remarks)
      == AllocationMovements(items, productId, total, remarks)
  {
    if i == 0 {
      assert items[0..] == items;
    } else {
      WrittenSplits(items, productId, total, remarks, i - 1);
      var w := WalkAfter(items, productId, total, remarks, i - 1);
      SplitStepMovements(items, i, productId, w.remaining, total, remarks, w.written);
      if TakenAt(items, i - 1, productId, w.remaining) == 0 {
        assert w.written + [] == w.written;
      }
    }
  }

  /** When the walk stops, every record handled or nothing left to take,
      having found stock to take, its state holds the allocated table (the
      records not reached are unchanged), its movements, and the first
      record taken from. */
  lemma WalkFinished(items: seq<Item>, productId: nat, total: nat, remarks: Option<string>, i: nat)
    requires i <= |items| && total > 0
    requires i == |items| || WalkAfter(items, productId, total, remarks, i).remaining == 0
    requires Available(items, productId) != []
    ensures var w := WalkAfter(items, productId, total, remarks, i);
      && w.walked + items[i..] == Allocated(items, productId, total)
      && w.written == AllocationMovements(items, productId, total, remarks)
      && w.updated != [] && w.updated[0] < |items| && w.written != []
      && Allocated(items, productId, total)[w.updated[0]].id == w.written[0].itemId
  {
    var w := WalkAfter(items, productId, total, remarks, i);
    WalkedSplits(items, productId, total, remarks, i);
    WrittenSplits(items, productId, total, remarks, i);
    assert Allocated(items[i..], productId, w.remaining) == items[i..];
    assert AllocationMovements(items[i..], productId, w.remaining, remarks) == [];
    assert w.written + [] == w.written;
    AllocationStartsAtFirstAvailable(items, productId, total, remarks);
    TouchedCount(items, productId, total, remarks, i);
    TouchedAt(items, productId, total, remarks, i, 0);
    AllocatedAt(items, productId, total, w.updated[0]);
  }

  /** Every record keeps all its fields but its quantity, which only drops,
      never below zero, and only for the product's records holding stock. */
  lemma {:induction false} AllocatedAt(items: seq<Item>, productId: nat, need: nat, k: nat)
    requires k < |items|
    ensures var r := Allocated(items, productId, need);
      && r[k] == items[k].(quantity := r[k].quantity)
      && r[k].quantity <= items[k].quantity
      && (items[k].quantity >= 0 ==> r[k].quantity >= 0)
      && (!Eligible(items[k], productId) ==> r[k] == items[k])
  {
    if need != 0 && k > 0 {
      AllocatedAt(items[1..], productId, NeedAfterHead(items, productId, need), k - 1);
      assert items[1..][k - 1] == items[k];
    }
  }

  /** The OUT movements of the walk: one per record taken from, in the
      order taken, each for exactly the amount taken there. */
  function AllocationMovements(items: seq<Item>, productId: nat, need: nat, remarks: Option<string>): (r: seq<Movement>)
    ensures |r| <= |items|
  {
    if items == [] || need == 0 then []
    else
      var head := items[0];
      if Eligible(head, productId) then
        var d := Min(head.quantity, need);
        [Movement(productId, head.id, OUT, d, remarks)] + AllocationMovements(items[1..], productId, need - d, remarks)
      else
        AllocationMovements(items[1..], productId, need, remarks)
  }

  /** Every movement of the walk is an OUT movement of the product, for a
      positive amount, carrying the request's remarks. */
  lemma {:induction false} MovementsShape(items: seq<Item>, productId: nat, need: nat, remarks: Option<string>)
    ensures forall m :: m in AllocationMovements(items, productId, need, remarks) ==>
      && m.kind == OUT && m.productId == productId
      && m.quantity > 0 && m.remarks == remarks
  {
    if items != [] && need != 0 {
      if Eligible(items[0], productId) {
        MovementsShape(items[1..], productId, need - Min(items[0].quantity, need), remarks);
      } else {
        MovementsShape(items[1..], productId, need, remarks);
      }
    }
  }

  function SumMoved(movements: seq<Movement>): int
  {
    if movements == [] then 0 else movements[0].quantity + SumMoved(movements[1..])
  }

  /** The walk takes min(need, stock available): exactly the request once
      the sufficiency check has passed. */
  lemma {:induction false} AllocatedTotal(items: seq<Item>, productId: nat, need: nat)
    ensures SumQuantity(items) - SumQuantity(Allocated(items, productId, need))
         == Min(SumQuantity(Available(items, productId)), need)
  {
    AvailableSumNonNegative(items, productId);
    if items != [] && need != 0 {
      var head := items[0];
      AllocatedTotal(items[1..], productId, NeedAfterHead(items, productId, need));
      AvailableSumNonNegative(items[1..], productId);
    }
  }

  /** The movements written add up to what the walk took. */
  lemma {:induction false} MovedTotal(items: seq<Item>, productId: nat, need: nat, remarks: Option<string>)
    ensures SumMoved(AllocationMovements(items, productId, need, remarks))
         == Min(SumQuantity(Available(items, productId)), need)
  {
    AvailableSumNonNegative(items, productId);
    if items != [] && need != 0 {
      var head := items[0];
      MovedTotal(items[1..], productId, NeedAfterHead(items, productId, need), remarks);
      AvailableSumNonNegative(items[1..], productId);
    }
  }

  /** Some record of the table with id `id` is one the walk may take from. */
  predicate EligibleId(items: seq<Item>, productId: nat, id: nat)
  {
    exists k :: 0 <= k < |items| && items[k].id == id && Eligible(items[k], productId)
  }

  predicate IncreasingItemIds(movements: seq<Movement>)
  {
    forall i, j :: 0 <= i < j < |movements| ==> movements[i].itemId < movements[j].itemId
  }

  /** Each movement is linked to a record of the table the walk may take
      from. */
  lemma {:induction false} MovementsFollowRecords(items: seq<Item>, productId: nat, need: nat, remarks: Option<string>)
    ensures forall m :: m in AllocationMovements(items, productId, need, remarks) ==> EligibleId(items, productId, m.itemId)
  {
    if items != [] && need != 0 {
      var need' := NeedAfterHead(items, productId, need);
      MovementsFollowRecords(items[1..], productId, need', remarks);
      var tail := AllocationMovements(items[1..], productId, need', remarks);
      forall m | m in tail
        ensures EligibleId(items, productId, m.itemId)
      {
        var k :| 0 <= k < |items[1..]| && items[1..][k].id == m.itemId && Eligible(items[1..][k], productId);
        assert items[k + 1] == items[1..][k];
      }
      if Eligible(items[0], productId) {
        assert EligibleId(items, productId, items[0].id);
      }
    }
  }

  /** With ascending record ids the movements come in ascending record
      order, so no record gets two. */
  lemma {:induction false} MovementsInRecordOrder(items: seq<Item>, productId: nat, need: nat, remarks: Option<string>)
    requires IdsIncreasing(items)
    ensures IncreasingItemIds(AllocationMovements(items, productId, need, remarks))
  {
    if items != [] && need != 0 {
      var head := items[0];
      var need' := NeedAfterHead(items, productId, need);
      MovementsInRecordOrder(items[1..], productId, need', remarks);
      MovementsFollowRecords(items[1..], productId, need', remarks);
      var ms := AllocationMovements(items, productId, need, remarks);
      var tail := AllocationMovements(items[1..], productId, need', remarks);
      if Eligible(head, productId) {
        assert ms == [ms[0]] + tail;
        forall i, j | 0 <= i < j < |ms|
          ensures ms[i].itemId < ms[j].itemId
        {
          assert ms[j] == tail[j - 1];
          if i > 0 {
            assert ms[i] == tail[i - 1];
          } else {
            assert tail[j - 1] in tail;
            var k :| 0 <= k < |items[1..]| && items[1..][k].id == tail[j - 1].itemId && Eligible(items[1..][k], productId);
            assert items[k + 1] == items[1..][k];
          }
        }
      } else {
        assert ms == tail;
      }
    }
  }

  /** A record whose id is not in the table gets no movement. */
  lemma {:induction false} NetOutsideTable(items: seq<Item>, productId: nat, need: nat, remarks: Option<string>, id: nat)
    requires forall k :: 0 <= k < |items| ==> items[k].id != id
    ensures Net(AllocationMovements(items, productId, need, remarks), id) == 0
  {
    var ms := AllocationMovements(items, productId, need, remarks);
    MovementsFollowRecords(items, productId, need, remarks);
    forall j | 0 <= j < |ms| ensures ms[j].itemId != id {
      assert ms[j] in ms;
      assert EligibleId(items, productId, ms[j].itemId);
    }
    NetUnlinked(ms, id);
  }

  /** Per record, the movements written replay exactly the drop in its
      quantity: the audit trail is location-exact. */
  lemma {:induction false} AllocationNet(items: seq<Item>, productId: nat, need: nat, remarks: Option<string>, k: nat)
    requires IdsIncreasing(items)
    requires k < |items|
    ensures Net(AllocationMovements(items, productId, need, remarks), items[k].id)
         == Allocated(items, productId, need)[k].quantity - items[k].quantity
  {
    var head := items[0];
    var tailItems := items[1..];
    if need == 0 {
      assert AllocationMovements(items, productId, need, remarks) == [];
    } else {
      var need' := NeedAfterHead(items, productId, need);
      var tail := AllocationMovements(tailItems, productId, need', remarks);
      var id := items[k].id;
      if k == 0 {
        NetOutsideTable(tailItems, productId, need', remarks, id);
      } else {
        AllocationNet(tailItems, productId, need', remarks, k - 1);
        assert tailItems[k - 1] == items[k];
      }
      if Eligible(head, productId) {
        var m := Movement(productId, head.id, OUT, Min(head.quantity, need), remarks);
        NetAppend([m], tail, id);
        assert [m][..0] == [];
      }
    }
  }

  /** Greedy: a record holding stock that comes before some record the walk
      took from has been emptied. So every record taken from, except the
      last, ends at zero, and everything after the last is untouched. */
  lemma {:induction false} AllocationGreedy(items: seq<Item>, productId: nat, need: nat, i: nat, j: nat)
    requires i < j < |items|
    requires Eligible(items[i], productId)
    requires Allocated(items, productId, need)[j].quantity < items[j].quantity
    ensures Allocated(items, productId, need)[i].quantity == 0
  {
    var head := items[0];
    var need' := NeedAfterHead(items, productId, need);
    assert need != 0;
    var r := Allocated(items, productId, need);
    var tail := Allocated(items[1..], productId, need');
    assert r[j] == tail[j - 1];
    assert need' != 0;
    if i > 0 {
      assert r[i] == tail[i - 1];
      AllocationGreedy(items[1..], productId, need', i - 1, j - 1);
    }
  }

  /** With stock available and something to take, the walk starts at the
      first record holding stock: the record the operation returns. */
  lemma {:induction false} AllocationStartsAtFirstAvailable(items: seq<Item>, productId: nat, need: nat, remarks: Option<string>)
    requires need > 0
    requires Available(items, productId) != []
    ensures var ms := AllocationMovements(items, productId, need, remarks);
      ms != [] && ms[0].itemId == Available(items, productId)[0].id
  {
    if !Eligible(items[0], productId) {
      AllocationStartsAtFirstAvailable(items[1..], productId, need, remarks);
    }
  }

  /** An allocation keeps every ledger invariant: quantities stay
      non-negative, each new movement is linked to its record, and each
      record's net still equals its quantity. */
  lemma AllocationKeepsLedger(products: map<nat, Product>, items: seq<Item>, movements: seq<Movement>,
                              nextProductId: nat, nextItemId: nat, productId: nat, need: nat, remarks: Option<string>)
    requires LedgerOk(products, items, movements, nextProductId, nextItemId)
    ensures LedgerOk(products, Allocated(items, productId, need),
                     movements + AllocationMovements(items, productId, need, remarks), nextProductId, nextItemId)
  {
    var r := Allocated(items, productId, need);
    var ms := AllocationMovements(items, productId, need, remarks);
    var all := movements + ms;
    forall k | 0 <= k < |items|
      ensures r[k] == items[k].(quantity := r[k].quantity) && RecordOk(r[k])
    {
      AllocatedAt(items, productId, need, k);
    }
    assert SameKeys(items, r);
    SameKeysKeepLinks(items, r, movements);
    MovementsFollowRecords(items, productId, need, remarks);
    MovementsShape(items, productId, need, remarks);
    forall j | 0 <= j < |all|
      ensures all[j].quantity > 0 && HasRecord(r, all[j].itemId, all[j].productId)
    {
      if j >= |movements| {
        var m := ms[j - |movements|];
        assert all[j] == m;
        assert m in ms;
        assert m.quantity > 0 && m.productId == productId;
        assert EligibleId(items, productId, m.itemId);
        var k :| 0 <= k < |items| && items[k].id == m.itemId && Eligible(items[k], productId);
        assert r[k].id == m.itemId && r[k].productId == m.productId;
      } else {
        assert all[j] == movements[j];
      }
    }
    forall k | 0 <= k < |r|
      ensures Net(all, r[k].id) == r[k].quantity
    {
      NetAppend(movements, ms, items[k].id);
      AllocationNet(items, productId, need, remarks, k);
    }
  }

  /** Two records of five units each, seven requested: the first is
      emptied, the second gives the remaining two, and one OUT movement is
      logged per record. */
  lemma SplitAcrossTwoRecords()
    ensures Allocated([Item(1, 7, "A1", 5, 5), Item(2, 7, "B2", 5, 5)], 7, 7)
            == [Item(1, 7, "A1", 0, 5), Item(2, 7, "B2", 3, 5)]
    ensures AllocationMovements([Item(1, 7, "A1", 5, 5), Item(2, 7, "B2", 5, 5)], 7, 7, None)
            == [Movement(7, 1, OUT, 5, None), Movement(7, 2, OUT, 2, None)]
  {
  }
}
