/** The manager's per-block loop that hands out pages of the contract state (manager.go). */
module Paging {
  import opened Prelude

  const UINT64 := 0x1_0000_0000_0000_0000

  datatype WorkItem = WorkItem(offset: nat, limit: nat)

  /** The items that reach the queue when the first `m` pages are submitted and `accepts` says which arrive. */
  function Submitted(m: nat, limit: nat, accepts: nat -> bool): seq<WorkItem> {
    if m == 0 then []
    else Submitted(m - 1, limit, accepts) + if accepts(m - 1) then [WorkItem((m - 1) * limit, limit)] else []
  }

  /** The page that `index` belongs to, counted from zero. */
  function PageNumber(index: nat, limit: nat): nat
    requires limit > 0
  {
    index / limit
  }

  /**
   * `total(j)` is the item count that the monitor has stored when the loop test is evaluated for the
   * j-th time; `m` is the number of pages submitted. Every index up to the last total seen is covered
   * unless the push of its page failed.
   */
  method SubmitPages(itemsPerPacket: nat, total: nat -> nat, accepts: nat -> bool)
    returns (queue: seq<WorkItem>, m: nat)
    requires itemsPerPacket > 0
    requires forall j :: total(j) + itemsPerPacket < UINT64
    ensures queue == Submitted(m, itemsPerPacket, accepts)
    ensures forall j: nat :: j < m ==> j * itemsPerPacket <= total(j)
    ensures m * itemsPerPacket > total(m)
    ensures forall index: nat :: index <= total(m)
              ==> (Covered(queue, index) <==> accepts(PageNumber(index, itemsPerPacket)))
  {
    hide Covered;
    queue := [];
    m := 0;
    var i := 0;
    while i <= total(m)
      invariant i == m * itemsPerPacket < UINT64
      invariant queue == Submitted(m, itemsPerPacket, accepts)
      invariant forall j: nat :: j < m ==> j * itemsPerPacket <= total(j)
      decreases UINT64 - i
    {
      var workItem := WorkItem(i, itemsPerPacket);
      if accepts(m) {
        queue := queue + [workItem];
      }
      assert (m + 1) * itemsPerPacket == i + itemsPerPacket;
      i := (i + itemsPerPacket) % UINT64;
      m := m + 1;
    }
    AllAreCovered(m, itemsPerPacket, accepts, total(m));
  }

  predicate Covers(page: WorkItem, index: nat) {
    page.offset <= index < page.offset + page.limit
  }

  ghost predicate Covered(queue: seq<WorkItem>, index: nat) {
    exists page :: page in queue && Covers(page, index)
  }

  lemma {:induction false} PageOf(index: nat, q: nat, limit: nat)
    requires limit > 0
    ensures q * limit <= index < q * limit + limit <==> q == PageNumber(index, limit)
  {
    var d := PageNumber(index, limit);
    assert index == d * limit + index % limit;
    ProductsGrow(q, d, limit);
    ProductsGrow(d, q, limit);
  }

  /** Exactly the accepted multiples of the limit. */
  lemma {:induction false} SubmittedAre(m: nat, limit: nat, accepts: nat -> bool, page: WorkItem)
    requires limit > 0
    ensures page in Submitted(m, limit, accepts)
            <==> exists q: nat :: q < m && accepts(q) && page == WorkItem(q * limit, limit)
  {
    if m > 0 {
      SubmittedAre(m - 1, limit, accepts, page);
    }
  }

  /** Later pages start later, so none is submitted twice. */
  lemma {:induction false} SubmittedOnce(m: nat, limit: nat, accepts: nat -> bool)
    requires limit > 0
    ensures NoDuplicates(Submitted(m, limit, accepts))
  {
    if m > 0 {
      SubmittedOnce(m - 1, limit, accepts);
      var last := WorkItem((m - 1) * limit, limit);
      SubmittedAre(m - 1, limit, accepts, last);
      forall q: nat
        ensures q < m - 1 ==> q * limit != (m - 1) * limit
      {
        ProductsGrow(q, m - 1, limit);
      }
    }
  }

  /**
   * Pages are disjoint, and an index below the submitted range is covered exactly when the one page
   * it belongs to was accepted.
   */
  lemma {:induction false} EachIndexHasOnePage(m: nat, limit: nat, accepts: nat -> bool, index: nat)
    requires limit > 0
    ensures forall page :: page in Submitted(m, limit, accepts) && Covers(page, index)
              ==> page == WorkItem(PageNumber(index, limit) * limit, limit)
    ensures Covered(Submitted(m, limit, accepts), index)
            <==> PageNumber(index, limit) < m && accepts(PageNumber(index, limit))
  {
    forall page | page in Submitted(m, limit, accepts) && Covers(page, index)
      ensures page == WorkItem(PageNumber(index, limit) * limit, limit)
      ensures PageNumber(index, limit) < m && accepts(PageNumber(index, limit))
    {
      SubmittedAre(m, limit, accepts, page);
      var q: nat :| q < m && accepts(q) && page == WorkItem(q * limit, limit);
      PageOf(index, q, limit);
    }
    var mine := WorkItem(PageNumber(index, limit) * limit, limit);
    PageOf(index, PageNumber(index, limit), limit);
    SubmittedAre(m, limit, accepts, mine);
    assert Covers(mine, index);
  }

  /** An index up to the last total lies in a reached page, and so is covered exactly when that was accepted. */
  lemma {:induction false} LastTotalIsCovered(m: nat, limit: nat, accepts: nat -> bool, last: nat, index: nat)
    requires limit > 0 && m * limit > last && index <= last
    ensures Covered(Submitted(m, limit, accepts), index) <==> accepts(PageNumber(index, limit))
  {
    PageOf(index, PageNumber(index, limit), limit);
    ProductsGrow(m, PageNumber(index, limit), limit);
    EachIndexHasOnePage(m, limit, accepts, index);
  }

  lemma {:induction false} AllAreCovered(m: nat, limit: nat, accepts: nat -> bool, last: nat)
    requires limit > 0 && m * limit > last
    ensures forall index: nat :: index <= last
              ==> (Covered(Submitted(m, limit, accepts), index) <==> accepts(PageNumber(index, limit)))
  {
    hide Covered, Submitted;
    forall index: nat | index <= last
      ensures Covered(Submitted(m, limit, accepts), index) <==> accepts(PageNumber(index, limit))
    {
      LastTotalIsCovered(m, limit, accepts, last, index);
    }
  }

  /** The queue holds the pages in the order of their offsets. */
  lemma {:induction false} SubmittedInOrder(m: nat, limit: nat, accepts: nat -> bool, i: nat, j: nat)
    requires limit > 0 && i < j < |Submitted(m, limit, accepts)|
    ensures Submitted(m, limit, accepts)[i].offset < Submitted(m, limit, accepts)[j].offset
  {
    var front := Submitted(m - 1, limit, accepts);
    if j < |front| {
      SubmittedInOrder(m - 1, limit, accepts, i, j);
    } else {
      assert front[i] in front;
      SubmittedAre(m - 1, limit, accepts, front[i]);
      var q: nat :| q < m - 1 && accepts(q) && front[i] == WorkItem(q * limit, limit);
      ProductsGrow(q, m - 1, limit);
    }
  }
}
