/** Walking a table in pages by a key cursor (orm/builder_ext.go, Chunk). */
module Chunking {
  import opened Prelude
  import opened Ordering

  /** A row that the scoped filter accepts: its primary key and the column of a caller's own order. */
  datatype Row = Row(id: int, rank: int)

  predicate ById(a: Row, b: Row) {
    a.id < b.id || (a.id == b.id && a.rank <= b.rank)
  }

  predicate ByRank(a: Row, b: Row) {
    a.rank < b.rank || (a.rank == b.rank && a.id <= b.id)
  }

  ghost predicate UniqueIds(rows: seq<Row>) {
    forall i, j | 0 <= i < j < |rows| :: rows[i].id != rows[j].id
  }

  /** The rows whose key is past the cursor. */
  function Past(rows: seq<Row>, last: int): seq<Row> {
    if rows == [] then [] else (if rows[0].id > last then [rows[0]] else []) + Past(rows[1..], last)
  }

  function After(rows: seq<Row>, last: Option<int>): seq<Row> {
    if last.None? then rows else Past(rows, last.value)
  }

  /** The query's order: a caller's own OrderBy comes before the primary key. */
  function InQueryOrder(rows: seq<Row>, callerOrdered: bool): (all: seq<Row>)
    ensures multiset(all) == multiset(rows) && |all| == |rows|
  {
    var le := Order(callerOrdered);
    SortPermutes(rows, le);
    SortKeepsElements(rows, le);
    Sort(rows, le)
  }

  function Order(callerOrdered: bool): (Row, Row) -> bool {
    if callerOrdered then ByRank else ById
  }

  /** The answer to one query with LIMIT size. */
  function Front(rows: seq<Row>, size: nat, callerOrdered: bool): (page: seq<Row>)
    ensures |page| == if |rows| < size then |rows| else size
  {
    var all := InQueryOrder(rows, callerOrdered);
    if |all| <= size then all else all[..size]
  }

  /** The pages a walk with no failing callback visits, from the rows past its cursor. */
  function Pages(rest: seq<Row>, size: nat, callerOrdered: bool): seq<seq<Row>>
    requires 0 < size
    decreases |rest|
  {
    var page := Front(rest, size, callerOrdered);
    if |page| == 0 then []
    else if |page| < size then [page]
    else
      CursorMoves(rest, size, callerOrdered);
      [page] + Pages(Past(rest, page[size - 1].id), size, callerOrdered)
  }

  function Flat(batches: seq<seq<Row>>): seq<Row> {
    if batches == [] then [] else batches[0] + Flat(batches[1..])
  }

  /** Each full page, in the query's order, ends with the largest key so far and below all later keys. */
  ghost predicate PagesRise(all: seq<Row>, size: nat)
    requires 0 < size
    decreases |all|
  {
    size <= |all| ==> Splits(all, size) && PagesRise(all[size..], size)
  }

  ghost predicate Splits(all: seq<Row>, size: nat)
    requires 0 < size <= |all|
  {
    && (forall i | 0 <= i < size :: all[i].id <= all[size - 1].id)
    && (forall j | size <= j < |all| :: all[size - 1].id < all[j].id)
  }

  lemma OrderIsTotal(callerOrdered: bool)
    ensures TotalOrder(Order(callerOrdered))
  {
  }

  lemma OrderSorts(rows: seq<Row>, callerOrdered: bool)
    ensures SortedBy(InQueryOrder(rows, callerOrdered), Order(callerOrdered))
  {
    OrderIsTotal(callerOrdered);
    SortSorts(rows, Order(callerOrdered));
  }

  lemma {:induction false} PastCounts(rows: seq<Row>, last: int, r: Row)
    ensures multiset(Past(rows, last))[r] == if r.id > last then multiset(rows)[r] else 0
  {
    if rows != [] {
      PastCounts(rows[1..], last, r);
      assert rows == [rows[0]] + rows[1..];
    }
  }

  lemma PastMembers(rows: seq<Row>, last: int)
    ensures forall r :: r in Past(rows, last) <==> r in rows && r.id > last
  {
    forall r ensures r in Past(rows, last) <==> r in rows && r.id > last {
      PastCounts(rows, last, r);
      assert r in multiset(Past(rows, last)) <==> r in Past(rows, last);
      assert r in multiset(rows) <==> r in rows;
    }
  }

  lemma {:induction false} PastNarrows(rows: seq<Row>, last: int)
    ensures |Past(rows, last)| <= |rows|
    ensures (exists r :: r in rows && r.id <= last) ==> |Past(rows, last)| < |rows|
  {
    if rows != [] {
      PastNarrows(rows[1..], last);
    }
  }

  lemma {:induction false} PastTwice(rows: seq<Row>, last: int, next: int)
    requires last <= next
    ensures Past(Past(rows, last), next) == Past(rows, next)
  {
    if rows != [] {
      var tail := Past(rows[1..], last);
      PastTwice(rows[1..], last, next);
      if rows[0].id > last {
        assert ([rows[0]] + tail)[1..] == tail;
      } else {
        assert Past(rows, last) == tail;
      }
    }
  }

  lemma {:induction false} PastStaysUnique(rows: seq<Row>, last: int)
    requires UniqueIds(rows)
    ensures UniqueIds(Past(rows, last))
  {
    if rows != [] {
      PastStaysUnique(rows[1..], last);
      PastMembers(rows[1..], last);
    }
  }

  /** The cursor of a full page leaves at least its own row behind. */
  lemma CursorMoves(rest: seq<Row>, size: nat, callerOrdered: bool)
    requires 0 < size <= |rest|
    ensures var last := Front(rest, size, callerOrdered)[size - 1]; last in rest && |Past(rest, last.id)| < |rest|
  {
    var all := InQueryOrder(rest, callerOrdered);
    var last := Front(rest, size, callerOrdered)[size - 1];
    assert last == all[size - 1];
    assert last in multiset(all);
    PastNarrows(rest, last.id);
  }

  lemma {:induction false} UniqueOnce(rows: seq<Row>, r: Row)
    requires UniqueIds(rows)
    ensures multiset(rows)[r] <= 1
  {
    if rows != [] {
      UniqueOnce(rows[1..], r);
      assert rows == [rows[0]] + rows[1..];
      if rows[0] == r {
        assert r !in rows[1..];
        assert r !in multiset(rows[1..]);
      }
    }
  }

  lemma PagesAreDrawn(rest: seq<Row>, size: nat, callerOrdered: bool)
    requires 0 < size
    ensures forall r | r in Flat(Pages(rest, size, callerOrdered)) :: r in rest
    decreases |rest|
  {
    var all, pages := InQueryOrder(rest, callerOrdered), Pages(rest, size, callerOrdered);
    forall r | r in all ensures r in rest {
      assert r in multiset(all);
    }
    if size <= |rest| {
      CursorMoves(rest, size, callerOrdered);
      var past := Past(rest, all[size - 1].id);
      assert pages[1..] == Pages(past, size, callerOrdered);
      PagesAreDrawn(past, size, callerOrdered);
      PastMembers(rest, all[size - 1].id);
    } else if rest != [] {
      assert pages[1..] == [];
      assert Flat(pages) == all;
    }
  }

  lemma RestCounts(all: seq<Row>, size: nat, r: Row)
    requires 0 < size <= |all| && Splits(all, size)
    ensures multiset(all[size..])[r] == if r.id > all[size - 1].id then multiset(all)[r] else 0
  {
    assert all == all[..size] + all[size..];
    assert multiset(all)[r] == multiset(all[..size])[r] + multiset(all[size..])[r];
    if r.id > all[size - 1].id {
      assert r !in all[..size];
      assert r !in multiset(all[..size]);
    } else {
      assert r !in all[size..];
      assert r !in multiset(all[size..]);
    }
  }

  /** When a full page splits the keys, what is past its cursor is the rest of the order. */
  lemma PastIsRest(rest: seq<Row>, size: nat, callerOrdered: bool)
    requires 0 < size <= |rest| && Splits(InQueryOrder(rest, callerOrdered), size)
    ensures var all := InQueryOrder(rest, callerOrdered);
            InQueryOrder(Past(rest, all[size - 1].id), callerOrdered) == all[size..]
  {
    var all := InQueryOrder(rest, callerOrdered);
    var past := Past(rest, all[size - 1].id);
    forall r ensures multiset(past)[r] == multiset(all[size..])[r] {
      PastCounts(rest, all[size - 1].id, r);
      RestCounts(all, size, r);
    }
    OrderSorts(rest, callerOrdered);
    OrderSorts(past, callerOrdered);
    OrderIsTotal(callerOrdered);
    SuffixIsSorted(all, size, Order(callerOrdered));
    SortedIsUnique(InQueryOrder(past, callerOrdered), all[size..], Order(callerOrdered));
  }

  lemma SuffixIsSorted(all: seq<Row>, k: nat, le: (Row, Row) -> bool)
    requires k <= |all| && SortedBy(all, le)
    ensures SortedBy(all[k..], le)
  {
  }

  /** If the pages after the first visit exactly the rows after it, the later rows are past the cursor. */
  lemma RestVisitedIsPast(rest: seq<Row>, all: seq<Row>, size: nat, callerOrdered: bool, j: nat)
    requires 0 < size <= j < |all|
    requires multiset(Flat(Pages(Past(rest, all[size - 1].id), size, callerOrdered))) == multiset(all[size..])
    ensures all[size - 1].id < all[j].id
  {
    var past := Past(rest, all[size - 1].id);
    var visited := Flat(Pages(past, size, callerOrdered));
    PagesAreDrawn(past, size, callerOrdered);
    PastMembers(rest, all[size - 1].id);
    assert all[size..][j - size] == all[j];
    assert all[j] in multiset(visited);
  }

  /** Likewise no row of the first page is past the cursor: the second page would begin with it. */
  lemma RestVisitedIsBelow(rest: seq<Row>, all: seq<Row>, size: nat, callerOrdered: bool, i: nat)
    requires UniqueIds(rest) && i < size <= |rest| && all == InQueryOrder(rest, callerOrdered)
    requires multiset(Flat(Pages(Past(rest, all[size - 1].id), size, callerOrdered))) == multiset(all[size..])
    ensures all[i].id <= all[size - 1].id
  {
    var past := Past(rest, all[size - 1].id);
    if all[size - 1].id < all[i].id {
      assert all[i] in multiset(all);
      PastMembers(rest, all[size - 1].id);
      FirstIsVisited(past, size, callerOrdered);
      assert all[i] in multiset(InQueryOrder(past, callerOrdered));
      OrderSorts(rest, callerOrdered);
      OrderSorts(past, callerOrdered);
      RepeatsFrom(all, i, size, InQueryOrder(past, callerOrdered), callerOrdered);
      UniqueOnce(rest, all[i]);
    }
  }

  /** A row of the first page that a later order begins no later with is there twice. */
  lemma RepeatsFrom(all: seq<Row>, i: nat, size: nat, ordered: seq<Row>, callerOrdered: bool)
    requires i < size <= |all| && ordered != [] && all[i] in ordered && ordered[0] in multiset(all[size..])
    requires SortedBy(all, Order(callerOrdered)) && SortedBy(ordered, Order(callerOrdered))
    ensures multiset(all)[all[i]] >= 2
  {
    assert ordered[0] in all[size..];
    var j :| 0 <= j < |all| - size && all[size..][j] == ordered[0];
    SameRowTwice(all, i, size + j, ordered, callerOrdered);
  }

  lemma RestVisitedSplits(rest: seq<Row>, size: nat, callerOrdered: bool)
    requires UniqueIds(rest) && 0 < size <= |rest|
    requires var all := InQueryOrder(rest, callerOrdered);
             multiset(Flat(Pages(Past(rest, all[size - 1].id), size, callerOrdered))) == multiset(all[size..])
    ensures Splits(InQueryOrder(rest, callerOrdered), size)
  {
    var all := InQueryOrder(rest, callerOrdered);
    forall i | 0 <= i < size ensures all[i].id <= all[size - 1].id {
      RestVisitedIsBelow(rest, all, size, callerOrdered, i);
    }
    forall j | size <= j < |all| ensures all[size - 1].id < all[j].id {
      RestVisitedIsPast(rest, all, size, callerOrdered, j);
    }
  }

  /** The first row of the order is visited. */
  lemma FirstIsVisited(rest: seq<Row>, size: nat, callerOrdered: bool)
    requires 0 < size && rest != []
    ensures InQueryOrder(rest, callerOrdered)[0] in multiset(Flat(Pages(rest, size, callerOrdered)))
  {
    var all, pages := InQueryOrder(rest, callerOrdered), Pages(rest, size, callerOrdered);
    assert pages[0][0] == all[0];
    assert Flat(pages)[0] == all[0];
  }

  /** A row at i that another order puts no earlier than the row at j > i is that row. */
  lemma SameRowTwice(all: seq<Row>, i: nat, j: nat, ordered: seq<Row>, callerOrdered: bool)
    requires i < j < |all| && ordered != [] && all[i] in ordered && ordered[0] == all[j]
    requires SortedBy(all, Order(callerOrdered)) && SortedBy(ordered, Order(callerOrdered))
    ensures multiset(all)[all[i]] >= 2
  {
    var le := Order(callerOrdered);
    var k :| 0 <= k < |ordered| && ordered[k] == all[i];
    assert le(all[i], all[j]) && (k == 0 || le(ordered[0], ordered[k]));
    TwiceIn(all, i, j);
  }

  /** A walk with no failing callback visits every row exactly once if and only if each full page,
      in the query's order, ends with a key above those before it and below those after it. Then
      it visits the rows in the query's order. */
  lemma {:induction false} EveryRowOnceIffPagesRise(rows: seq<Row>, size: nat, callerOrdered: bool)
    requires UniqueIds(rows) && 0 < size
    ensures multiset(Flat(Pages(rows, size, callerOrdered))) == multiset(rows)
        <==> PagesRise(InQueryOrder(rows, callerOrdered), size)
    ensures PagesRise(InQueryOrder(rows, callerOrdered), size)
        ==> Flat(Pages(rows, size, callerOrdered)) == InQueryOrder(rows, callerOrdered)
    decreases |rows|
  {
    var all := InQueryOrder(rows, callerOrdered);
    if |rows| < size {
      LastPage(rows, size, callerOrdered);
    } else {
      CursorMoves(rows, size, callerOrdered);
      var past := Past(rows, all[size - 1].id);
      PastStaysUnique(rows, all[size - 1].id);
      EveryRowOnceIffPagesRise(past, size, callerOrdered);
      FirstPage(rows, all, size, callerOrdered);
      LaterPages(rows, size, callerOrdered);
      FirstPageCounts(rows, all, size, Flat(Pages(past, size, callerOrdered)));
      TakeAndDrop(all, size);
    }
  }

  lemma TakeAndDrop(all: seq<Row>, k: nat)
    requires k <= |all|
    ensures all[..k] + all[k..] == all
  {
  }

  lemma LastPage(rows: seq<Row>, size: nat, callerOrdered: bool)
    requires |rows| < size
    ensures Flat(Pages(rows, size, callerOrdered)) == InQueryOrder(rows, callerOrdered)
    ensures PagesRise(InQueryOrder(rows, callerOrdered), size)
  {
    var pages := Pages(rows, size, callerOrdered);
    if rows != [] {
      assert pages[1..] == [];
    }
  }

  /** The rows visited are the first page and those visited past its cursor. */
  lemma FirstPage(rows: seq<Row>, all: seq<Row>, size: nat, callerOrdered: bool)
    requires 0 < size <= |rows| && all == InQueryOrder(rows, callerOrdered)
    ensures Flat(Pages(rows, size, callerOrdered))
         == all[..size] + Flat(Pages(Past(rows, all[size - 1].id), size, callerOrdered))
  {
    CursorMoves(rows, size, callerOrdered);
    var later := Pages(Past(rows, all[size - 1].id), size, callerOrdered);
    assert Front(rows, size, callerOrdered) == all[..size];
    assert Pages(rows, size, callerOrdered) == [all[..size]] + later;
    assert ([all[..size]] + later)[1..] == later;
  }

  lemma FirstPageCounts(rows: seq<Row>, all: seq<Row>, size: nat, later: seq<Row>)
    requires 0 < size <= |all| && multiset(all) == multiset(rows)
    ensures multiset(all[..size] + later) == multiset(rows) <==> multiset(later) == multiset(all[size..])
  {
    SameTail(all[..size], later, all[size..]);
    assert all == all[..size] + all[size..];
  }

  lemma LaterPages(rows: seq<Row>, size: nat, callerOrdered: bool)
    requires UniqueIds(rows) && 0 < size <= |rows|
    ensures var all := InQueryOrder(rows, callerOrdered);
            var past := Past(rows, all[size - 1].id);
            && (Splits(all, size) ==> InQueryOrder(past, callerOrdered) == all[size..]
                                      && multiset(past) == multiset(all[size..]))
            && (multiset(Flat(Pages(past, size, callerOrdered))) == multiset(all[size..]) ==> Splits(all, size))
  {
    var all := InQueryOrder(rows, callerOrdered);
    var past := Past(rows, all[size - 1].id);
    if multiset(Flat(Pages(past, size, callerOrdered))) == multiset(all[size..]) {
      RestVisitedSplits(rows, size, callerOrdered);
    }
    if Splits(all, size) {
      PastIsRest(rows, size, callerOrdered);
    }
  }

  lemma SameTail(head: seq<Row>, a: seq<Row>, b: seq<Row>)
    ensures multiset(head + a) == multiset(head + b) <==> multiset(a) == multiset(b)
  {
    assert multiset(a) == multiset(head + a) - multiset(head);
    assert multiset(b) == multiset(head + b) - multiset(head);
  }

  /** In the order of the primary key every full page ends with the largest key so far. */
  lemma {:induction false} KeyOrderRises(all: seq<Row>, size: nat)
    requires 0 < size && UniqueIds(all) && SortedBy(all, ById)
    ensures PagesRise(all, size)
    decreases |all|
  {
    if size <= |all| {
      forall i, j | 0 <= i < j < |all| ensures all[i].id < all[j].id {
        assert ById(all[i], all[j]);
      }
      KeyOrderRises(all[size..], size);
    }
  }

  lemma TwiceIn(all: seq<Row>, i: nat, j: nat)
    requires i < j < |all| && all[i] == all[j]
    ensures multiset(all)[all[i]] >= 2
  {
    assert all == all[..j] + [all[j]] + all[j + 1..];
    assert all[..j][i] == all[i];
    assert all[i] in multiset(all[..j]);
  }

  /** Sorting keeps keys unique. */
  lemma OrderStaysUnique(rows: seq<Row>, callerOrdered: bool)
    requires UniqueIds(rows)
    ensures UniqueIds(InQueryOrder(rows, callerOrdered))
  {
    var all := InQueryOrder(rows, callerOrdered);
    forall i, j | 0 <= i < j < |all| ensures all[i].id != all[j].id {
      if all[i].id == all[j].id {
        assert all[i] in multiset(rows) && all[j] in multiset(rows);
        var p :| 0 <= p < |rows| && rows[p] == all[i];
        var q :| 0 <= q < |rows| && rows[q] == all[j];
        UniqueOnce(rows, all[i]);
        assert rows[p] == rows[q];
        TwiceIn(all, i, j);
      }
    }
  }

  /** Without an order of the caller's own, every row is visited once, in key order. */
  lemma KeyOrderVisitsAll(rows: seq<Row>, size: nat)
    requires UniqueIds(rows) && 0 < size
    ensures Flat(Pages(rows, size, false)) == Sort(rows, ById)
  {
    OrderStaysUnique(rows, false);
    OrderSorts(rows, false);
    KeyOrderRises(InQueryOrder(rows, false), size);
    EveryRowOnceIffPagesRise(rows, size, false);
  }

  /** With an order of the caller's own in front of the key, the cursor can skip rows. */
  lemma CallerOrderSkipsRows()
    ensures var rows := [Row(1, 2), Row(2, 1)];
            UniqueIds(rows) && multiset(Flat(Pages(rows, 1, true))) != multiset(rows)
  {
    var rows := [Row(1, 2), Row(2, 1)];
    var all := InQueryOrder(rows, true);
    assert Row(1, 2) in multiset(all) && Row(2, 1) in multiset(all);
    OrderSorts(rows, true);
    assert Order(true)(all[0], all[1]);
    assert !Splits(all, 1);
    EveryRowOnceIffPagesRise(rows, 1, true);
  }

  /** It can also visit a row twice: the second page begins with the row that the first began with,
      whose key is above that page's cursor. */
  lemma CallerOrderRepeatsRows()
    ensures var rows := [Row(5, 1), Row(3, 2)];
            UniqueIds(rows) && Flat(Pages(rows, 2, true)) == [Row(5, 1), Row(3, 2), Row(5, 1)]
  {
    var rows := [Row(5, 1), Row(3, 2)];
    var all := InQueryOrder(rows, true);
    OrderSorts(rows, true);
    assert Order(true)(all[0], all[1]);
    assert Row(5, 1) in multiset(all) && Row(3, 2) in multiset(all);
    assert all == rows;
    var rest := [Row(5, 1)];
    assert rows[1..] == [Row(3, 2)] && rows[1..][1..] == [];
    assert Past(rows[1..], 3) == [];
    assert Past(rows, 3) == rest;
    assert InQueryOrder(rest, true)[0] in multiset(rest);
    assert Pages(rest, 2, true) == [rest];
    assert Pages(rows, 2, true) == [rows] + [rest];
    var pages := [rows] + [rest];
    assert pages[1..] == [rest] && [rest][1..] == [];
    assert Flat([rest]) == rest + Flat([]);
    assert Flat(pages) == rows + Flat([rest]) == [Row(5, 1), Row(3, 2), Row(5, 1)];
  }

  /** Pages until one is not full. oks says whether the i-th call of the callback succeeds; a
      failing call stops the walk, having been given its page. */
  method Chunk(rows: seq<Row>, size: int, callerOrdered: bool, oks: nat -> bool) returns (batches: seq<seq<Row>>, ok: bool)
    ensures var all := Pages(rows, if size < 1 then 1 else size, callerOrdered);
            if ok then batches == all && AllOk(oks, |all|) else StoppedAt(batches, all, oks)
  {
    var n: nat := if size < 1 then 1 else size;
    var last: Option<int> := None;
    ghost var all := Pages(rows, n, callerOrdered);
    batches, ok := [], true;
    while ok
      invariant if ok then OnTheWay(batches, all, oks, rows, last, n, callerOrdered) else StoppedAt(batches, all, oks)
      decreases ok, |After(rows, last)|
    {
      var batch := Query(rows, last, n, callerOrdered, batches, all, oks);
      if |batch| == 0 {
        break;
      }
      batches, ok := batches + [batch], oks(|batches|);
      if ok {
        if |batch| < n {
          break;
        }
        last := Some(batch[|batch| - 1].id);
      }
    }
  }

  /** The first n calls of the callback succeed. */
  ghost predicate AllOk(oks: nat -> bool, n: nat) {
    forall i: nat | i < n :: oks(i)
  }

  /** The walk was stopped by the callback's failure on the last page it was given. */
  ghost predicate StoppedAt(batches: seq<seq<Row>>, all: seq<seq<Row>>, oks: nat -> bool) {
    0 < |batches| && batches <= all && AllOk(oks, |batches| - 1) && !oks(|batches| - 1)
  }

  /** The callback has accepted the pages so far, and the walk goes on past the cursor. */
  ghost predicate OnTheWay(batches: seq<seq<Row>>, all: seq<seq<Row>>, oks: nat -> bool,
      rows: seq<Row>, last: Option<int>, size: nat, callerOrdered: bool)
    requires 0 < size
  {
    batches + Pages(After(rows, last), size, callerOrdered) == all && AllOk(oks, |batches|)
  }

  lemma OnePage(batches: seq<seq<Row>>, all: seq<seq<Row>>, oks: nat -> bool,
      rows: seq<Row>, last: Option<int>, size: nat, callerOrdered: bool, page: seq<Row>)
    requires 0 < size && After(rows, last) != [] && OnTheWay(batches, all, oks, rows, last, size, callerOrdered)
    requires page == Front(After(rows, last), size, callerOrdered)
    ensures && (!oks(|batches|) ==> StoppedAt(batches + [page], all, oks))
            && (oks(|batches|) && |page| < size ==> batches + [page] == all && AllOk(oks, |all|))
            && (oks(|batches|) && |page| == size ==>
                  && OnTheWay(batches + [page], all, oks, rows, Some(page[|page| - 1].id), size, callerOrdered)
                  && |After(rows, Some(page[|page| - 1].id))| < |After(rows, last)|)
  {
    PageOn(rows, last, size, callerOrdered, page);
    var later := if |page| < size then [] else Pages(After(rows, Some(page[|page| - 1].id)), size, callerOrdered);
    var rest := Pages(After(rows, last), size, callerOrdered);
    assert rest == [page] + later;
    TakePage(batches, page, later, all, oks);
  }

  /** One query, and what its answer means for the walk. */
  method Query(rows: seq<Row>, last: Option<int>, size: nat, callerOrdered: bool,
      ghost batches: seq<seq<Row>>, ghost all: seq<seq<Row>>, ghost oks: nat -> bool)
    returns (page: seq<Row>)
    requires 0 < size && OnTheWay(batches, all, oks, rows, last, size, callerOrdered)
    ensures page == Front(After(rows, last), size, callerOrdered)
    ensures page == [] ==> batches == all
    ensures page != [] && !oks(|batches|) ==> StoppedAt(batches + [page], all, oks)
    ensures page != [] && oks(|batches|) && |page| < size ==> batches + [page] == all && AllOk(oks, |all|)
    ensures oks(|batches|) && |page| == size ==>
              && OnTheWay(batches + [page], all, oks, rows, Some(page[|page| - 1].id), size, callerOrdered)
              && |After(rows, Some(page[|page| - 1].id))| < |After(rows, last)|
  {
    page := Front(After(rows, last), size, callerOrdered);
    if page != [] {
      OnePage(batches, all, oks, rows, last, size, callerOrdered, page);
    }
  }

  lemma TakePage(batches: seq<seq<Row>>, page: seq<Row>, later: seq<seq<Row>>, all: seq<seq<Row>>, oks: nat -> bool)
    requires batches + ([page] + later) == all && AllOk(oks, |batches|)
    ensures (batches + [page]) + later == all
    ensures later == [] ==> batches + [page] == all
    ensures if oks(|batches|) then AllOk(oks, |batches + [page]|) else StoppedAt(batches + [page], all, oks)
  {
    assert batches + ([page] + later) == (batches + [page]) + later;
  }

  /** What is past a page's cursor does not depend on the cursor before it. */
  lemma PageOn(rows: seq<Row>, last: Option<int>, size: nat, callerOrdered: bool, page: seq<Row>)
    requires 0 < size && After(rows, last) != [] && page == Front(After(rows, last), size, callerOrdered)
    ensures 0 < |page| <= size
    ensures |page| < size ==> Pages(After(rows, last), size, callerOrdered) == [page]
    ensures |page| == size ==>
              && Pages(After(rows, last), size, callerOrdered) == [page] + Pages(After(rows, Some(page[|page| - 1].id)), size, callerOrdered)
              && |After(rows, Some(page[|page| - 1].id))| < |After(rows, last)|
  {
    var rest := After(rows, last);
    if size <= |rest| {
      CursorMoves(rest, size, callerOrdered);
      var next := page[size - 1].id;
      if last.Some? {
        PastMembers(rows, last.value);
        PastTwice(rows, last.value, next);
      }
    }
  }
}
