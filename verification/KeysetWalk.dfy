/** Keyset pages: what lies strictly above the last key seen, in order, up to a limit. */
module KeysetWalk {
  import opened Wrappers
  import Order

  /** What a listing is ordered by, compared component by component. */
  type Key = seq<int>

  // ---- one page --------------------------------------------------------

  function Put<T>(key: T -> Key, row: T, sorted: seq<T>): seq<T>
  {
    if sorted == [] || Order.Less(key(row), key(sorted[0])) then [row] + sorted
    else [sorted[0]] + Put(key, row, sorted[1..])
  }

  /** `ORDER BY` the key. */
  function Sorted<T>(key: T -> Key, rows: seq<T>): seq<T>
  {
    if rows == [] then [] else Put(key, rows[0], Sorted(key, rows[1..]))
  }

  /** `WHERE` the key is above the last one seen. */
  function Beyond<T>(key: T -> Key, rows: seq<T>, after: Option<Key>): seq<T>
  {
    if rows == [] then []
    else if IsBeyond(key(rows[0]), after) then [rows[0]] + Beyond(key, rows[1..], after)
    else Beyond(key, rows[1..], after)
  }

  predicate IsBeyond(key: Key, after: Option<Key>)
  {
    after.None? || Order.Less(after.value, key)
  }

  function Page<T>(key: T -> Key, rows: seq<T>, after: Option<Key>, limit: nat): seq<T>
  {
    var sorted := Sorted(key, Beyond(key, rows, after));
    if |sorted| <= limit then sorted else sorted[..limit]
  }

  /** The last row of a full page, and nothing otherwise. */
  function LastOfAFullPage<T>(page: seq<T>, limit: nat): Option<T>
  {
    if page != [] && |page| >= limit then Some(page[|page| - 1]) else None
  }

  // ---- ordering --------------------------------------------------------

  ghost predicate DistinctKeys<T>(key: T -> Key, rows: seq<T>)
  {
    forall i, j :: 0 <= i < j < |rows| ==> key(rows[i]) != key(rows[j])
  }

  ghost predicate Ascends<T>(key: T -> Key, rows: seq<T>)
  {
    forall i, j :: 0 <= i < j < |rows| ==> Order.Less(key(rows[i]), key(rows[j]))
  }

  lemma {:induction false} PuttingAdds<T>(key: T -> Key, row: T, sorted: seq<T>, x: T)
    ensures x in Put(key, row, sorted) <==> x == row || x in sorted
  {
    if sorted != [] && !Order.Less(key(row), key(sorted[0])) {
      PuttingAdds(key, row, sorted[1..], x);
      assert sorted == [sorted[0]] + sorted[1..];
    }
  }

  lemma {:induction false} PuttingKeepsTheOrder<T>(key: T -> Key, row: T, sorted: seq<T>)
    requires Ascends(key, sorted) && forall x :: x in sorted ==> key(x) != key(row)
    ensures Ascends(key, Put(key, row, sorted))
  {
    if sorted != [] {
      if Order.Less(key(row), key(sorted[0])) {
        forall j | 0 <= j < |sorted| ensures Order.Less(key(row), key(sorted[j])) {
          if j > 0 {
            Order.Transitive(key(row), key(sorted[0]), key(sorted[j]));
          }
        }
      } else {
        Order.Trichotomy(key(row), key(sorted[0]));
        assert sorted[0] in sorted;
        PuttingKeepsTheOrder(key, row, sorted[1..]);
        var rest := Put(key, row, sorted[1..]);
        forall j | 0 <= j < |rest| ensures Order.Less(key(sorted[0]), key(rest[j])) {
          PuttingAdds(key, row, sorted[1..], rest[j]);
          if rest[j] in sorted[1..] {
            var i :| 0 <= i < |sorted[1..]| && sorted[1..][i] == rest[j];
            assert Order.Less(key(sorted[0]), key(sorted[i + 1]));
          }
        }
      }
    }
  }

  lemma {:induction false} SortingKeepsTheRows<T>(key: T -> Key, rows: seq<T>, x: T)
    ensures x in Sorted(key, rows) <==> x in rows
  {
    if rows != [] {
      SortingKeepsTheRows(key, rows[1..], x);
      PuttingAdds(key, rows[0], Sorted(key, rows[1..]), x);
      assert rows == [rows[0]] + rows[1..];
    }
  }

  /** Rows with distinct keys sort into strictly ascending order. */
  lemma {:induction false} SortingAscends<T>(key: T -> Key, rows: seq<T>)
    requires DistinctKeys(key, rows)
    ensures Ascends(key, Sorted(key, rows))
  {
    if rows != [] {
      assert DistinctKeys(key, rows[1..]);
      SortingAscends(key, rows[1..]);
      forall x | x in Sorted(key, rows[1..]) ensures key(x) != key(rows[0]) {
        SortingKeepsTheRows(key, rows[1..], x);
        var i :| 0 <= i < |rows[1..]| && rows[1..][i] == x;
        assert key(rows[0]) != key(rows[i + 1]);
      }
      PuttingKeepsTheOrder(key, rows[0], Sorted(key, rows[1..]));
    }
  }

  lemma {:induction false} WhatIsBeyond<T>(key: T -> Key, rows: seq<T>, after: Option<Key>, x: T)
    ensures x in Beyond(key, rows, after) <==> x in rows && IsBeyond(key(x), after)
  {
    if rows != [] {
      WhatIsBeyond(key, rows[1..], after, x);
      assert rows == [rows[0]] + rows[1..];
    }
  }

  lemma {:induction false} BeyondIsDistinct<T>(key: T -> Key, rows: seq<T>, after: Option<Key>)
    requires DistinctKeys(key, rows)
    ensures DistinctKeys(key, Beyond(key, rows, after))
  {
    if rows != [] {
      assert DistinctKeys(key, rows[1..]);
      BeyondIsDistinct(key, rows[1..], after);
      forall x | x in Beyond(key, rows[1..], after) ensures key(x) != key(rows[0]) {
        WhatIsBeyond(key, rows[1..], after, x);
        var i :| 0 <= i < |rows[1..]| && rows[1..][i] == x;
        assert key(rows[0]) != key(rows[i + 1]);
      }
    }
  }

  /** Ascending sequences of the same rows are the same. */
  lemma {:induction false} OneAscendingOrder<T>(key: T -> Key, a: seq<T>, b: seq<T>)
    requires Ascends(key, a) && Ascends(key, b)
    requires forall x :: x in a <==> x in b
    ensures a == b
  {
    assert b != [] ==> b[0] in b;
    if a != [] {
      assert a[0] in b;
      HeadsAgree(key, a, b);
      forall x ensures x in a[1..] <==> x in b[1..] {
        TheRestIsTheOthers(key, a, x);
        TheRestIsTheOthers(key, b, x);
      }
      OneAscendingOrder(key, a[1..], b[1..]);
      assert a == [a[0]] + a[1..] && b == [b[0]] + b[1..];
    }
  }

  lemma HeadsAgree<T>(key: T -> Key, a: seq<T>, b: seq<T>)
    requires Ascends(key, a) && Ascends(key, b) && a != [] && b != []
    requires a[0] in b && b[0] in a
    ensures a[0] == b[0]
  {
    if a[0] != b[0] {
      assert Order.Less(key(a[0]), key(b[0]));
      assert Order.Less(key(b[0]), key(a[0]));
      Order.Asymmetric(key(a[0]), key(b[0]));
    }
  }

  lemma TheRestIsTheOthers<T>(key: T -> Key, a: seq<T>, x: T)
    requires Ascends(key, a) && a != []
    ensures x in a[1..] <==> x in a && x != a[0]
  {
    Order.Irreflexive(key(a[0]));
    assert a == [a[0]] + a[1..];
    if x in a[1..] {
      var i :| 0 <= i < |a[1..]| && a[1..][i] == x;
      assert Order.Less(key(a[0]), key(a[i + 1]));
    }
  }

  // ---- what a page holds -----------------------------------------------

  lemma APageAscends<T>(key: T -> Key, rows: seq<T>, after: Option<Key>, limit: nat)
    requires DistinctKeys(key, rows)
    ensures Ascends(key, Page(key, rows, after, limit)) && |Page(key, rows, after, limit)| <= limit
  {
    BeyondIsDistinct(key, rows, after);
    SortingAscends(key, Beyond(key, rows, after));
  }

  /** A page leaves out only rows above its last, and those only when it is full. */
  lemma WhatAPageLeavesOut<T>(key: T -> Key, sorted: seq<T>, limit: nat, x: T)
    requires Ascends(key, sorted) && limit > 0 && x in sorted && (|sorted| > limit ==> x !in sorted[..limit])
    ensures |sorted| > limit ==> Order.Less(key(sorted[limit - 1]), key(x))
  {
    if |sorted| > limit {
      var i :| 0 <= i < |sorted| && sorted[i] == x;
      assert forall k :: 0 <= k < limit ==> sorted[..limit][k] == sorted[k] && sorted[..limit][k] in sorted[..limit];
    }
  }

  /** A page lies beyond its bound, and what it leaves out lies beyond the next. */
  lemma WhatAPageHolds<T>(key: T -> Key, rows: seq<T>, after: Option<Key>, limit: nat, x: T)
    requires DistinctKeys(key, rows) && limit > 0
    ensures var page := Page(key, rows, after, limit);
            && (x in page ==> x in rows && IsBeyond(key(x), after))
            && (x in rows && IsBeyond(key(x), after) && x !in page ==>
                  LastOfAFullPage(page, limit).Some? && Order.Less(key(LastOfAFullPage(page, limit).value), key(x)))
  {
    var sorted, page := Sorted(key, Beyond(key, rows, after)), Page(key, rows, after, limit);
    BeyondIsDistinct(key, rows, after);
    SortingAscends(key, Beyond(key, rows, after));
    WhatIsBeyond(key, rows, after, x);
    SortingKeepsTheRows(key, Beyond(key, rows, after), x);
    if x in sorted && x !in page {
      WhatAPageLeavesOut(key, sorted, limit, x);
      assert page[|page| - 1] == sorted[limit - 1];
    }
  }

  // ---- a walk ----------------------------------------------------------

  function Flatten<T>(pages: seq<seq<T>>): seq<T>
  {
    if pages == [] then [] else Flatten(pages[..|pages| - 1]) + pages[|pages| - 1]
  }

  /** The key the next page is read beyond. */
  function NextAfter<T>(key: T -> Key, pages: seq<seq<T>>, limit: nat): Option<Key>
  {
    if pages == [] then None else
    match LastOfAFullPage(pages[|pages| - 1], limit)
    case Some(last) => Some(key(last))
    case None => None
  }

  /** Pages each read beyond the last, from tables that only grow. */
  ghost predicate IsWalk<T>(key: T -> Key, tables: seq<seq<T>>, pages: seq<seq<T>>, limit: nat)
  {
    && |tables| == |pages|
    && (pages != [] ==>
          var n := |pages| - 1;
          && IsWalk(key, tables[..n], pages[..n], limit)
          && DistinctKeys(key, tables[n]) && pages[n] == Page(key, tables[n], NextAfter(key, pages[..n], limit), limit)
          && (n > 0 ==> NextAfter(key, pages[..n], limit).Some? && Grew(tables[n - 1], tables[n])))
  }

  ghost predicate Grew<T>(before: seq<T>, after: seq<T>)
  {
    forall x :: x in before ==> x in after
  }

  ghost predicate Finished<T>(key: T -> Key, pages: seq<seq<T>>, limit: nat)
  {
    pages != [] && NextAfter(key, pages, limit).None?
  }

  lemma OnePageMore<T>(key: T -> Key, tables: seq<seq<T>>, pages: seq<seq<T>>, limit: nat, table: seq<T>, page: seq<T>)
    requires IsWalk(key, tables, pages, limit) && DistinctKeys(key, table)
    requires page == Page(key, table, NextAfter(key, pages, limit), limit)
    requires pages != [] ==> NextAfter(key, pages, limit).Some? && Grew(tables[|pages| - 1], table)
    ensures IsWalk(key, tables + [table], pages + [page], limit)
  {
    assert (tables + [table])[..|tables|] == tables && (pages + [page])[..|pages|] == pages;
  }

  lemma EveryRowOfAPage<T>(key: T -> Key, rows: seq<T>, after: Option<Key>, limit: nat)
    requires DistinctKeys(key, rows) && limit > 0
    ensures forall x :: x in Page(key, rows, after, limit) ==> x in rows && IsBeyond(key(x), after)
  {
    forall x | x in Page(key, rows, after, limit) ensures x in rows && IsBeyond(key(x), after) {
      WhatAPageHolds(key, rows, after, limit, x);
    }
  }

  lemma AWalkEndsAtTheNextKey<T>(key: T -> Key, pages: seq<seq<T>>, limit: nat)
    requires NextAfter(key, pages, limit).Some?
    ensures Flatten(pages) != [] && key(Flatten(pages)[|Flatten(pages)| - 1]) == NextAfter(key, pages, limit).value
  {
  }

  /** Whatever arrives meanwhile, rows come out strictly ascending, so none repeats. */
  lemma {:induction false} AWalkNeverRepeats<T>(key: T -> Key, tables: seq<seq<T>>, pages: seq<seq<T>>, limit: nat)
    requires IsWalk(key, tables, pages, limit) && limit > 0
    ensures Ascends(key, Flatten(pages))
    decreases |pages|
  {
    if pages != [] {
      var n := |pages| - 1;
      var before, next := Flatten(pages[..n]), NextAfter(key, pages[..n], limit);
      AWalkNeverRepeats(key, tables[..n], pages[..n], limit);
      APageAscends(key, tables[n], next, limit);
      if n == 0 {
        assert before + pages[n] == pages[n];
      } else {
        AWalkEndsAtTheNextKey(key, pages[..n], limit);
        EveryRowOfAPage(key, tables[n], next, limit);
        AscendingJoins(key, before, pages[n]);
      }
    }
  }

  /** And every one of them was in the last table read. */
  lemma {:induction false} AWalkGivesWhatIsThere<T>(key: T -> Key, tables: seq<seq<T>>, pages: seq<seq<T>>, limit: nat)
    requires IsWalk(key, tables, pages, limit) && limit > 0 && pages != []
    ensures forall x :: x in Flatten(pages) ==> x in tables[|pages| - 1]
    decreases |pages|
  {
    var n := |pages| - 1;
    if n > 0 {
      AWalkGivesWhatIsThere(key, tables[..n], pages[..n], limit);
    }
    EveryRowOfAPage(key, tables[n], NextAfter(key, pages[..n], limit), limit);
  }

  lemma AscendingJoins<T>(key: T -> Key, a: seq<T>, b: seq<T>)
    requires Ascends(key, a) && Ascends(key, b) && a != []
    requires forall x :: x in b ==> Order.Less(key(a[|a| - 1]), key(x))
    ensures Ascends(key, a + b)
  {
    forall i, j | 0 <= i < j < |a + b| ensures Order.Less(key((a + b)[i]), key((a + b)[j])) {
      if i < |a| <= j {
        assert b[j - |a|] in b;
        if i < |a| - 1 {
          Order.Transitive(key(a[i]), key(a[|a| - 1]), key(b[j - |a|]));
        }
      }
    }
  }

  /** A row in the first table is either already out or still ahead. */
  lemma {:induction false} ARowIsOutOrAhead<T>(key: T -> Key, tables: seq<seq<T>>, pages: seq<seq<T>>, limit: nat, x: T)
    requires IsWalk(key, tables, pages, limit) && limit > 0 && pages != [] && x in tables[0]
    ensures x in tables[|tables| - 1]
    ensures x in Flatten(pages) || (NextAfter(key, pages, limit).Some? && Order.Less(NextAfter(key, pages, limit).value, key(x)))
    decreases |pages|
  {
    var n := |pages| - 1;
    if n > 0 {
      ARowIsOutOrAhead(key, tables[..n], pages[..n], limit, x);
    }
    WhatAPageHolds(key, tables[n], NextAfter(key, pages[..n], limit), limit, x);
  }

  ghost predicate AppearsOnce<T>(rows: seq<T>, x: T)
  {
    exists k :: 0 <= k < |rows| && rows[k] == x && forall j :: 0 <= j < |rows| && j != k ==> rows[j] != x
  }

  /** A finished walk of a growing table gives every row present at its start
      exactly once, and no row twice. */
  lemma AFinishedWalkMissesNothing<T>(key: T -> Key, tables: seq<seq<T>>, pages: seq<seq<T>>, limit: nat, x: T)
    requires IsWalk(key, tables, pages, limit) && limit > 0 && Finished(key, pages, limit)
    ensures x in tables[0] || x in Flatten(pages) ==> AppearsOnce(Flatten(pages), x)
  {
    AWalkNeverRepeats(key, tables, pages, limit);
    var flat := Flatten(pages);
    if x in tables[0] {
      ARowIsOutOrAhead(key, tables, pages, limit, x);
    }
    if x in flat {
      var k :| 0 <= k < |flat| && flat[k] == x;
      forall j | 0 <= j < |flat| && j != k ensures flat[j] != x {
        Order.Irreflexive(key(x));
        assert if j < k then Order.Less(key(flat[j]), key(flat[k])) else Order.Less(key(flat[k]), key(flat[j]));
      }
    }
  }

  // ---- a fixed set -----------------------------------------------------

  function Times<T>(rows: seq<T>, n: nat): (tables: seq<seq<T>>)
    ensures |tables| == n
  {
    if n == 0 then [] else Times(rows, n - 1) + [rows]
  }

  /** The same rows under every page. */
  ghost predicate IsFixedWalk<T>(key: T -> Key, rows: seq<T>, pages: seq<seq<T>>, limit: nat)
  {
    IsWalk(key, Times(rows, |pages|), pages, limit)
  }

  lemma OnePageMoreOfTheSame<T>(key: T -> Key, rows: seq<T>, pages: seq<seq<T>>, limit: nat, page: seq<T>)
    requires IsFixedWalk(key, rows, pages, limit) && DistinctKeys(key, rows)
    requires page == Page(key, rows, NextAfter(key, pages, limit), limit)
    requires pages != [] ==> NextAfter(key, pages, limit).Some?
    ensures IsFixedWalk(key, rows, pages + [page], limit)
  {
    OnePageMore(key, Times(rows, |pages|), pages, limit, rows, page);
  }

  lemma {:induction false} EveryTimeTheSame<T>(rows: seq<T>, n: nat, i: nat)
    requires i < n
    ensures Times(rows, n)[i] == rows
    decreases n
  {
    if i < n - 1 {
      EveryTimeTheSame(rows, n - 1, i);
    }
  }

  /** A finished walk of a fixed set is that set in order. */
  lemma AFinishedWalkIsTheWholeInOrder<T>(key: T -> Key, rows: seq<T>, pages: seq<seq<T>>, limit: nat)
    requires IsFixedWalk(key, rows, pages, limit) && limit > 0 && Finished(key, pages, limit) && DistinctKeys(key, rows)
    ensures Flatten(pages) == Sorted(key, rows) && Ascends(key, Flatten(pages))
  {
    AWalkNeverRepeats(key, Times(rows, |pages|), pages, limit);
    AWalkGivesWhatIsThere(key, Times(rows, |pages|), pages, limit);
    EveryTimeTheSame(rows, |pages|, |pages| - 1);
    SortingAscends(key, rows);
    EveryTimeTheSame(rows, |pages|, 0);
    forall x ensures x in Flatten(pages) <==> x in Sorted(key, rows) {
      SortingKeepsTheRows(key, rows, x);
      if x in rows {
        ARowIsOutOrAhead(key, Times(rows, |pages|), pages, limit, x);
      }
    }
    OneAscendingOrder(key, Flatten(pages), Sorted(key, rows));
  }

  lemma {:induction false} FullPages<T>(key: T -> Key, tables: seq<seq<T>>, pages: seq<seq<T>>, limit: nat)
    requires IsWalk(key, tables, pages, limit) && limit > 0 && NextAfter(key, pages, limit).Some?
    ensures |Flatten(pages)| == |pages| * limit
    decreases |pages|
  {
    var n := |pages| - 1;
    if n > 0 {
      FullPages(key, tables[..n], pages[..n], limit);
    }
    APageAscends(key, tables[n], NextAfter(key, pages[..n], limit), limit);
    assert |pages| * limit == n * limit + limit;
  }

  lemma {:induction false} DistinctRowsCount<T>(a: seq<T>, b: seq<T>)
    requires forall i, j :: 0 <= i < j < |a| ==> a[i] != a[j]
    requires forall x :: x in a ==> x in b
    ensures |a| <= |b|
    decreases |a|
  {
    if a != [] {
      assert a[0] in b;
      var i :| 0 <= i < |b| && b[i] == a[0];
      var rest := b[..i] + b[i + 1..];
      forall x | x in a[1..] ensures x in rest {
        assert x in a;
        var j :| 0 <= j < |b| && b[j] == x;
        assert if j < i then rest[j] == x else rest[j - 1] == x;
      }
      DistinctRowsCount(a[1..], rest);
    }
  }

  /** A walk of a fixed set, finished or not, reads at most one page past its full
      ones, so it terminates. */
  lemma AWalkOfAFixedSetTerminates<T>(key: T -> Key, rows: seq<T>, pages: seq<seq<T>>, limit: nat, n: nat)
    requires IsFixedWalk(key, rows, pages, limit) && limit > 0 && |pages| == n + 1
    ensures n * limit <= |rows|
  {
    if n > 0 {
      var before := Flatten(pages[..n]);
      var tables := Times(rows, n + 1);
      FullPages(key, tables[..n], pages[..n], limit);
      AWalkNeverRepeats(key, tables[..n], pages[..n], limit);
      AWalkGivesWhatIsThere(key, tables[..n], pages[..n], limit);
      EveryTimeTheSame(rows, n + 1, n - 1);
      forall i, j | 0 <= i < j < |before| ensures before[i] != before[j] {
        Order.Irreflexive(key(before[i]));
      }
      DistinctRowsCount(before, rows);
    }
  }
}
