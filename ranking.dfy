/** Ordering of count tables: the ranking of a tally by count, descending
    (`DataFrame.from_dict(...).sort_values(by="count", ascending=False)`), and
    the ordering of month counts by key, ascending (`sort_index()`). Pandas does
    not promise an order among equal counts; the functions below fix one, and
    nothing is stated about it. */
module Ranking {
  import opened Tallies
  import opened StringOrder

  /** Counts never increase from a row to any later row. */
  predicate ByCountDescending(es: seq<Entry>) {
    forall i, j :: 0 <= i < j < |es| ==> es[i].count >= es[j].count
  }

  /** Keys strictly increase from a row to any later row. */
  predicate ByKeyAscending(es: seq<Entry>) {
    forall i, j :: 0 <= i < j < |es| ==> Less(es[i].key, es[j].key)
  }

  /** Places `e` before the first row whose count does not exceed its own. */
  function InsertByCount(e: Entry, s: seq<Entry>): seq<Entry>
    decreases |s|
  {
    if s == [] || e.count >= s[0].count then [e] + s
    else [s[0]] + InsertByCount(e, s[1..])
  }

  /** Ranks a table by count, highest first (an insertion sort). */
  function SortByCount(es: seq<Entry>): seq<Entry>
    decreases |es|
  {
    if es == [] then [] else InsertByCount(es[0], SortByCount(es[1..]))
  }

  /** Places `e` before the first row whose key is greater than its own. */
  function InsertByKey(e: Entry, s: seq<Entry>): seq<Entry>
    decreases |s|
  {
    if s == [] || Less(e.key, s[0].key) then [e] + s
    else [s[0]] + InsertByKey(e, s[1..])
  }

  /** Orders a table by key, smallest first (an insertion sort). */
  function SortByKey(es: seq<Entry>): seq<Entry>
    decreases |es|
  {
    if es == [] then [] else InsertByKey(es[0], SortByKey(es[1..]))
  }

  /** Every row of `[x] + rest` other than the first is one of `s`'s or `e`,
      when `rest` holds the rows of `s` and `e`. */
  lemma InsertedRows(e: Entry, s: seq<Entry>, rest: seq<Entry>)
    requires multiset(rest) == multiset(s) + multiset{e}
    ensures forall x :: x in rest ==> x == e || x in s
  {
    forall x | x in rest ensures x == e || x in s {
      assert x in multiset(rest);
    }
  }

  lemma SumCons(e: Entry, s: seq<Entry>)
    ensures Sum([e] + s) == e.count + Sum(s)
  {
    assert ([e] + s)[1..] == s;
  }

  /** A row whose count is at least every count of a ranked table can head it. */
  lemma ConsByCount(x: Entry, rest: seq<Entry>)
    requires ByCountDescending(rest)
    requires forall y :: y in rest ==> x.count >= y.count
    ensures ByCountDescending([x] + rest)
  {
    var r := [x] + rest;
    forall i, j | 0 <= i < j < |r| ensures r[i].count >= r[j].count {
      assert r[j] == rest[j - 1];
      if i > 0 {
        assert r[i] == rest[i - 1];
      }
    }
  }

  /** A row whose key is below every key of an ordered table can head it. */
  lemma ConsByKey(x: Entry, rest: seq<Entry>)
    requires ByKeyAscending(rest)
    requires forall y :: y in rest ==> Less(x.key, y.key)
    ensures ByKeyAscending([x] + rest)
  {
    var r := [x] + rest;
    forall i, j | 0 <= i < j < |r| ensures Less(r[i].key, r[j].key) {
      assert r[j] == rest[j - 1];
      if i > 0 {
        assert r[i] == rest[i - 1];
      }
    }
  }

  /** Putting `e` first keeps a ranked table ranked when no count exceeds `e`'s. */
  lemma RankedWithNewHead(e: Entry, s: seq<Entry>)
    requires ByCountDescending(s)
    requires s == [] || e.count >= s[0].count
    ensures ByCountDescending([e] + s)
    ensures Sum([e] + s) == Sum(s) + e.count
  {
    forall y | y in s ensures e.count >= y.count {
      var j :| 0 <= j < |s| && s[j] == y;
    }
    ConsByCount(e, s);
    SumCons(e, s);
  }

  /** Keeping `head` first over the insertion into the rest of a ranked table
      keeps it ranked, when `e`'s count is below `head`'s. */
  lemma RankedWithOldHead(e: Entry, head: Entry, tail: seq<Entry>, rest: seq<Entry>)
    requires ByCountDescending([head] + tail) && e.count < head.count
    requires ByCountDescending(rest)
    requires multiset(rest) == multiset(tail) + multiset{e}
    requires Sum(rest) == Sum(tail) + e.count
    ensures ByCountDescending([head] + rest)
    ensures multiset([head] + rest) == multiset([head] + tail) + multiset{e}
    ensures Sum([head] + rest) == Sum([head] + tail) + e.count
  {
    var s := [head] + tail;
    InsertedRows(e, tail, rest);
    forall y | y in rest ensures head.count >= y.count {
      if y != e {
        var j :| 0 <= j < |tail| && tail[j] == y;
        assert s[0] == head && s[j + 1] == y;
      }
    }
    ConsByCount(head, rest);
    SumCons(head, rest);
    SumCons(head, tail);
  }

  /** Inserting into a ranked table keeps it ranked, adds exactly one row and
      adds that row's count to the total. */
  lemma {:induction false} InsertByCountCorrect(e: Entry, s: seq<Entry>)
    requires ByCountDescending(s)
    ensures ByCountDescending(InsertByCount(e, s))
    ensures multiset(InsertByCount(e, s)) == multiset(s) + multiset{e}
    ensures Sum(InsertByCount(e, s)) == Sum(s) + e.count
    decreases |s|
  {
    if s == [] || e.count >= s[0].count {
      RankedWithNewHead(e, s);
    } else {
      assert s == [s[0]] + s[1..];
      InsertByCountCorrect(e, s[1..]);
      RankedWithOldHead(e, s[0], s[1..], InsertByCount(e, s[1..]));
    }
  }

  /** The ranking is ordered by count, holds exactly the rows it was given,
      and keeps their total. */
  lemma {:induction false} SortByCountCorrect(es: seq<Entry>)
    ensures ByCountDescending(SortByCount(es))
    ensures multiset(SortByCount(es)) == multiset(es)
    ensures Sum(SortByCount(es)) == Sum(es)
    decreases |es|
  {
    if es != [] {
      SortByCountCorrect(es[1..]);
      InsertByCountCorrect(es[0], SortByCount(es[1..]));
      assert es == [es[0]] + es[1..];
      SumCons(es[0], es[1..]);
    }
  }

  /** Putting `e` first keeps a table ordered by key when its key is below the first. */
  lemma OrderedWithNewHead(e: Entry, s: seq<Entry>)
    requires ByKeyAscending(s)
    requires s == [] || Less(e.key, s[0].key)
    ensures ByKeyAscending([e] + s)
    ensures Sum([e] + s) == Sum(s) + e.count
  {
    forall y | y in s ensures Less(e.key, y.key) {
      var j :| 0 <= j < |s| && s[j] == y;
      if j > 0 {
        LessTransitive(e.key, s[0].key, y.key);
      }
    }
    ConsByKey(e, s);
    SumCons(e, s);
  }

  /** Keeping `head` first over the insertion into the rest of an ordered table
      keeps it ordered, when `e`'s key is above `head`'s. */
  lemma OrderedWithOldHead(e: Entry, head: Entry, tail: seq<Entry>, rest: seq<Entry>)
    requires ByKeyAscending([head] + tail) && Less(head.key, e.key)
    requires ByKeyAscending(rest)
    requires multiset(rest) == multiset(tail) + multiset{e}
    requires Sum(rest) == Sum(tail) + e.count
    ensures ByKeyAscending([head] + rest)
    ensures multiset([head] + rest) == multiset([head] + tail) + multiset{e}
    ensures Sum([head] + rest) == Sum([head] + tail) + e.count
  {
    var s := [head] + tail;
    InsertedRows(e, tail, rest);
    forall y | y in rest ensures Less(head.key, y.key) {
      if y != e {
        var j :| 0 <= j < |tail| && tail[j] == y;
        assert s[0] == head && s[j + 1] == y;
      }
    }
    ConsByKey(head, rest);
    SumCons(head, rest);
    SumCons(head, tail);
  }

  /** Inserting a new key into a table ordered by key keeps it ordered, adds
      exactly one row and adds that row's count to the total. */
  lemma {:induction false} InsertByKeyCorrect(e: Entry, s: seq<Entry>)
    requires ByKeyAscending(s)
    requires forall x :: x in s ==> x.key != e.key
    ensures ByKeyAscending(InsertByKey(e, s))
    ensures multiset(InsertByKey(e, s)) == multiset(s) + multiset{e}
    ensures Sum(InsertByKey(e, s)) == Sum(s) + e.count
    decreases |s|
  {
    if s == [] || Less(e.key, s[0].key) {
      OrderedWithNewHead(e, s);
    } else {
      assert s[0] in s;
      LessTotal(e.key, s[0].key);
      assert s == [s[0]] + s[1..];
      InsertByKeyCorrect(e, s[1..]);
      OrderedWithOldHead(e, s[0], s[1..], InsertByKey(e, s[1..]));
    }
  }

  /** The first key of a table with distinct keys occurs nowhere else in it. */
  lemma FirstKeyUnique(es: seq<Entry>)
    requires DistinctKeys(es) && es != []
    ensures DistinctKeys(es[1..])
    ensures forall x :: x in es[1..] ==> x.key != es[0].key
  {
    forall x | x in es[1..] ensures x.key != es[0].key {
      var j :| 0 <= j < |es[1..]| && es[1..][j] == x;
      assert es[j + 1] == x;
    }
  }

  /** A key absent from a table is absent from any reordering of it. */
  lemma KeyAbsentFromPermutation(k: string, s: seq<Entry>, t: seq<Entry>)
    requires multiset(s) == multiset(t)
    requires forall x :: x in s ==> x.key != k
    ensures forall x :: x in t ==> x.key != k
  {
    forall x | x in t ensures x.key != k {
      assert x in multiset(t);
      assert x in s;
    }
  }

  /** A row whose key occurs nowhere in a table with distinct keys can head it. */
  lemma ConsDistinct(x: Entry, rest: seq<Entry>)
    requires DistinctKeys(rest)
    requires forall y :: y in rest ==> y.key != x.key
    ensures DistinctKeys([x] + rest)
  {
    var r := [x] + rest;
    forall i, j | 0 <= i < j < |r| ensures r[i].key != r[j].key {
      assert r[j] == rest[j - 1];
      if i > 0 {
        assert r[i] == rest[i - 1];
      }
    }
  }

  /** Inserting a row with a new key into a ranked table with distinct keys
      keeps the keys distinct. */
  lemma {:induction false} InsertByCountDistinct(e: Entry, s: seq<Entry>)
    requires ByCountDescending(s) && DistinctKeys(s)
    requires forall x :: x in s ==> x.key != e.key
    ensures DistinctKeys(InsertByCount(e, s))
    decreases |s|
  {
    if s == [] || e.count >= s[0].count {
      ConsDistinct(e, s);
    } else {
      var rest := InsertByCount(e, s[1..]);
      assert s == [s[0]] + s[1..];
      assert s[0] in s;
      FirstKeyUnique(s);
      InsertByCountDistinct(e, s[1..]);
      InsertByCountCorrect(e, s[1..]);
      InsertedRows(e, s[1..], rest);
      ConsDistinct(s[0], rest);
    }
  }

  /** Ranking a table with distinct keys keeps the keys distinct. */
  lemma {:induction false} SortByCountDistinct(es: seq<Entry>)
    requires DistinctKeys(es)
    ensures DistinctKeys(SortByCount(es))
    decreases |es|
  {
    if es != [] {
      var sorted := SortByCount(es[1..]);
      FirstKeyUnique(es);
      SortByCountDistinct(es[1..]);
      SortByCountCorrect(es[1..]);
      KeyAbsentFromPermutation(es[0].key, es[1..], sorted);
      InsertByCountDistinct(es[0], sorted);
    }
  }

  /** Ordering a table with distinct keys by key yields a strictly increasing
      sequence of keys, the same rows and the same total. */
  lemma {:induction false} SortByKeyCorrect(es: seq<Entry>)
    requires DistinctKeys(es)
    ensures ByKeyAscending(SortByKey(es))
    ensures multiset(SortByKey(es)) == multiset(es)
    ensures Sum(SortByKey(es)) == Sum(es)
    decreases |es|
  {
    if es != [] {
      var sorted := SortByKey(es[1..]);
      FirstKeyUnique(es);
      SortByKeyCorrect(es[1..]);
      KeyAbsentFromPermutation(es[0].key, es[1..], sorted);
      InsertByKeyCorrect(es[0], sorted);
      assert es == [es[0]] + es[1..];
      SumCons(es[0], es[1..]);
    }
  }

  /** The table shown for a tally: its `(key, count)` pairs ranked by count,
      highest first. */
  function Rank(t: Tally): (r: seq<Entry>)
    requires t.Valid()
    ensures ByCountDescending(r)
    ensures DistinctKeys(r)
    ensures multiset(r) == multiset(t.Entries())
    ensures |r| == |t.counts|
    ensures forall e :: e in r ==> e.key in t.counts && e.count == t.counts[e.key]
    ensures forall k :: k in t.counts ==> Entry(k, t.counts[k]) in r
    ensures Sum(r) == Sum(t.Entries())
  {
    var r := SortByCount(t.Entries());
    SortByCountCorrect(t.Entries());
    SortByCountDistinct(t.Entries());
    EntriesSize(t);
    assert |r| == |multiset(r)| == |multiset(t.Entries())| == |t.Entries()|;
    assert forall e :: e in r <==> e in t.Entries() by {
      forall e ensures e in r <==> e in t.Entries() {
        assert e in r <==> e in multiset(r);
        assert e in t.Entries() <==> e in multiset(t.Entries());
      }
    }
    r
  }
}
