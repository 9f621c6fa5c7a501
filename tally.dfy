/** The occurrence tallies the script keeps in Python dicts (`label_count`,
    `assignee_count`, `reviewer_count`) and the `(key, count)` rows built from them. */
module Tallies {

  /** One row of a count table: a key and how often it occurred. */
  datatype Entry = Entry(key: string, count: int)

  /** No key occurs twice. */
  predicate Distinct(keys: seq<string>) {
    forall i, j :: 0 <= i < j < |keys| ==> keys[i] != keys[j]
  }

  /** No two rows share a key. */
  predicate DistinctKeys(es: seq<Entry>) {
    forall i, j :: 0 <= i < j < |es| ==> es[i].key != es[j].key
  }

  /** Sum of the counts of a table. */
  function Sum(es: seq<Entry>): int
    decreases |es|
  {
    if es == [] then 0 else es[0].count + Sum(es[1..])
  }

  /** A dict from key to count: its contents and the order in which its keys
      were first inserted (the order a Python dict iterates in). */
  datatype Tally = Tally(counts: map<string, int>, order: seq<string>) {

    /** The insertion order lists each key of the dict once, and every stored
        count is at least 1 (a key is inserted with 1 and only incremented). */
    ghost predicate Valid() {
      && Distinct(order)
      && (forall k :: k in counts <==> k in order)
      && (forall k :: k in counts ==> counts[k] >= 1)
    }

    /** The counting step: insert `key` with count 1 if absent, else add 1. */
    function Add(key: string): (r: Tally)
      ensures key in r.counts
      ensures r.counts[key] == if key in counts then counts[key] + 1 else 1
      ensures forall k :: k != key ==> (k in r.counts <==> k in counts)
      ensures forall k :: k != key && k in counts ==> r.counts[k] == counts[k]
      ensures r.order == if key in counts then order else order + [key]
      ensures Valid() ==> r.Valid()
    {
      if key in counts then Tally(counts[key := counts[key] + 1], order)
      else Tally(counts[key := 1], order + [key])
    }

    /** The dict's `(key, count)` pairs in insertion order
        (`pd.DataFrame.from_dict(..., orient="index")`). */
    function Entries(): (es: seq<Entry>)
      requires Valid()
      ensures DistinctKeys(es)
      ensures forall e :: e in es ==> e.key in counts && e.count == counts[e.key]
      ensures forall k :: k in counts ==> Entry(k, counts[k]) in es
    {
      var es := seq(|order|, i requires 0 <= i < |order| => Entry(order[i], counts[order[i]]));
      assert forall k :: k in counts ==> Entry(k, counts[k]) in es by {
        forall k | k in counts ensures Entry(k, counts[k]) in es {
          var i :| 0 <= i < |order| && order[i] == k;
          assert es[i] == Entry(k, counts[k]);
        }
      }
      es
    }
  }

  /** The empty dict `{}`. */
  const Empty: Tally := Tally(map[], [])

  /** The dict obtained by applying the counting step to each key of `xs` in turn. */
  function TallyOf(xs: seq<string>): Tally
    decreases |xs|
  {
    if xs == [] then Empty else TallyOf(xs[..|xs| - 1]).Add(xs[|xs| - 1])
  }

  /** Counting `xs` then one more key is counting `xs + [x]`. */
  lemma TallyOfSnoc(xs: seq<string>, x: string)
    ensures TallyOf(xs + [x]) == TallyOf(xs).Add(x)
  {
    assert (xs + [x])[..|xs|] == xs;
  }

  /** The tally of `xs` has exactly the keys occurring in `xs`, and each key's
      count is its number of occurrences. */
  lemma {:induction false} TallyOfCounts(xs: seq<string>)
    ensures TallyOf(xs).Valid()
    ensures forall k :: k in TallyOf(xs).counts <==> k in xs
    ensures forall k :: k in TallyOf(xs).counts ==> TallyOf(xs).counts[k] == multiset(xs)[k]
    decreases |xs|
  {
    if xs != [] {
      var init, x := xs[..|xs| - 1], xs[|xs| - 1];
      TallyOfCounts(init);
      assert xs == init + [x];
    }
  }

  /** Appending a row adds its count to the sum. */
  lemma {:induction false} SumSnoc(es: seq<Entry>, e: Entry)
    ensures Sum(es + [e]) == Sum(es) + e.count
    decreases |es|
  {
    if es != [] {
      assert (es + [e])[1..] == es[1..] + [e];
      SumSnoc(es[1..], e);
    }
  }

  /** Raising one row's count by one raises the sum by one. */
  lemma {:induction false} SumBump(a: seq<Entry>, b: seq<Entry>, p: nat)
    requires |a| == |b| && p < |a|
    requires forall i :: 0 <= i < |a| && i != p ==> a[i] == b[i]
    requires b[p].count == a[p].count + 1
    ensures Sum(b) == Sum(a) + 1
    decreases |a|
  {
    if p == 0 {
      assert a[1..] == b[1..];
    } else {
      SumBump(a[1..], b[1..], p - 1);
    }
  }

  /** One counting step adds exactly one to the total of the dict's counts. */
  lemma AddTotal(t: Tally, key: string)
    requires t.Valid()
    ensures Sum(t.Add(key).Entries()) == Sum(t.Entries()) + 1
  {
    var r := t.Add(key);
    var a, b := t.Entries(), r.Entries();
    if key in t.counts {
      var p :| 0 <= p < |t.order| && t.order[p] == key;
      SumBump(a, b, p);
    } else {
      assert b == a + [Entry(key, 1)];
      SumSnoc(a, Entry(key, 1));
    }
  }

  /** The counts of the tally of `xs` add up to the length of `xs`. */
  lemma {:induction false} TallyOfTotal(xs: seq<string>)
    ensures TallyOf(xs).Valid()
    ensures Sum(TallyOf(xs).Entries()) == |xs|
    decreases |xs|
  {
    TallyOfCounts(xs);
    if xs != [] {
      var init := xs[..|xs| - 1];
      TallyOfTotal(init);
      AddTotal(TallyOf(init), xs[|xs| - 1]);
    }
  }

  /** A list without repetitions has as many distinct elements as positions. */
  lemma {:induction false} DistinctSize(keys: seq<string>)
    requires Distinct(keys)
    ensures |set k | k in keys| == |keys|
    decreases |keys|
  {
    if keys != [] {
      var init, x := keys[..|keys| - 1], keys[|keys| - 1];
      DistinctSize(init);
      assert (set k | k in keys) == (set k | k in init) + {x};
      assert x !in (set k | k in init);
    }
  }

  /** A valid dict has one row per key. */
  lemma EntriesSize(t: Tally)
    requires t.Valid()
    ensures |t.Entries()| == |t.counts|
  {
    DistinctSize(t.order);
    assert t.counts.Keys == set k | k in t.order;
  }
}
