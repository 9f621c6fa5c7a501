/** The script body: building the records table while counting labels, counting
    assignees and reviewers, the monthly counts and the three ranked tables,
    and the render pass that runs them after the fetch. */
module Dashboard {
  import opened Wrappers
  import opened Records
  import opened Tallies
  import opened Timestamps
  import opened Ranking
  import Fetch

  /** One row of the records table (`data.append({...})`): the fields kept from
      a pull request, with its creation time parsed. */
  datatype Row = Row(
    id: int,
    title: string,
    author: string,
    assignees: seq<string>,
    reviewers: seq<string>,
    createdAt: DateTime)

  function ToRow(pr: PullRequest, created: DateTime): Row {
    Row(pr.id, pr.title, pr.author, pr.assignees, pr.reviewers, created)
  }

  /** Every record's creation timestamp is accepted by `strptime`. */
  predicate AllParsed(prs: seq<PullRequest>) {
    forall i :: 0 <= i < |prs| ==> Parse(prs[i].createdAt).Some?
  }

  /** The records table built from records whose timestamps all parse. */
  function RowsOf(prs: seq<PullRequest>): seq<Row>
    requires AllParsed(prs)
  {
    seq(|prs|, i requires 0 <= i < |prs| => ToRow(prs[i], Parse(prs[i].createdAt).value))
  }

  /** The table of the first `i + 1` records extends that of the first `i`
      by the row of record `i`. */
  lemma RowsOfSnoc(prs: seq<PullRequest>, i: nat)
    requires i < |prs| && AllParsed(prs[..i]) && Parse(prs[i].createdAt).Some?
    ensures AllParsed(prs[..i + 1])
    ensures RowsOf(prs[..i + 1]) == RowsOf(prs[..i]) + [ToRow(prs[i], Parse(prs[i].createdAt).value)]
  {
    assert forall k :: 0 <= k < i ==> prs[..i + 1][k] == prs[..i][k];
  }

  lemma ParsedBefore(prs: seq<PullRequest>, i: nat)
    requires i <= |prs| && AllParsed(prs[..i])
    ensures forall k :: 0 <= k < i ==> Parse(prs[k].createdAt).Some?
  {
    assert forall k :: 0 <= k < i ==> prs[..i][k] == prs[k];
  }

  /** Each row keeps its record's fields, and its parsed creation time, written
      back in the layout, is the record's `created_at` string. */
  lemma RowOfRecord(prs: seq<PullRequest>, i: nat)
    requires AllParsed(prs) && i < |prs|
    ensures |RowsOf(prs)| == |prs|
    ensures var row := RowsOf(prs)[i];
      && row.id == prs[i].id && row.title == prs[i].title && row.author == prs[i].author
      && row.assignees == prs[i].assignees && row.reviewers == prs[i].reviewers
      && Format(row.createdAt) == prs[i].createdAt
  {
    FormatParse(prs[i].createdAt);
  }

  /** The lists of a sequence of lists, concatenated in order. */
  function Concat(xss: seq<seq<string>>): seq<string>
    decreases |xss|
  {
    if xss == [] then [] else Concat(xss[..|xss| - 1]) + xss[|xss| - 1]
  }

  lemma ConcatSnoc(xss: seq<seq<string>>, xs: seq<string>)
    ensures Concat(xss + [xs]) == Concat(xss) + xs
  {
    assert (xss + [xs])[..|xss|] == xss;
  }

  function LabelLists(prs: seq<PullRequest>): seq<seq<string>> {
    seq(|prs|, i requires 0 <= i < |prs| => prs[i].labels)
  }

  function AssigneeLists(rows: seq<Row>): seq<seq<string>> {
    seq(|rows|, i requires 0 <= i < |rows| => rows[i].assignees)
  }

  function ReviewerLists(rows: seq<Row>): seq<seq<string>> {
    seq(|rows|, i requires 0 <= i < |rows| => rows[i].reviewers)
  }

  /** Every (pull request, label) pair, as the label's name. */
  function LabelNames(prs: seq<PullRequest>): seq<string> {
    Concat(LabelLists(prs))
  }

  /** Every (row, assignee) pair, as the assignee's login. */
  function AssigneeLogins(rows: seq<Row>): seq<string> {
    Concat(AssigneeLists(rows))
  }

  /** Every (row, requested reviewer) pair, as the reviewer's login. */
  function ReviewerLogins(rows: seq<Row>): seq<string> {
    Concat(ReviewerLists(rows))
  }

  /** Counting one more key of `keys` after the first `j`. */
  lemma CountedOneMore(seen: seq<string>, keys: seq<string>, j: nat)
    requires j < |keys|
    ensures TallyOf(seen + keys[..j + 1]) == TallyOf(seen + keys[..j]).Add(keys[j])
  {
    assert keys[..j + 1] == keys[..j] + [keys[j]];
    assert seen + keys[..j + 1] == (seen + keys[..j]) + [keys[j]];
    TallyOfSnoc(seen + keys[..j], keys[j]);
  }

  /** The inner counting loop the script writes out three times: apply the
      counting step to each key in turn. `seen` names the keys counted so far. */
  method CountEach(t: Tally, keys: seq<string>, ghost seen: seq<string>) returns (r: Tally)
    requires t == TallyOf(seen)
    ensures r == TallyOf(seen + keys)
  {
    r := t;
    var j := 0;
    assert seen + keys[..0] == seen;
    while j < |keys|
      invariant 0 <= j <= |keys|
      invariant r == TallyOf(seen + keys[..j])
    {
      CountedOneMore(seen, keys, j);
      r := r.Add(keys[j]);
      j := j + 1;
    }
    assert keys[..j] == keys;
  }

  /** Adding one more record's list to the concatenation. */
  lemma LabelNamesSnoc(prs: seq<PullRequest>, i: nat)
    requires i < |prs|
    ensures LabelNames(prs[..i + 1]) == LabelNames(prs[..i]) + prs[i].labels
  {
    assert LabelLists(prs[..i + 1]) == LabelLists(prs[..i]) + [prs[i].labels];
    ConcatSnoc(LabelLists(prs[..i]), prs[i].labels);
  }

  lemma AssigneeLoginsSnoc(rows: seq<Row>, i: nat)
    requires i < |rows|
    ensures AssigneeLogins(rows[..i + 1]) == AssigneeLogins(rows[..i]) + rows[i].assignees
  {
    assert AssigneeLists(rows[..i + 1]) == AssigneeLists(rows[..i]) + [rows[i].assignees];
    ConcatSnoc(AssigneeLists(rows[..i]), rows[i].assignees);
  }

  lemma ReviewerLoginsSnoc(rows: seq<Row>, i: nat)
    requires i < |rows|
    ensures ReviewerLogins(rows[..i + 1]) == ReviewerLogins(rows[..i]) + rows[i].reviewers
  {
    assert ReviewerLists(rows[..i + 1]) == ReviewerLists(rows[..i]) + [rows[i].reviewers];
    ConcatSnoc(ReviewerLists(rows[..i]), rows[i].reviewers);
  }

  /** What the first loop leaves behind: the records table and the label
      counts, or the position of the first record whose timestamp
      `strptime` rejects (which ends the script). */
  datatype Collected =
    | Collected(rows: seq<Row>, labelCount: Tally)
    | BadTimestamp(index: nat)

  /** The first loop of the script: for each pull request, parse its creation
      time, append its row, and count each of its labels. */
  method CollectRows(prs: seq<PullRequest>) returns (c: Collected)
    ensures c.BadTimestamp? ==>
      && c.index < |prs|
      && Parse(prs[c.index].createdAt).None?
      && forall i :: 0 <= i < c.index ==> Parse(prs[i].createdAt).Some?
    ensures c.Collected? ==>
      && AllParsed(prs)
      && c.rows == RowsOf(prs)
      && c.labelCount == TallyOf(LabelNames(prs))
      && c.labelCount.Valid()
      && (forall n :: n in c.labelCount.counts <==> n in LabelNames(prs))
      && (forall n :: n in c.labelCount.counts ==>
            c.labelCount.counts[n] == multiset(LabelNames(prs))[n] >= 1)
  {
    var data: seq<Row> := [];
    var labelCount := Empty;
    var i := 0;
    while i < |prs|
      invariant 0 <= i <= |prs|
      invariant AllParsed(prs[..i]) && data == RowsOf(prs[..i])
      invariant labelCount == TallyOf(LabelNames(prs[..i]))
    {
      var pr := prs[i];
      var createdAt := Parse(pr.createdAt);
      if createdAt.None? {
        ParsedBefore(prs, i);
        return BadTimestamp(i);
      }
      RowsOfSnoc(prs, i);
      data := data + [ToRow(pr, createdAt.value)];
      labelCount := CountEach(labelCount, pr.labels, LabelNames(prs[..i]));
      LabelNamesSnoc(prs, i);
      i := i + 1;
    }
    assert prs[..i] == prs;
    TallyOfCounts(LabelNames(prs));
    return Collected(data, labelCount);
  }

  /** The second loop of the script: for each row, count each assignee login
      and each requested-reviewer login. */
  method CountAssigneesAndReviewers(rows: seq<Row>) returns (assigneeCount: Tally, reviewerCount: Tally)
    ensures assigneeCount == TallyOf(AssigneeLogins(rows))
    ensures reviewerCount == TallyOf(ReviewerLogins(rows))
    ensures assigneeCount.Valid() && reviewerCount.Valid()
    ensures forall a :: a in assigneeCount.counts <==> a in AssigneeLogins(rows)
    ensures forall a :: a in assigneeCount.counts ==>
      assigneeCount.counts[a] == multiset(AssigneeLogins(rows))[a]
    ensures forall r :: r in reviewerCount.counts <==> r in ReviewerLogins(rows)
    ensures forall r :: r in reviewerCount.counts ==>
      reviewerCount.counts[r] == multiset(ReviewerLogins(rows))[r]
    ensures Sum(assigneeCount.Entries()) == |AssigneeLogins(rows)|
    ensures Sum(reviewerCount.Entries()) == |ReviewerLogins(rows)|
  {
    assigneeCount, reviewerCount := Empty, Empty;
    var i := 0;
    while i < |rows|
      invariant 0 <= i <= |rows|
      invariant assigneeCount == TallyOf(AssigneeLogins(rows[..i]))
      invariant reviewerCount == TallyOf(ReviewerLogins(rows[..i]))
    {
      var row := rows[i];
      assigneeCount := CountEach(assigneeCount, row.assignees, AssigneeLogins(rows[..i]));
      reviewerCount := CountEach(reviewerCount, row.reviewers, ReviewerLogins(rows[..i]));
      AssigneeLoginsSnoc(rows, i);
      ReviewerLoginsSnoc(rows, i);
      i := i + 1;
    }
    assert rows[..i] == rows;
    TallyOfCounts(AssigneeLogins(rows));
    TallyOfCounts(ReviewerLogins(rows));
    TallyOfTotal(AssigneeLogins(rows));
    TallyOfTotal(ReviewerLogins(rows));
  }

  /** The `created_month` column: each row's creation time as a `YYYY-MM`
      period string. */
  function MonthKeys(rows: seq<Row>): (keys: seq<string>)
    ensures |keys| == |rows|
    ensures forall i :: 0 <= i < |rows| ==> keys[i] == Format(rows[i].createdAt)[..7]
  {
    var keys := seq(|rows|, i requires 0 <= i < |rows| => MonthKey(rows[i].createdAt));
    assert forall i :: 0 <= i < |rows| ==> keys[i] == Format(rows[i].createdAt)[..7] by {
      forall i | 0 <= i < |rows| ensures keys[i] == Format(rows[i].createdAt)[..7] {
        MonthKeyOfFormat(rows[i].createdAt);
      }
    }
    keys
  }

  /** The counts of `keys` ordered by key: strictly ascending keys, exactly
      the keys that occur, each with its number of occurrences. */
  lemma KeyOrderedCounts(keys: seq<string>)
    ensures TallyOf(keys).Valid()
    ensures var r := SortByKey(TallyOf(keys).Entries());
      && ByKeyAscending(r)
      && (forall e :: e in r ==> e.key in keys && e.count == multiset(keys)[e.key])
      && (forall k :: k in keys ==> Entry(k, multiset(keys)[k]) in r)
      && Sum(r) == |keys|
  {
    var t := TallyOf(keys);
    TallyOfCounts(keys);
    TallyOfTotal(keys);
    var es := t.Entries();
    var r := SortByKey(es);
    SortByKeyCorrect(es);
    assert forall e :: e in r <==> e in es by {
      forall e ensures e in r <==> e in es {
        assert e in r <==> e in multiset(r);
        assert e in es <==> e in multiset(es);
      }
    }
  }

  /** `value_counts().sort_index()` on the month column: one row per month
      that occurs, with the number of pull requests created in it, in
      ascending order of the month string. */
  function MonthlyCounts(rows: seq<Row>): (r: seq<Entry>)
    ensures ByKeyAscending(r)
    ensures forall e :: e in r ==> e.key in MonthKeys(rows) && e.count == multiset(MonthKeys(rows))[e.key]
    ensures forall i :: 0 <= i < |rows| ==>
      var m := MonthKey(rows[i].createdAt); Entry(m, multiset(MonthKeys(rows))[m]) in r
    ensures Sum(r) == |rows|
  {
    var keys := MonthKeys(rows);
    KeyOrderedCounts(keys);
    assert forall i :: 0 <= i < |rows| ==> MonthKey(rows[i].createdAt) in keys by {
      forall i | 0 <= i < |rows| ensures MonthKey(rows[i].createdAt) in keys {
        assert keys[i] == MonthKey(rows[i].createdAt);
      }
    }
    SortByKey(TallyOf(keys).Entries())
  }

  /** The bar chart's months run in calendar order: in a table ordered by
      month key, such as `MonthlyCounts(rows)`, an earlier row is for an
      earlier month. */
  lemma MonthlyCountsChronological(r: seq<Entry>, i: nat, j: nat, a: DateTime, b: DateTime)
    requires ByKeyAscending(r) && i < j < |r|
    requires ValidDateTime(a) && r[i].key == MonthKey(a)
    requires ValidDateTime(b) && r[j].key == MonthKey(b)
    ensures a.year < b.year || (a.year == b.year && a.month < b.month)
  {
    MonthKeyChronological(a, b);
  }

  /** The month a record is counted under is the first seven characters of
      its `created_at` string. */
  lemma MonthOfRecord(prs: seq<PullRequest>, i: nat)
    requires AllParsed(prs) && i < |prs|
    ensures MonthKeys(RowsOf(prs))[i] == prs[i].createdAt[..7]
  {
    MonthKeyIsPrefix(prs[i].createdAt);
  }

  /** A tally of `keys` shown as a table ranked by count: each key that occurs
      appears once, with its number of occurrences, highest count first. */
  function Ranked(keys: seq<string>): (r: seq<Entry>)
    ensures ByCountDescending(r)
    ensures DistinctKeys(r)
    ensures forall e :: e in r ==> e.key in keys && e.count == multiset(keys)[e.key]
    ensures forall k :: k in keys ==> Entry(k, multiset(keys)[k]) in r
    ensures Sum(r) == |keys|
  {
    TallyOfCounts(keys);
    TallyOfTotal(keys);
    var t := TallyOf(keys);
    var r := Rank(t);
    assert forall k :: k in keys ==> k in t.counts;
    r
  }

  /** What the page shows: the records table, the monthly bar chart and the
      three ranked tables. */
  datatype Views = Views(
    rows: seq<Row>,
    monthly: seq<Entry>,
    assignees: seq<Entry>,
    reviewers: seq<Entry>,
    labels: seq<Entry>)

  /** How one run of the script ends. */
  datatype Pass =
    | Rendered(views: Views)
    | FetchAborted(status: int, page: nat)
    | TimestampRejected(index: nat)
    | MonthColumnMissing

  /** `p` is how a run ends when the endpoint answers `responses`: the fetch
      failure that aborted it, the first record whose timestamp is rejected,
      or the four views of exactly the fetched records. */
  predicate IsRunOf(responses: seq<Fetch.Response>, p: Pass)
    requires Fetch.Ends(responses)
  {
    var outcome := Fetch.Outcome(responses);
    && !p.MonthColumnMissing?
    && (p.FetchAborted? <==> outcome.FetchFailure?)
    && (p.FetchAborted? ==> p.status == outcome.status && p.page == outcome.page)
    && (outcome.Fetched? ==>
          var prs := outcome.pullRequests;
          && (p.TimestampRejected? ==>
                && p.index < |prs| && Parse(prs[p.index].createdAt).None?
                && forall i :: 0 <= i < p.index ==> Parse(prs[i].createdAt).Some?)
          && (p.Rendered? <==> AllParsed(prs))
          && (p.Rendered? ==>
                var rows := RowsOf(prs);
                p.views == Views(rows, MonthlyCounts(rows), Ranked(AssigneeLogins(rows)),
                                 Ranked(ReviewerLogins(rows)), Ranked(LabelNames(prs)))))
  }

  /** The description of a run leaves no choice: the answers decide how it ends. */
  lemma RunIsDetermined(responses: seq<Fetch.Response>, p: Pass, q: Pass)
    requires Fetch.Ends(responses) && IsRunOf(responses, p) && IsRunOf(responses, q)
    ensures p == q
  {
  }

  /** One run of the script: fetch every page, build the table and the label
      counts, count assignees and reviewers, then compute the four views.
      `responses` are the answers the API gives to pages 1, 2, ... in turn.
      With no records at all this is the corrected script: it shows empty
      views where the script as written fails (see `RenderPassAsWritten`). */
  method RenderPass(responses: seq<Fetch.Response>) returns (p: Pass)
    requires Fetch.Ends(responses)
    ensures IsRunOf(responses, p)
  {
    var fetched, _ := Fetch.FetchPullRequests(responses);
    if fetched.FetchFailure? {
      return FetchAborted(fetched.status, fetched.page);
    }
    var prs := fetched.pullRequests;
    var collected := CollectRows(prs);
    if collected.BadTimestamp? {
      return TimestampRejected(collected.index);
    }
    var rows := collected.rows;
    var assigneeCount, reviewerCount := CountAssigneesAndReviewers(rows);
    var monthly := MonthlyCounts(rows);
    var assignees := Rank(assigneeCount);
    var reviewers := Rank(reviewerCount);
    var labels := Rank(collected.labelCount);
    p := Rendered(Views(rows, monthly, assignees, reviewers, labels));
  }

  /** The script as written. A records table built from no records has no
      columns at all, so selecting `created_at` for the month column fails
      (`KeyError`) and the run ends there. On every other run it ends as
      `RenderPass` does. */
  method RenderPassAsWritten(responses: seq<Fetch.Response>) returns (p: Pass)
    requires Fetch.Ends(responses)
    ensures p.MonthColumnMissing? <==> Fetch.Outcome(responses) == Fetch.Fetched([])
    ensures !p.MonthColumnMissing? ==> IsRunOf(responses, p)
  {
    var fetched, _ := Fetch.FetchPullRequests(responses);
    if fetched.FetchFailure? {
      return FetchAborted(fetched.status, fetched.page);
    }
    var prs := fetched.pullRequests;
    var collected := CollectRows(prs);
    if collected.BadTimestamp? {
      return TimestampRejected(collected.index);
    }
    var rows := collected.rows;
    var assigneeCount, reviewerCount := CountAssigneesAndReviewers(rows);
    if rows == [] {
      return MonthColumnMissing;
    }
    var monthly := MonthlyCounts(rows);
    var assignees := Rank(assigneeCount);
    var reviewers := Rank(reviewerCount);
    var labels := Rank(collected.labelCount);
    p := Rendered(Views(rows, monthly, assignees, reviewers, labels));
  }

  /** A repository with no open pull requests: the first page is empty and the
      fetch succeeds with nothing, whatever the endpoint would answer later.
      The script as written then fails at the month column, while the
      corrected run shows five empty views. */
  lemma NoOpenPullRequests(responses: seq<Fetch.Response>, p: Pass)
    requires |responses| > 0 && responses[0] == Fetch.Response(Fetch.StatusOk, [])
    ensures Fetch.Ends(responses)
    ensures Fetch.Outcome(responses) == Fetch.Fetched([])
    ensures IsRunOf(responses, p) ==> p == Rendered(Views([], [], [], [], []))
  {
    Fetch.EmptyPageCompletes(responses, 0);
    assert responses[..0] == [];
    assert LabelNames([]) == [] && AssigneeLogins([]) == [] && ReviewerLogins([]) == [];
  }
}
