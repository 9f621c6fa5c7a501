/** The paginated fetch of all open pull requests (`fetch_pull_requests`).
    The HTTP call is replaced by the sequence of answers the endpoint gives:
    `responses[p - 1]` is its answer to the request for page `p`. */
module Fetch {
  import opened Records

  /** Number of records asked for per page (`per_page=100`). */
  const PerPage: nat := 100

  /** HTTP status code of a successful listing call. */
  const StatusOk: int := 200

  /** One answer of the listing endpoint: its status code and, for a successful
      call, the decoded list of records. */
  datatype Response = Response(status: int, items: seq<PullRequest>)

  /** The paging parameters of one listing request. */
  datatype PageRequest = PageRequest(page: nat, perPage: nat)

  /** What the fetch produces: every record, or the failure that aborted it
      (the status code and the page whose request failed). */
  datatype FetchResult =
    | Fetched(pullRequests: seq<PullRequest>)
    | FetchFailure(status: int, page: nat)

  /** A response after which no further page is requested: an error, or a
      successful call with an empty payload. */
  predicate StopsFetch(r: Response) {
    r.status != StatusOk || r.items == []
  }

  /** The endpoint, asked for pages 1, 2, 3, ... in turn, eventually answers
      with an error or an empty page. Without this the fetch does not end. */
  predicate Ends(responses: seq<Response>)
    decreases |responses|
  {
    |responses| > 0 && (StopsFetch(responses[0]) || Ends(responses[1..]))
  }

  /** Index of the first response that stops the fetch. */
  function StopIndex(responses: seq<Response>): (k: nat)
    requires Ends(responses)
    ensures k < |responses| && StopsFetch(responses[k])
    ensures forall j :: 0 <= j < k ==> !StopsFetch(responses[j])
    decreases |responses|
  {
    if StopsFetch(responses[0]) then 0 else 1 + StopIndex(responses[1..])
  }

  /** The items of the given pages, concatenated in page order. */
  function Items(pages: seq<Response>): seq<PullRequest>
    decreases |pages|
  {
    if pages == [] then [] else Items(pages[..|pages| - 1]) + pages[|pages| - 1].items
  }

  /** Total number of items on the given pages. */
  function ItemCount(pages: seq<Response>): nat
    decreases |pages|
  {
    if pages == [] then 0 else ItemCount(pages[..|pages| - 1]) + |pages[|pages| - 1].items|
  }

  /** Reference outcome of the fetch: the first stopping response decides it. */
  function Outcome(responses: seq<Response>): FetchResult
    requires Ends(responses)
  {
    var k := StopIndex(responses);
    if responses[k].status == StatusOk then Fetched(Items(responses[..k]))
    else FetchFailure(responses[k].status, k + 1)
  }

  /** The fetch loop: request page 1, 2, 3, ...; abort on a non-200 status;
      stop at the first empty page; otherwise append the page's items.
      `requests` is the trace of the requests issued, in order. */
  method FetchPullRequests(responses: seq<Response>)
    returns (result: FetchResult, requests: seq<PageRequest>)
    requires Ends(responses)
    ensures result == Outcome(responses)
    ensures |requests| == StopIndex(responses) + 1
    ensures forall i :: 0 <= i < |requests| ==> requests[i] == PageRequest(i + 1, PerPage)
  {
    var pullRequests: seq<PullRequest> := [];
    var page: nat := 1;
    requests := [];
    while true
      invariant 1 <= page <= StopIndex(responses) + 1
      invariant pullRequests == Items(responses[..page - 1])
      invariant |requests| == page - 1
      invariant forall i :: 0 <= i < |requests| ==> requests[i] == PageRequest(i + 1, PerPage)
      decreases StopIndex(responses) + 1 - page
    {
      requests := requests + [PageRequest(page, PerPage)];
      var response := responses[page - 1];
      if response.status == StatusOk {
        var data := response.items;
        if data == [] {
          break;
        }
        assert responses[..page][..page - 1] == responses[..page - 1];
        pullRequests := pullRequests + data;
        page := page + 1;
      } else {
        return FetchFailure(response.status, page), requests;
      }
    }
    return Fetched(pullRequests), requests;
  }

  /** An error or an empty page anywhere in the answers makes the fetch end. */
  lemma {:induction false} EndsAt(responses: seq<Response>, j: nat)
    requires j < |responses| && StopsFetch(responses[j])
    ensures Ends(responses)
    decreases j
  {
    if j > 0 && !StopsFetch(responses[0]) {
      EndsAt(responses[1..], j - 1);
    }
  }

  /** A non-200 answer aborts the whole fetch with that status and page, even
      when every earlier page succeeded with records. */
  lemma ErrorAborts(responses: seq<Response>, j: nat)
    requires j < |responses| && responses[j].status != StatusOk
    requires forall i :: 0 <= i < j ==> responses[i].status == StatusOk && responses[i].items != []
    ensures Ends(responses)
    ensures Outcome(responses) == FetchFailure(responses[j].status, j + 1)
  {
    EndsAt(responses, j);
  }

  /** An empty successful page completes the fetch: the result is the in-order
      concatenation of all earlier pages, as many records as they hold. */
  lemma EmptyPageCompletes(responses: seq<Response>, j: nat)
    requires j < |responses| && responses[j].status == StatusOk && responses[j].items == []
    requires forall i :: 0 <= i < j ==> responses[i].status == StatusOk && responses[i].items != []
    ensures Ends(responses)
    ensures Outcome(responses) == Fetched(Items(responses[..j]))
    ensures |Outcome(responses).pullRequests| == ItemCount(responses[..j])
  {
    EndsAt(responses, j);
    ItemsLength(responses[..j]);
  }

  /** The concatenation holds exactly as many records as the pages together. */
  lemma {:induction false} ItemsLength(pages: seq<Response>)
    ensures |Items(pages)| == ItemCount(pages)
    decreases |pages|
  {
    if pages != [] {
      ItemsLength(pages[..|pages| - 1]);
    }
  }

  /** The record at position `i` of page `p` appears in the concatenation of
      the pages up to and including `p`, right after all earlier pages' records. */
  lemma {:induction false} ItemsKeepsPageOrder(pages: seq<Response>, p: nat, i: nat)
    requires p < |pages| && i < |pages[p].items|
    ensures ItemCount(pages[..p]) + i < |Items(pages)|
    ensures Items(pages)[ItemCount(pages[..p]) + i] == pages[p].items[i]
    decreases |pages|
  {
    var last := |pages| - 1;
    ItemsLength(pages[..p]);
    ItemsLength(pages[..last]);
    if p == last {
      assert pages[..last] == pages[..p];
    } else {
      assert pages[..last][..p] == pages[..p];
      ItemsKeepsPageOrder(pages[..last], p, i);
    }
  }
}
