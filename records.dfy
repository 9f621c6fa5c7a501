/** The pull-request records the dashboard works on. */
module Records {

  /** One open pull request as the listing endpoint returns it: the logins of its
      assignees and requested reviewers and the names of its labels are already
      extracted from the nested JSON objects, and the creation time is still the
      raw timestamp text. */
  datatype PullRequest = PullRequest(
    id: int,
    title: string,
    author: string,
    assignees: seq<string>,
    reviewers: seq<string>,
    labels: seq<string>,
    createdAt: string)
}
