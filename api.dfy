/**
 * The GitHub REST API as the core sees it, replaced by plain data: what each
 * request answers is fixed in advance by a `Client` value, so the core's
 * behaviour is a function of that value.
 */
module Api {
  import opened Types

  /** A workflow as the "list repository workflows" request reports it. */
  datatype RemoteWorkflow = RemoteWorkflow(id: WorkflowId, name: string)

  /** One run record of a run listing page. */
  datatype RunRecord = RunRecord(id: RunId, status: string)

  /** One page of a run listing; `nextPage == 0` means there is no further page. */
  datatype RunPage = RunPage(runs: seq<RunRecord>, nextPage: int)

  /** The answer to one request: a value, or a failed request (transport or authorization). */
  datatype Reply<T> = Replied(value: T) | RequestFailed

  /**
   * The service, for every repository:
   * - `listWorkflows`: the answer to listing the repository's workflows;
   * - `listWorkflowRuns`: the answers to the successive page requests of a workflow's run listing, in order;
   * - `deleteFails`: whether deleting a given run fails.
   */
  datatype Client = Client(
    listWorkflows: Repository -> Reply<seq<RemoteWorkflow>>,
    listWorkflowRuns: (Repository, WorkflowId) -> seq<Reply<RunPage>>,
    deleteFails: (Repository, RunId) -> bool)

  /** A request the core sends to the service. */
  datatype Call =
    | ListWorkflowsCall
    | ListRunsCall(workflowId: WorkflowId, status: string, perPage: int, page: int)
    | DeleteRunCall(run: RunId, workflow: Workflow)

  /** A reply after which a paginating client sends no further request. */
  predicate Final(reply: Reply<RunPage>) {
    reply.RequestFailed? || reply.value.nextPage == 0
  }

  /** The listing eventually fails or says there is no next page. */
  predicate Ends(replies: seq<Reply<RunPage>>) {
    exists k :: 0 <= k < |replies| && Final(replies[k])
  }

  /** The run listing of every workflow in `ws` ends. */
  predicate ListingsEnd(c: Client, repo: Repository, ws: seq<Workflow>) {
    forall i :: 0 <= i < |ws| ==> Ends(c.listWorkflowRuns(repo, ws[i].id))
  }

  /** A listing that ends and does not end at its first reply ends after it. */
  lemma EndsAfterFirst(replies: seq<Reply<RunPage>>)
    requires Ends(replies) && !Final(replies[0])
    ensures Ends(replies[1..])
  {
    var k :| 0 <= k < |replies| && Final(replies[k]);
    assert k > 0 && Final(replies[1..][k - 1]);
  }

  /** The index of the first final reply: the last request a paginating client sends. */
  function LastRequest(replies: seq<Reply<RunPage>>): (k: nat)
    requires Ends(replies)
    ensures k < |replies| && Final(replies[k])
    ensures forall j :: 0 <= j < k ==> !Final(replies[j])
  {
    if Final(replies[0]) then 0
    else
      EndsAfterFirst(replies);
      1 + LastRequest(replies[1..])
  }
}
