/**
 * The command's work (internal/cli/root.go, deleteWorkflowRuns): discover the
 * workflows, collect the completed runs of each into the same workflow list,
 * then delete them all, stopping at the first step that fails. The flags,
 * the client's creation from the token and the printed lines are not part of
 * this model.
 */
module Cli {
  import opened Types
  import opened Api
  import opened GitHub

  /** The most delete requests in flight at once. */
  const MaxWorkers := 10

  /** Whether a request log holds a delete request. */
  predicate DeletesAny(calls: seq<Call>) {
    exists k :: 0 <= k < |calls| && calls[k].DeleteRunCall?
  }

  /** What discovery gives the command: the selected workflows of the repository, or the error. */
  function Found(client: Client, owner: string, repo: string, target: string): Result<seq<Workflow>> {
    Discover(client, Repository(owner, repo), target)
  }

  /**
   * Runs the three steps against `client` and returns the command's error
   * (none on success) and every request it sent, in order.
   */
  method DeleteWorkflowRuns(client: Client, owner: string, repo: string, target: string)
    returns (err: Outcome, calls: seq<Call>)
    requires Found(client, owner, repo, target).Success? ==>
      ListingsEnd(client, Repository(owner, repo), Found(client, owner, repo, target).value)
    // A failed discovery: its error, after the one listing request.
    ensures Found(client, owner, repo, target).Failure? ==>
      err == Fail(Found(client, owner, repo, target).error) && calls == [ListWorkflowsCall]
    // A failed collection: its aggregate error, and no delete request.
    ensures (Found(client, owner, repo, target).Success? &&
      CollectionErrors(client, Repository(owner, repo), Found(client, owner, repo, target).value) != []) ==>
        Reports(err, Collection,
          CollectionErrors(client, Repository(owner, repo), Found(client, owner, repo, target).value)) &&
        calls == [ListWorkflowsCall] +
          CollectionCalls(client, Repository(owner, repo), Found(client, owner, repo, target).value)
    // Otherwise the deletion step runs on the collected workflows.
    ensures (Found(client, owner, repo, target).Success? &&
      CollectionErrors(client, Repository(owner, repo), Found(client, owner, repo, target).value) == []) ==>
        calls == [ListWorkflowsCall] +
          CollectionCalls(client, Repository(owner, repo), Found(client, owner, repo, target).value) +
          Requests(AfterCollection(client, Repository(owner, repo), Found(client, owner, repo, target).value)) &&
        Reports(err, Deletion, DeletionErrors(client, Repository(owner, repo),
          Requests(AfterCollection(client, Repository(owner, repo), Found(client, owner, repo, target).value))))
    ensures err == Pass <==>
      Found(client, owner, repo, target).Success? &&
      CollectionErrors(client, Repository(owner, repo), Found(client, owner, repo, target).value) == [] &&
      DeletionErrors(client, Repository(owner, repo),
        Requests(AfterCollection(client, Repository(owner, repo), Found(client, owner, repo, target).value))) == []
    ensures DeletesAny(calls) ==>
      Found(client, owner, repo, target).Success? &&
      CollectionErrors(client, Repository(owner, repo), Found(client, owner, repo, target).value) == []
  {
    var repository := Repository(owner, repo);
    calls := [ListWorkflowsCall];
    var found := GetWorkflowsByName(client, repository, target);
    if found.Failure? {
      return Fail(found.error), calls;
    }
    var workflows := new Workflow[|found.value|](i requires 0 <= i < |found.value| => found.value[i]);
    assert workflows[..] == found.value;

    var collected, listed := GetAllWorkflowRunIDs(client, repository, workflows);
    CollectionOnlyLists(client, repository, found.value);
    calls := calls + listed;
    if collected.Fail? {
      return collected, calls;
    }

    var deleted, requested := GitHub.DeleteWorkflowRuns(client, repository, workflows, MaxWorkers);
    calls := calls + requested;
    err := deleted;
  }

  /**
   * As written, the command never returns when a token may not delete runs:
   * with its 10 workers and one workflow of 11 completed runs whose deletes all
   * fail, the deletion step sends 10 requests and never the 11th, so it returns
   * neither an error nor success.
   */
  lemma DeniedDeletesStallTheCommand(c: Client, owner: string, repo: string, w: Workflow)
    requires |w.runs| == MaxWorkers + 1
    requires forall run :: c.deleteFails(Repository(owner, repo), run)
    ensures |Requests([w])| == 11
    ensures |Dispatched(c, Repository(owner, repo), Requests([w]), MaxWorkers)| == 10
  {
    FailingDeletesBlockDispatch(c, Repository(owner, repo), w, MaxWorkers);
  }
}
