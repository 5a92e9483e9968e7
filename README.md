# delete-gh-workflow-runs, modelled in Dafny

`delete-gh-workflow-runs` deletes the completed runs of GitHub Actions
workflows in one repository: all workflows, or the ones of one name. It works
in three steps:

1. **Discovery** lists the repository's workflows and keeps those whose name
   is the target. The target `"all"` keeps every workflow.
2. **Collection** pages through each workflow's run listing. It keeps the
   identifiers of runs whose status is `completed` and writes them into that
   workflow's `Runs`, in the same workflow list.
3. **Deletion** sends one delete request per (workflow, run) pair.

Collection and deletion gather the failures of their workflows or runs. A
step fails, with one aggregate error, exactly when one of its parts failed. A
failed discovery or a failed collection stops the command before anything is
deleted. Deletion as written can instead never return when deletes fail
(see "## Findings"); the model states what the step evidently intends.

The model has four modules, one per source file plus one for the service:

- `Types` (`types.dfy`) holds the `Workflow` and `Repository` records of
  `internal/github/types.go`.
- `Api` (`api.dfy`) is the GitHub API as plain data. A `Client` value fixes
  what every request answers: the workflow listing, the replies to a
  workflow's successive run-page requests, and whether deleting a run fails.
  `Call` names the requests the core sends.
- `GitHub` (`github.dfy`) is `internal/github/github.go`. Each Go function
  with a loop is a method with the same loops, proved against a
  specification function; `DeleteWorkflowRun`, which has no loop and sends a
  single request, is a function. The specification functions are:
  - `Fetched` and `Discover` for discovery;
  - `CollectRuns` and `PageRequests` for one workflow's runs, read reply by
    reply (`CollectPages`, `PagesRequested`);
  - `AfterCollection`, `CollectionErrors` and `CollectionCalls` for all workflows;
  - `Requests` and `DeletionErrors` for deletion.

  Lemmas then state what the source promises about those functions. The
  inner loop over a page's records is the method `AppendCompleted`, the
  body of one collection goroutine is the method `CollectWorkflow`, and the
  inner loop over one workflow's runs in deletion is the method
  `DeleteRunsOf`.
  `GetAllWorkflowRunIDs` updates an `array<Workflow>` in place, as the Go code
  updates the elements of the caller's slice.
- `Cli` (`cli.dfy`) is `deleteWorkflowRuns` of `internal/cli/root.go`. It
  calls discovery, collection and deletion on the same array, with early
  returns. It gives back the command's error and the log of every request
  it sent.

The goroutines of collection and deletion are modelled as sequential loops.
The one consequence of the concurrency that changes the outcome is modelled
separately by `Dispatched`: the deletion worker pool's dispatch loop can wait
without end, and then the call never returns.
Each aggregate error is specified up to the order of its causes (the
`Reports` predicate compares them as multisets), because in the original that
order depends on the scheduler.

## Model

| member | source | states |
|---|---|---|
| `Api.LastRequest` | internal/github/github.go:89-109 | the index of the reply after which paging stops: the first reply that failed or has `NextPage == 0`; no reply before it is final |
| `GitHub.GetWorkflows` | internal/github/github.go:27-44 | a failed workflow listing gives the "failed to get workflows" error and no workflows; otherwise one record per listed workflow, in order, with its ID and name and no runs |
| `GitHub.GetWorkflowsByName` | internal/github/github.go:58-73 | the result is the fetch error, or the fetched workflows the target selects, in fetch order (`Discover`) |
| `GitHub.SelectAllKeepsEverything` | internal/github/github.go:65-70 | with target `"all"` the name filter keeps every workflow, in order |
| `GitHub.SelectedByName` | internal/github/github.go:65-70 | with any other target, a workflow is kept if and only if it was fetched and its name equals the target |
| `GitHub.SelectedFromInput` | internal/github/github.go:65-70 | the filter keeps only fetched workflows that match the target, and never more than were fetched |
| `GitHub.DiscoverAll` | internal/github/github.go:58-72 | discovery with `"all"` gives exactly what the workflow listing gives, including its failure |
| `GitHub.DiscoverByName` | internal/github/github.go:29-32 | with a workflow name, discovery fails if and only if the listing fails, and then with the listing's error; otherwise it gives exactly the fetched workflows of that name, all without runs (none found is a success) |
| `GitHub.GetWorkflowRunIDs` | internal/github/github.go:86-112 | the result is all or nothing: the "failed to get workflow runs" error naming the workflow if a page request fails, otherwise the completed ids of every page received (`CollectRuns`). The requests sent all filter on "completed" with 100 per page; the first asks for page 0 and each next one for the previous reply's `NextPage`, stopping after the first reply with `NextPage == 0` (`PageRequests`) |
| `GitHub.AppendCompleted` | internal/github/github.go:97-102 | the loop over one page's records appends, in order, the ids of exactly its "completed" records (`CompletedIDs`) |
| `GitHub.CompletedIDsExact` | internal/github/github.go:97-102 | an id is collected from a page if and only if some record of the page has that id and status "completed"; no more ids than records |
| `GitHub.CompletedIDsOn` | internal/github/github.go:97-102 | an id is among a page's collected ids if and only if the page holds a completed record with that id |
| `GitHub.PageIDsExact` | internal/github/github.go:89-109 | an id is collected from a sequence of pages if and only if a completed record with that id is on one of the pages that were received |
| `GitHub.PageIDsOfFirst` | internal/github/github.go:97-102 | the ids of a sequence of pages are the first page's completed ids followed by those of the pages after it |
| `GitHub.CollectPagesUpToLast` | internal/github/github.go:89-111 | reading page by page fails with the workflow's error exactly when the last request sent fails; otherwise it gives the completed ids of every page up to that last request, in page order |
| `GitHub.CollectRunsExact` | internal/github/github.go:89-111 | collection fails if and only if one of the requests it sends fails, and then with an error naming the workflow. On success, an id is returned if and only if it belongs to a "completed" record on a page up to the last request; records of any other status are dropped |
| `GitHub.PagesRequestedChain` | internal/github/github.go:88-108 | paging sends exactly one request per reply up to the last; every request filters on "completed" with 100 per page for the workflow's id; the first asks for the starting page and each next one for the page named by the reply before it |
| `GitHub.CollectRunsOfCompleteListing` | internal/github/github.go:89-109 | a listing of n successful pages, each with a next page except the last, is read with exactly n requests and yields the completed ids of all n pages |
| `GitHub.AfterCollection` | internal/github/github.go:130-138 | collection never changes a workflow's ID or name, nor the number of workflows |
| `GitHub.CollectWorkflow` | internal/github/github.go:130-138 | one goroutine's work: the workflow's collection result and requests are those of `CollectRuns` and `PageRequests`; the element is replaced by one holding the collected ids on success and left as it was on failure; no other element changes |
| `GitHub.GetAllWorkflowRunIDs` | internal/github/github.go:124-158 | each workflow whose collection succeeds now holds its collected ids, and each failed one keeps its old runs. The call reports every failed workflow's error, one each in any order, and succeeds if and only if none failed. Its requests are those of every workflow's collection |
| `GitHub.FailuresExact` | internal/github/github.go:147-157 | the gathered errors are exactly the errors of the failed results, and there are none if and only if every result succeeded |
| `GitHub.CollectionErrorsExact` | internal/github/github.go:147-157 | the collection errors are exactly the errors of the workflows whose collection failed, so there are none if and only if every workflow succeeded |
| `GitHub.CollectedWorkflowsHoldTheirRuns` | internal/github/github.go:130-138 | when no collection failed, every workflow's runs are exactly its collected completed ids, all else unchanged |
| `GitHub.CollectionOnlyLists` | internal/github/github.go:128-139 | collection sends run listing requests only, never a delete |
| `GitHub.DeleteWorkflowRun` | internal/github/github.go:170-179 | deleting one run fails if and only if the service fails it, with an error carrying the run id and the workflow name |
| `GitHub.DeleteRunsOf` | internal/github/github.go:201-213 | the runs of one workflow get one delete request each, in run order, and the errors are exactly those of the requests that fail, in order |
| `GitHub.DeletionErrorsAppend` | internal/github/github.go:208-212 | the failed deletes of two consecutive runs of requests are those of the first followed by those of the second |
| `GitHub.DeleteWorkflowRuns` | internal/github/github.go:193-233 | exactly one delete request per (workflow, run) pair, over workflows in order and then runs in order, whatever fails (`Requests`). The call reports every failed delete, one each in any order, and succeeds if and only if none failed |
| `GitHub.RequestsLength` | internal/github/github.go:200-201 | there are as many delete requests as runs in all the workflows |
| `GitHub.RequestAt` | internal/github/github.go:200-212 | the delete request for the j-th run of the i-th workflow stands at that pair's position in workflow-then-run order |
| `GitHub.RequestsInOrder` | internal/github/github.go:200-214 | the delete requests are the (workflow, run) pairs in workflow order then run order, one per run |
| `GitHub.PositionsDistinct` | internal/github/github.go:200-214 | two different (workflow, run) pairs never share a request, so no pair is deleted twice |
| `GitHub.TotalRunsOfPrefix` | internal/github/github.go:200-201 | the runs of workflows 0..i together never exceed the runs of all workflows |
| `GitHub.RequestsArePairs` | internal/github/github.go:200-212 | every delete request is for a run of a listed workflow, on behalf of that workflow |
| `GitHub.DeletionErrorsExact` | internal/github/github.go:208-232 | the deletion errors are exactly the failed delete requests, each tagged with its run id and workflow name; there are none if and only if no delete failed |
| `GitHub.Dispatched` | internal/github/github.go:195-214 | as written, the requests the dispatch loop sends form a prefix of all the delete requests: request n is sent only if every earlier one was and fewer than `maxWorkers` of those failed, since a failed delete keeps its pool slot while it waits to send on the unbuffered error channel |
| `GitHub.DispatchedAll` | internal/github/github.go:195-232 | as written, every delete request is sent, and the call can then return, if and only if fewer than `maxWorkers` of the requests before the last one fail |
| `GitHub.AllDeletesFail` | internal/github/github.go:170-175 | when every request is a delete that the service fails, there is one error per request |
| `GitHub.AllFailingDispatched` | internal/github/github.go:195-214 | as written, when every delete fails the dispatch loop sends exactly `maxWorkers` requests, or all of them if there are fewer |
| `GitHub.FailingDeletesBlockDispatch` | internal/github/github.go:195-214 | as written, with every delete failing and a workflow of more runs than workers, exactly `maxWorkers` deletes are sent and the remaining ones never are |
| `Cli.DeleteWorkflowRuns` | internal/cli/root.go:92-125 | a failed discovery returns its error after the single listing request, with nothing collected or deleted. A failed collection returns the collection error, and no delete is sent even for the workflows that were collected. Otherwise the deletion step gets the same workflows, now holding their collected runs. The command succeeds if and only if all three steps succeed, and otherwise returns the deletion error. Any delete request implies that discovery and collection both succeeded. Only the run listings of the discovered workflows must end |
| `Cli.DeniedDeletesStallTheCommand` | internal/cli/root.go:25-118 | as written, with the command's 10 workers and one workflow of 11 runs whose deletes all fail (a token without write access to actions), 10 deletes are sent and the 11th never is, so the command returns neither success nor an error |

## Left out

- The go-github requests (`ListWorkflows`, `ListWorkflowRunsByID`, `DeleteWorkflowRun`) are answers fixed in a `Client` value. Creating the client from the token is not modelled.
- Each error carries only the workflow name or run id. The wrapped cause (`%w`) and the message text are not modelled.
- The progress lines printed on success are not modelled.
- Listing the workflows is one request, as in the source: no further pages of workflows are asked for. The model's `listWorkflows` is that one request's answer.
- The replies to a workflow's run-page requests are a sequence in request order. The k-th request gets the k-th reply, whatever page number it asks for. The page numbers asked are recorded in the request log only.
- The run listing of each collected workflow must end: some reply fails or has `NextPage == 0` (the requires `Ends` / `ListingsEnd`). The original loops for as long as the server keeps naming a next page.
- Whether a delete fails depends only on the run id. A second delete of the same run gets the same answer.
- The goroutines, the `sync.WaitGroup`, the error channels and the channel semaphore are replaced by sequential loops. Errors are compared as multisets. The request log lists each workflow's (or run's) requests one after another; the original may interleave them in any order.
- GitHub.DeleteWorkflowRuns: states the evidently intended behaviour: every pair is requested and the failures are returned. As written, the Go code never returns, and sends no further delete, once `maxWorkers` failed deletes come before a request that is still to be sent (`Dispatched`, `DispatchedAll`, and "## Findings").
- Cli.DeleteWorkflowRuns: states the command with that intended deletion step. As written, the command never returns in the same case, so it neither succeeds nor returns an error, for instance with 10 denied deletes before the last run (`Cli.DeniedDeletesStallTheCommand`).
- GitHub.DeleteWorkflowRuns: also does not state that at most `maxWorkers` deletes are in flight at once, because that is a property of the concurrent schedule. `maxWorkers` must be at least 1: with 0 the Go code never gets past its first run, since the send on the unbuffered pool channel has no receiver, and a negative value makes `make` panic.
- GitHub.GetAllWorkflowRunIDs: the request log is stated in workflow order, though the Go code may send the page requests of different workflows in any interleaving.
- Cli.DeleteWorkflowRuns: the log of requests is stated in workflow order, for the same reason.
- The 64-bit width of workflow and run ids is not modelled. Ids are unbounded integers, and no arithmetic is done on them.
- go-github's nil-safe getters (`GetID`, `GetName`, `GetStatus`) are not modelled. Records hold plain values.
- Cobra flag setup, `rootCmd.Run`, `Execute`, the exit codes of `cmd/delete-gh-workflow-runs/main.go` and `context.Context` are not modelled. They are command-line plumbing with no logic to state.

## Findings

| source | as written | input that shows it | evidently intended | confidence | as-written member | corrected member |
|---|---|---|---|---|---|---|
| internal/github/github.go:195-224 | `errorChan` is unbuffered and only read after the dispatch loop ends; a failed delete sends on it before its deferred release of the pool slot, so failed deletes hold their slots and the loop blocks on `workerPool <- struct{}{}` once `maxWorkers` of them are held | `maxWorkers` 10 (internal/cli/root.go:25,118), one workflow with 11 completed runs, every delete failing: 10 deletes are sent, the 11th never is, and neither an error nor success is returned | every (workflow, run) pair is requested and the failures are returned as one error | high, not executed | `GitHub.Dispatched` (with `GitHub.DispatchedAll`, `GitHub.FailingDeletesBlockDispatch`, `Cli.DeniedDeletesStallTheCommand`) | `GitHub.DeleteWorkflowRuns` (with `GitHub.RequestsInOrder`, `GitHub.DeletionErrorsExact`) |
