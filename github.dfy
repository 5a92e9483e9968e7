/**
 * The GitHub layer (internal/github/github.go): workflow discovery, collection
 * of completed run identifiers page by page, and deletion of every collected
 * run, with the failures of the per-workflow and per-run steps aggregated
 * into one error. The concurrent fan-out of the original is modelled as
 * sequential loops; each aggregate error is specified up to the order of its
 * causes, which the original leaves to the scheduler.
 */
module GitHub {
  import opened Types
  import opened Api

  /** Number of run records asked for per page. */
  const ElementsPerPage := 100

  /** The run status that is collected, and also the status filter sent with every page request. */
  const Completed := "completed"

  /** The target name that selects every workflow. */
  const AllWorkflows := "all"

  /** The step whose failures an aggregate error gathers. */
  datatype Phase = Collection | Deletion

  datatype Error =
    | ListWorkflowsFailed
    | ListRunsFailed(workflow: string)
    | DeleteRunFailed(run: RunId, workflow: string)
    | Aggregate(phase: Phase, causes: seq<Error>)

  /** A value or an error, as the original's `(value, error)` returns. */
  datatype Result<T> = Success(value: T) | Failure(error: Error)

  /** An error or none, as the original's plain `error` returns. */
  datatype Outcome = Pass | Fail(error: Error)

  // ---------------------------------------------------------------------------
  // Error aggregation
  // ---------------------------------------------------------------------------

  /** Turns the errors collected by one step into that step's outcome. */
  function Combine(phase: Phase, errs: seq<Error>): Outcome {
    if errs == [] then Pass else Fail(Aggregate(phase, errs))
  }

  /**
   * `o` is a correct report of the errors `errs` of `phase`: no error means
   * success, otherwise one aggregate error holding every cause, in any order.
   */
  ghost predicate Reports(o: Outcome, phase: Phase, errs: seq<Error>) {
    if errs == [] then o == Pass
    else o.Fail? && o.error.Aggregate? && o.error.phase == phase
         && multiset(o.error.causes) == multiset(errs)
  }

  // ---------------------------------------------------------------------------
  // Workflow discovery
  // ---------------------------------------------------------------------------

  /** What listing the repository's workflows gives: identifier and name of each, runs not yet collected. */
  function Fetched(c: Client, repo: Repository): Result<seq<Workflow>> {
    match c.listWorkflows(repo)
    case RequestFailed => Failure(ListWorkflowsFailed)
    case Replied(remote) =>
      Success(seq(|remote|, i requires 0 <= i < |remote| => Workflow(remote[i].id, remote[i].name, [])))
  }

  method GetWorkflows(client: Client, repo: Repository) returns (r: Result<seq<Workflow>>)
    ensures r.Failure? <==> client.listWorkflows(repo).RequestFailed?
    ensures r.Failure? ==> r.error == ListWorkflowsFailed
    ensures r.Success? ==>
      var remote := client.listWorkflows(repo).value;
      |r.value| == |remote| &&
      forall i :: 0 <= i < |remote| ==> r.value[i] == Workflow(remote[i].id, remote[i].name, [])
    ensures r == Fetched(client, repo)
  {
    var reply := client.listWorkflows(repo);
    if reply.RequestFailed? {
      return Failure(ListWorkflowsFailed);
    }
    var remote := reply.value;
    var workflows: seq<Workflow> := [];
    for i := 0 to |remote|
      invariant |workflows| == i
      invariant forall j :: 0 <= j < i ==> workflows[j] == Workflow(remote[j].id, remote[j].name, [])
    {
      workflows := workflows + [Workflow(remote[i].id, remote[i].name, [])];
    }
    assert workflows == Fetched(client, repo).value;
    r := Success(workflows);
  }

  /** Whether workflow `w` is selected by the target name. */
  predicate Matches(target: string, w: Workflow) {
    target == AllWorkflows || w.name == target
  }

  /** The workflows of `ws` the target selects, in their order in `ws`. */
  function Selected(target: string, ws: seq<Workflow>): seq<Workflow> {
    if ws == [] then []
    else
      var rest := Selected(target, ws[..|ws| - 1]);
      if Matches(target, ws[|ws| - 1]) then rest + [ws[|ws| - 1]] else rest
  }

  /** The result of discovery: the fetch error, or the fetched workflows the target selects. */
  function Discover(c: Client, repo: Repository, target: string): Result<seq<Workflow>> {
    match Fetched(c, repo)
    case Failure(e) => Failure(e)
    case Success(ws) => Success(Selected(target, ws))
  }

  method GetWorkflowsByName(client: Client, repo: Repository, target: string) returns (r: Result<seq<Workflow>>)
    ensures r == Discover(client, repo, target)
  {
    var fetched := GetWorkflows(client, repo);
    if fetched.Failure? {
      return Failure(fetched.error);
    }
    var repoWorkflows := fetched.value;
    var workflows: seq<Workflow> := [];
    for i := 0 to |repoWorkflows|
      invariant workflows == Selected(target, repoWorkflows[..i])
    {
      assert repoWorkflows[..i + 1][..i] == repoWorkflows[..i];
      if target == AllWorkflows || repoWorkflows[i].name == target {
        workflows := workflows + [repoWorkflows[i]];
      }
    }
    assert repoWorkflows[..|repoWorkflows|] == repoWorkflows;
    r := Success(workflows);
  }

  lemma {:induction false} SelectAllKeepsEverything(ws: seq<Workflow>)
    ensures Selected(AllWorkflows, ws) == ws
  {
    if ws != [] {
      SelectAllKeepsEverything(ws[..|ws| - 1]);
    }
  }

  lemma {:induction false} SelectedByName(target: string, ws: seq<Workflow>)
    requires target != AllWorkflows
    ensures forall w :: w in Selected(target, ws) <==> w in ws && w.name == target
  {
    if ws != [] {
      SelectedByName(target, ws[..|ws| - 1]);
      assert ws == ws[..|ws| - 1] + [ws[|ws| - 1]];
    }
  }

  lemma {:induction false} SelectedFromInput(target: string, ws: seq<Workflow>)
    ensures |Selected(target, ws)| <= |ws|
    ensures forall w :: w in Selected(target, ws) ==> w in ws && Matches(target, w)
  {
    if ws != [] {
      SelectedFromInput(target, ws[..|ws| - 1]);
      assert ws == ws[..|ws| - 1] + [ws[|ws| - 1]];
    }
  }

  /** With the target "all", discovery gives every fetched workflow, in fetch order. */
  lemma DiscoverAll(c: Client, repo: Repository)
    ensures Discover(c, repo, AllWorkflows) == Fetched(c, repo)
  {
    if Fetched(c, repo).Success? {
      SelectAllKeepsEverything(Fetched(c, repo).value);
    }
  }

  /**
   * With any other target, discovery gives exactly the fetched workflows of
   * that name (none at all is a success), each still without runs; it fails
   * exactly when the workflow listing fails.
   */
  lemma DiscoverByName(c: Client, repo: Repository, target: string)
    requires target != AllWorkflows
    ensures Discover(c, repo, target).Failure? <==> c.listWorkflows(repo).RequestFailed?
    ensures Discover(c, repo, target).Failure? ==> Discover(c, repo, target).error == ListWorkflowsFailed
    ensures Discover(c, repo, target).Success? ==>
      forall w :: w in Discover(c, repo, target).value <==>
        w in Fetched(c, repo).value && w.name == target
    ensures Discover(c, repo, target).Success? ==>
      forall w :: w in Discover(c, repo, target).value ==> w.runs == []
  {
    if Fetched(c, repo).Success? {
      var ws := Fetched(c, repo).value;
      SelectedByName(target, ws);
      forall w | w in Selected(target, ws) ensures w.runs == [] {
        var i :| 0 <= i < |ws| && ws[i] == w;
      }
    }
  }

  // ---------------------------------------------------------------------------
  // Run collection for one workflow
  // ---------------------------------------------------------------------------

  /** The identifiers of the completed records of `runs`, in order. */
  function CompletedIDs(runs: seq<RunRecord>): seq<RunId> {
    if runs == [] then []
    else
      var last := runs[|runs| - 1];
      CompletedIDs(runs[..|runs| - 1]) + (if last.status == Completed then [last.id] else [])
  }

  /** The identifiers of the completed records of all the pages in `replies`, page by page. */
  function PageIDs(replies: seq<Reply<RunPage>>): seq<RunId> {
    if replies == [] then []
    else
      var last := replies[|replies| - 1];
      PageIDs(replies[..|replies| - 1]) + (if last.Replied? then CompletedIDs(last.value.runs) else [])
  }

  /** Puts `ids` in front of the identifiers of a successful collection; a failure stays as it is. */
  function Prepend(ids: seq<RunId>, r: Result<seq<RunId>>): Result<seq<RunId>> {
    match r
    case Success(rest) => Success(ids + rest)
    case Failure(e) => Failure(e)
  }

  lemma PrependTwice(a: seq<RunId>, b: seq<RunId>, r: Result<seq<RunId>>)
    ensures Prepend(a, Prepend(b, r)) == Prepend(a + b, r)
  {
    if r.Success? {
      assert a + (b + r.value) == (a + b) + r.value;
    }
  }

  /**
   * Reading the run listing `replies` of workflow `name`, one reply per
   * request: a failed request ends it with an error naming the workflow,
   * whatever came before; a page adds its completed identifiers and, unless
   * its next page is 0, the listing goes on.
   */
  function CollectPages(name: string, replies: seq<Reply<RunPage>>): Result<seq<RunId>>
    requires Ends(replies)
    decreases |replies|
  {
    match replies[0]
    case RequestFailed => Failure(ListRunsFailed(name))
    case Replied(page) =>
      if page.nextPage == 0 then Success(CompletedIDs(page.runs))
      else
        EndsAfterFirst(replies);
        Prepend(CompletedIDs(page.runs), CollectPages(name, replies[1..]))
  }

  /**
   * The page requests sent while reading `replies` for workflow `id`, the
   * first one asking for `page`: each filters on "completed" with 100 records
   * per page, and the next one asks for the page the reply names.
   */
  function PagesRequested(id: WorkflowId, replies: seq<Reply<RunPage>>, page: int): seq<Call>
    requires Ends(replies)
    decreases |replies|
  {
    [ListRunsCall(id, Completed, ElementsPerPage, page)] +
      if Final(replies[0]) then []
      else
        EndsAfterFirst(replies);
        PagesRequested(id, replies[1..], replies[0].value.nextPage)
  }

  /** The result of collecting the runs of workflow `w`. */
  function CollectRuns(c: Client, repo: Repository, w: Workflow): Result<seq<RunId>>
    requires Ends(c.listWorkflowRuns(repo, w.id))
  {
    CollectPages(w.name, c.listWorkflowRuns(repo, w.id))
  }

  /** The page requests of collecting the runs of workflow `w`; the first asks for page 0, the first page. */
  function PageRequests(c: Client, repo: Repository, w: Workflow): seq<Call>
    requires Ends(c.listWorkflowRuns(repo, w.id))
  {
    PagesRequested(w.id, c.listWorkflowRuns(repo, w.id), 0)
  }

  /** Appends the identifiers of the completed records of one page to `ids`, record by record. */
  method AppendCompleted(ids: seq<RunId>, runs: seq<RunRecord>) returns (r: seq<RunId>)
    ensures r == ids + CompletedIDs(runs)
  {
    r := ids;
    for i := 0 to |runs|
      invariant r == ids + CompletedIDs(runs[..i])
    {
      assert runs[..i + 1][..i] == runs[..i];
      if runs[i].status == Completed {
        r := r + [runs[i].id];
      }
    }
    assert runs[..|runs|] == runs;
  }

  /**
   * One page request of the listing `replies`: it is sent for `page`; a
   * failed reply ends the reading with an error, a page whose next page is 0
   * ends it with that page's completed identifiers, and any other page adds
   * its identifiers in front of the rest, which starts with the next page.
   */
  lemma PageStep(name: string, id: WorkflowId, replies: seq<Reply<RunPage>>, page: int)
    requires Ends(replies)
    ensures Final(replies[0]) ==>
      PagesRequested(id, replies, page) == [ListRunsCall(id, Completed, ElementsPerPage, page)]
    ensures replies[0].RequestFailed? ==> CollectPages(name, replies) == Failure(ListRunsFailed(name))
    ensures replies[0].Replied? && replies[0].value.nextPage == 0 ==>
      CollectPages(name, replies) == Success(CompletedIDs(replies[0].value.runs))
    ensures !Final(replies[0]) ==>
      Ends(replies[1..]) &&
      CollectPages(name, replies) ==
        Prepend(CompletedIDs(replies[0].value.runs), CollectPages(name, replies[1..])) &&
      PagesRequested(id, replies, page) ==
        [ListRunsCall(id, Completed, ElementsPerPage, page)] +
          PagesRequested(id, replies[1..], replies[0].value.nextPage)
  {
    if !Final(replies[0]) {
      EndsAfterFirst(replies);
    }
  }

  method GetWorkflowRunIDs(client: Client, workflow: Workflow, repo: Repository)
    returns (r: Result<seq<RunId>>, calls: seq<Call>)
    requires Ends(client.listWorkflowRuns(repo, workflow.id))
    ensures r == CollectRuns(client, repo, workflow)
    ensures calls == PageRequests(client, repo, workflow)
  {
    // The replies still to come: the k-th request gets the k-th reply.
    var replies := client.listWorkflowRuns(repo, workflow.id);
    ghost var goal := CollectRuns(client, repo, workflow);
    ghost var asked := PageRequests(client, repo, workflow);
    var allRunIDs: seq<RunId> := [];
    var page := 0;
    calls := [];
    if goal.Success? {
      assert allRunIDs + goal.value == goal.value;
    }
    while true
      invariant Ends(replies)
      invariant goal == Prepend(allRunIDs, CollectPages(workflow.name, replies))
      invariant asked == calls + PagesRequested(workflow.id, replies, page)
      decreases |replies|
    {
      // Request page `page`; `replies[0]` is the service's answer.
      PageStep(workflow.name, workflow.id, replies, page);
      var call := ListRunsCall(workflow.id, Completed, ElementsPerPage, page);
      ghost var sent := calls;
      calls := calls + [call];
      var reply := replies[0];
      if reply.RequestFailed? {
        return Failure(ListRunsFailed(workflow.name)), calls;
      }
      var runs := reply.value.runs;
      ghost var before := allRunIDs;
      allRunIDs := AppendCompleted(allRunIDs, runs);
      if reply.value.nextPage == 0 {
        return Success(allRunIDs), calls;
      }
      PrependTwice(before, CompletedIDs(runs), CollectPages(workflow.name, replies[1..]));
      assert sent + ([call] + PagesRequested(workflow.id, replies[1..], reply.value.nextPage)) ==
        calls + PagesRequested(workflow.id, replies[1..], reply.value.nextPage);
      page := reply.value.nextPage;
      replies := replies[1..];
    }
  }

  lemma {:induction false} CompletedIDsExact(runs: seq<RunRecord>)
    ensures |CompletedIDs(runs)| <= |runs|
    ensures forall x :: x in CompletedIDs(runs) <==>
      exists i :: 0 <= i < |runs| && runs[i].status == Completed && runs[i].id == x
  {
    if runs != [] {
      var init := runs[..|runs| - 1];
      CompletedIDsExact(init);
      assert forall i :: 0 <= i < |init| ==> init[i] == runs[i];
    }
  }

  /** Whether `reply` is a page holding a completed record with identifier `x`. */
  predicate CompletedOn(reply: Reply<RunPage>, x: RunId) {
    reply.Replied? &&
      exists i :: 0 <= i < |reply.value.runs| &&
        reply.value.runs[i].status == Completed && reply.value.runs[i].id == x
  }

  /** A page's completed identifiers are exactly the identifiers it holds a completed record for. */
  lemma CompletedIDsOn(reply: Reply<RunPage>, x: RunId)
    requires reply.Replied?
    ensures x in CompletedIDs(reply.value.runs) <==> CompletedOn(reply, x)
  {
    CompletedIDsExact(reply.value.runs);
  }

  lemma {:induction false} PageIDsExact(replies: seq<Reply<RunPage>>)
    ensures forall x :: x in PageIDs(replies) <==>
      exists j :: 0 <= j < |replies| && CompletedOn(replies[j], x)
  {
    if replies != [] {
      var init := replies[..|replies| - 1];
      var last := replies[|replies| - 1];
      PageIDsExact(init);
      forall x | x in PageIDs(replies)
        ensures exists j :: 0 <= j < |replies| && CompletedOn(replies[j], x)
      {
        if x in PageIDs(init) {
          var j :| 0 <= j < |init| && CompletedOn(init[j], x);
          assert replies[j] == init[j];
        } else {
          CompletedIDsOn(last, x);
          assert CompletedOn(replies[|replies| - 1], x);
        }
      }
      forall x, j | 0 <= j < |replies| && CompletedOn(replies[j], x)
        ensures x in PageIDs(replies)
      {
        if j < |init| {
          assert CompletedOn(init[j], x);
        } else {
          CompletedIDsOn(last, x);
        }
      }
    }
  }

  /** The identifiers of a first page come before those of the pages after it. */
  lemma {:induction false} PageIDsOfFirst(replies: seq<Reply<RunPage>>)
    requires replies != []
    ensures PageIDs(replies) ==
      (if replies[0].Replied? then CompletedIDs(replies[0].value.runs) else []) + PageIDs(replies[1..])
  {
    if |replies| > 1 {
      var init := replies[..|replies| - 1];
      PageIDsOfFirst(init);
      assert init[1..] == replies[1..][..|replies| - 2];
    }
  }

  /**
   * Reading a listing page by page agrees with the whole-listing view: it
   * fails exactly when the last request fails, and otherwise gives the
   * completed identifiers of every page up to the last request.
   */
  lemma {:induction false} CollectPagesUpToLast(name: string, replies: seq<Reply<RunPage>>)
    requires Ends(replies)
    ensures var last := LastRequest(replies);
      CollectPages(name, replies) ==
        if replies[last].RequestFailed? then Failure(ListRunsFailed(name))
        else Success(PageIDs(replies[..last + 1]))
    decreases |replies|
  {
    var last := LastRequest(replies);
    if Final(replies[0]) {
      assert last == 0 && replies[..1] == [replies[0]];
      PageIDsOfFirst(replies[..1]);
      assert replies[..1][1..] == [];
      if replies[0].Replied? {
        assert PageIDs(replies[..1]) == CompletedIDs(replies[0].value.runs) + [];
        assert CollectPages(name, replies) == Success(CompletedIDs(replies[0].value.runs));
        assert PageIDs(replies[..last + 1]) == CompletedIDs(replies[0].value.runs);
      }
    } else {
      EndsAfterFirst(replies);
      CollectPagesUpToLast(name, replies[1..]);
      PageIDsOfFirst(replies[..last + 1]);
      assert replies[..last + 1][1..] == replies[1..][..last];
    }
  }

  /**
   * Collection is all or nothing: it fails exactly when one of the requests
   * it sends fails, with an error naming the workflow; otherwise it gives
   * exactly the identifiers of the completed records of the pages it received,
   * whatever other statuses those pages hold.
   */
  lemma CollectRunsExact(c: Client, repo: Repository, w: Workflow)
    requires Ends(c.listWorkflowRuns(repo, w.id))
    ensures var replies := c.listWorkflowRuns(repo, w.id);
      CollectRuns(c, repo, w).Failure? <==>
        exists j :: 0 <= j <= LastRequest(replies) && replies[j].RequestFailed?
    ensures CollectRuns(c, repo, w).Failure? ==> CollectRuns(c, repo, w).error == ListRunsFailed(w.name)
    ensures var replies := c.listWorkflowRuns(repo, w.id);
      CollectRuns(c, repo, w).Success? ==>
        forall x :: x in CollectRuns(c, repo, w).value <==>
          exists j :: 0 <= j <= LastRequest(replies) && CompletedOn(replies[j], x)
  {
    var replies := c.listWorkflowRuns(repo, w.id);
    var last := LastRequest(replies);
    CollectPagesUpToLast(w.name, replies);
    var sent := replies[..last + 1];
    PageIDsExact(sent);
    assert forall j :: 0 <= j <= last ==> sent[j] == replies[j];
  }

  /**
   * Paging sends one request per reply up to the last, all filtered on
   * "completed" with 100 records per page: the first asks for `page`, each
   * next one for the page named by the reply before it.
   */
  lemma {:induction false} PagesRequestedChain(id: WorkflowId, replies: seq<Reply<RunPage>>, page: int)
    requires Ends(replies)
    ensures var calls := PagesRequested(id, replies, page);
      |calls| == LastRequest(replies) + 1 && calls[0].page == page &&
      (forall j :: 0 <= j < |calls| ==>
        calls[j].ListRunsCall? && calls[j].workflowId == id &&
        calls[j].status == Completed && calls[j].perPage == ElementsPerPage) &&
      forall j :: 0 <= j < |calls| - 1 ==> calls[j + 1].page == replies[j].value.nextPage
    decreases |replies|
  {
    if !Final(replies[0]) {
      EndsAfterFirst(replies);
      PagesRequestedChain(id, replies[1..], replies[0].value.nextPage);
    }
  }

  /**
   * A listing of n pages that all succeed, with a next page on every page but
   * the last, is read with exactly n requests and yields the completed
   * identifiers of all n pages.
   */
  lemma CollectRunsOfCompleteListing(c: Client, repo: Repository, w: Workflow)
    requires var replies := c.listWorkflowRuns(repo, w.id);
      |replies| > 0 && replies[|replies| - 1].Replied? && replies[|replies| - 1].value.nextPage == 0
      && forall j :: 0 <= j < |replies| - 1 ==> replies[j].Replied? && replies[j].value.nextPage != 0
    ensures Ends(c.listWorkflowRuns(repo, w.id))
    ensures |PageRequests(c, repo, w)| == |c.listWorkflowRuns(repo, w.id)|
    ensures CollectRuns(c, repo, w) == Success(PageIDs(c.listWorkflowRuns(repo, w.id)))
  {
    var replies := c.listWorkflowRuns(repo, w.id);
    assert Final(replies[|replies| - 1]);
    var last := LastRequest(replies);
    assert last == |replies| - 1;
    assert replies[..last + 1] == replies;
    CollectPagesUpToLast(w.name, replies);
    PagesRequestedChain(w.id, replies, 0);
  }

  // ---------------------------------------------------------------------------
  // Run collection for every workflow
  // ---------------------------------------------------------------------------

  /** Workflow `w` once its runs are collected: updated on success, unchanged on failure. */
  function Collected(c: Client, repo: Repository, w: Workflow): Workflow
    requires Ends(c.listWorkflowRuns(repo, w.id))
  {
    match CollectRuns(c, repo, w)
    case Success(ids) => w.(runs := ids)
    case Failure(_) => w
  }

  /** The workflows once the runs of each are collected; identifiers and names never change. */
  function AfterCollection(c: Client, repo: Repository, ws: seq<Workflow>): (r: seq<Workflow>)
    requires ListingsEnd(c, repo, ws)
    ensures |r| == |ws|
    ensures forall i :: 0 <= i < |ws| ==> r[i].id == ws[i].id && r[i].name == ws[i].name
  {
    seq(|ws|, i requires 0 <= i < |ws| => Collected(c, repo, ws[i]))
  }

  /** The errors of the failed results among `rs`, in order. */
  function Failures<T>(rs: seq<Result<T>>): seq<Error> {
    if rs == [] then []
    else
      var last := rs[|rs| - 1];
      Failures(rs[..|rs| - 1]) + (if last.Failure? then [last.error] else [])
  }

  /** The result of collecting each workflow's runs, in workflow order. */
  function CollectionResults(c: Client, repo: Repository, ws: seq<Workflow>): (rs: seq<Result<seq<RunId>>>)
    requires ListingsEnd(c, repo, ws)
  {
    seq(|ws|, i requires 0 <= i < |ws| => CollectRuns(c, repo, ws[i]))
  }

  /** The errors of the workflows whose collection fails, in workflow order. */
  function CollectionErrors(c: Client, repo: Repository, ws: seq<Workflow>): seq<Error>
    requires ListingsEnd(c, repo, ws)
  {
    Failures(CollectionResults(c, repo, ws))
  }

  /** The page requests of collecting every workflow, workflow by workflow. */
  function CollectionCalls(c: Client, repo: Repository, ws: seq<Workflow>): seq<Call>
    requires ListingsEnd(c, repo, ws)
  {
    if ws == [] then []
    else CollectionCalls(c, repo, ws[..|ws| - 1]) + PageRequests(c, repo, ws[|ws| - 1])
  }

  /**
   * The work of one collection goroutine: collect the runs of `workflows[i]`
   * and, on success, store them in that element; no other element changes.
   */
  method CollectWorkflow(client: Client, repo: Repository, workflows: array<Workflow>, i: int)
    returns (runIDs: Result<seq<RunId>>, requested: seq<Call>)
    requires 0 <= i < workflows.Length
    requires Ends(client.listWorkflowRuns(repo, workflows[i].id))
    modifies workflows
    ensures runIDs == CollectRuns(client, repo, old(workflows[i]))
    ensures requested == PageRequests(client, repo, old(workflows[i]))
    ensures workflows[i] == Collected(client, repo, old(workflows[i]))
    ensures forall j :: 0 <= j < workflows.Length && j != i ==> workflows[j] == old(workflows[j])
  {
    runIDs, requested := GetWorkflowRunIDs(client, workflows[i], repo);
    if runIDs.Success? {
      workflows[i] := workflows[i].(runs := runIDs.value);
    }
  }

  method GetAllWorkflowRunIDs(client: Client, repo: Repository, workflows: array<Workflow>)
    returns (err: Outcome, calls: seq<Call>)
    requires ListingsEnd(client, repo, workflows[..])
    modifies workflows
    ensures workflows[..] == AfterCollection(client, repo, old(workflows[..]))
    ensures Reports(err, Collection, CollectionErrors(client, repo, old(workflows[..])))
    ensures calls == CollectionCalls(client, repo, old(workflows[..]))
  {
    ghost var ws := workflows[..];
    var errors: seq<Error> := [];
    calls := [];
    for i := 0 to workflows.Length
      invariant forall j :: 0 <= j < i ==> workflows[j] == Collected(client, repo, ws[j])
      invariant forall j :: i <= j < workflows.Length ==> workflows[j] == ws[j]
      invariant errors == CollectionErrors(client, repo, ws[..i])
      invariant calls == CollectionCalls(client, repo, ws[..i])
    {
      CollectionStep(client, repo, ws, i);
      var runIDs, requested := CollectWorkflow(client, repo, workflows, i);
      calls := calls + requested;
      if runIDs.Failure? {
        errors := errors + [runIDs.error];
      }
    }
    assert ws[..workflows.Length] == ws;
    assert forall j :: 0 <= j < workflows.Length ==> workflows[j] == AfterCollection(client, repo, ws)[j];
    err := Combine(Collection, errors);
  }

  /** What collecting the i-th workflow adds to the errors and requests of the ones before it. */
  lemma CollectionStep(c: Client, repo: Repository, ws: seq<Workflow>, i: nat)
    requires ListingsEnd(c, repo, ws)
    requires i < |ws|
    ensures Ends(c.listWorkflowRuns(repo, ws[i].id))
    ensures CollectionErrors(c, repo, ws[..i + 1]) == CollectionErrors(c, repo, ws[..i]) +
      (if CollectRuns(c, repo, ws[i]).Failure? then [CollectRuns(c, repo, ws[i]).error] else [])
    ensures CollectionCalls(c, repo, ws[..i + 1]) == CollectionCalls(c, repo, ws[..i]) + PageRequests(c, repo, ws[i])
  {
    assert ws[..i + 1][..i] == ws[..i];
    var rs := CollectionResults(c, repo, ws[..i + 1]);
    assert rs[..i] == CollectionResults(c, repo, ws[..i]);
  }

  /**
   * The collection step reports an error for exactly the workflows whose
   * collection fails, one each, and so fails exactly when some workflow's
   * collection fails.
   */
  lemma {:induction false} FailuresExact<T>(rs: seq<Result<T>>)
    ensures forall e :: e in Failures(rs) <==> exists i :: 0 <= i < |rs| && rs[i] == Failure(e)
    ensures Failures(rs) == [] <==> forall i :: 0 <= i < |rs| ==> rs[i].Success?
  {
    if rs != [] {
      var init := rs[..|rs| - 1];
      FailuresExact(init);
      assert forall i :: 0 <= i < |init| ==> init[i] == rs[i];
      if rs[|rs| - 1].Failure? {
        assert rs[|rs| - 1] == Failure(rs[|rs| - 1].error);
      }
    }
  }

  lemma CollectionErrorsExact(c: Client, repo: Repository, ws: seq<Workflow>)
    requires ListingsEnd(c, repo, ws)
    ensures forall e :: e in CollectionErrors(c, repo, ws) <==>
      exists i :: 0 <= i < |ws| && CollectRuns(c, repo, ws[i]) == Failure(e)
    ensures CollectionErrors(c, repo, ws) == [] <==>
      forall i :: 0 <= i < |ws| ==> CollectRuns(c, repo, ws[i]).Success?
  {
    var rs := CollectionResults(c, repo, ws);
    FailuresExact(rs);
    forall e | e in Failures(rs)
      ensures exists i :: 0 <= i < |ws| && CollectRuns(c, repo, ws[i]) == Failure(e)
    {
      var i :| 0 <= i < |rs| && rs[i] == Failure(e);
      assert CollectRuns(c, repo, ws[i]) == Failure(e);
    }
    forall i | 0 <= i < |ws| && CollectRuns(c, repo, ws[i]).Failure?
      ensures CollectRuns(c, repo, ws[i]).error in Failures(rs)
    {
      assert rs[i] == Failure(CollectRuns(c, repo, ws[i]).error);
    }
  }

  /** When no collection fails, every workflow holds exactly its collected completed runs. */
  lemma CollectedWorkflowsHoldTheirRuns(c: Client, repo: Repository, ws: seq<Workflow>)
    requires ListingsEnd(c, repo, ws)
    requires CollectionErrors(c, repo, ws) == []
    ensures forall i :: 0 <= i < |ws| ==>
      CollectRuns(c, repo, ws[i]).Success? &&
      AfterCollection(c, repo, ws)[i] == ws[i].(runs := CollectRuns(c, repo, ws[i]).value)
  {
    CollectionErrorsExact(c, repo, ws);
  }

  /** Collecting runs sends run listing requests only. */
  lemma {:induction false} CollectionOnlyLists(c: Client, repo: Repository, ws: seq<Workflow>)
    requires ListingsEnd(c, repo, ws)
    ensures forall k :: 0 <= k < |CollectionCalls(c, repo, ws)| ==> CollectionCalls(c, repo, ws)[k].ListRunsCall?
  {
    if ws != [] {
      CollectionOnlyLists(c, repo, ws[..|ws| - 1]);
      PagesRequestedChain(ws[|ws| - 1].id, c.listWorkflowRuns(repo, ws[|ws| - 1].id), 0);
    }
  }

  // ---------------------------------------------------------------------------
  // Deletion
  // ---------------------------------------------------------------------------

  /** The delete requests for the runs of one workflow, in run order. */
  function RunRequests(w: Workflow): seq<Call> {
    seq(|w.runs|, j requires 0 <= j < |w.runs| => DeleteRunCall(w.runs[j], w))
  }

  /** The (workflow, run) pairs of every workflow, flattened in workflow order then run order. */
  function Requests(ws: seq<Workflow>): seq<Call> {
    if ws == [] then [] else Requests(ws[..|ws| - 1]) + RunRequests(ws[|ws| - 1])
  }

  /** The number of runs of all the workflows. */
  function TotalRuns(ws: seq<Workflow>): nat {
    if ws == [] then 0 else TotalRuns(ws[..|ws| - 1]) + |ws[|ws| - 1].runs|
  }

  /** Deleting one run: fails, tagged with the run and the workflow name, exactly when the service fails it. */
  function DeleteWorkflowRun(c: Client, runID: RunId, repo: Repository, w: Workflow): (o: Outcome)
    ensures o.Pass? <==> !c.deleteFails(repo, runID)
    ensures o.Fail? ==> o.error == DeleteRunFailed(runID, w.name)
  {
    if c.deleteFails(repo, runID) then Fail(DeleteRunFailed(runID, w.name)) else Pass
  }

  /** The errors of the delete requests in `calls` that fail, in request order. */
  function DeletionErrors(c: Client, repo: Repository, calls: seq<Call>): seq<Error> {
    if calls == [] then []
    else
      var last := calls[|calls| - 1];
      DeletionErrors(c, repo, calls[..|calls| - 1]) +
        (if last.DeleteRunCall? && DeleteWorkflowRun(c, last.run, repo, last.workflow).Fail?
         then [DeleteWorkflowRun(c, last.run, repo, last.workflow).error] else [])
  }

  /** The failed deletes of two runs of requests are those of the first, then those of the second. */
  lemma {:induction false} DeletionErrorsAppend(c: Client, repo: Repository, a: seq<Call>, b: seq<Call>)
    ensures DeletionErrors(c, repo, a + b) == DeletionErrors(c, repo, a) + DeletionErrors(c, repo, b)
  {
    if b == [] {
      assert a + b == a;
    } else {
      DeletionErrorsAppend(c, repo, a, b[..|b| - 1]);
      assert (a + b)[..|a + b| - 1] == a + b[..|b| - 1];
      assert (a + b)[|a + b| - 1] == b[|b| - 1];
    }
  }

  /**
   * The dispatch of one workflow's runs: one delete request per run, in run
   * order, and the errors of those that fail.
   */
  method DeleteRunsOf(client: Client, repo: Repository, w: Workflow)
    returns (errors: seq<Error>, issued: seq<Call>)
    ensures issued == RunRequests(w)
    ensures errors == DeletionErrors(client, repo, issued)
  {
    errors := [];
    issued := [];
    for j := 0 to |w.runs|
      invariant issued == RunRequests(w)[..j]
      invariant errors == DeletionErrors(client, repo, issued)
    {
      var runID := w.runs[j];
      var call := DeleteRunCall(runID, w);
      ghost var prior := issued;
      issued := issued + [call];
      assert issued[..|prior|] == prior;
      assert RunRequests(w)[..j + 1] == RunRequests(w)[..j] + [call];
      var e := DeleteWorkflowRun(client, runID, repo, w);
      if e.Fail? {
        errors := errors + [e.error];
      }
    }
    assert RunRequests(w)[..|w.runs|] == RunRequests(w);
  }

  method DeleteWorkflowRuns(client: Client, repo: Repository, workflows: array<Workflow>, maxWorkers: int)
    returns (err: Outcome, issued: seq<Call>)
    requires maxWorkers >= 1
    ensures issued == Requests(workflows[..])
    ensures Reports(err, Deletion, DeletionErrors(client, repo, issued))
  {
    var errors: seq<Error> := [];
    issued := [];
    for i := 0 to workflows.Length
      invariant issued == Requests(workflows[..i])
      invariant errors == DeletionErrors(client, repo, issued)
    {
      var failed, requested := DeleteRunsOf(client, repo, workflows[i]);
      DeletionErrorsAppend(client, repo, issued, requested);
      assert workflows[..i + 1][..i] == workflows[..i];
      issued := issued + requested;
      errors := errors + failed;
    }
    assert workflows[..workflows.Length] == workflows[..];
    err := Combine(Deletion, errors);
  }

  lemma {:induction false} TotalRunsOfPrefix(ws: seq<Workflow>, i: nat)
    requires i < |ws|
    ensures TotalRuns(ws[..i]) + |ws[i].runs| <= TotalRuns(ws)
  {
    var init := ws[..|ws| - 1];
    if i < |ws| - 1 {
      TotalRunsOfPrefix(init, i);
      assert init[..i] == ws[..i];
    } else {
      assert ws[..i] == init;
    }
  }

  lemma {:induction false} RequestsLength(ws: seq<Workflow>)
    ensures |Requests(ws)| == TotalRuns(ws)
  {
    if ws != [] {
      RequestsLength(ws[..|ws| - 1]);
    }
  }

  /** Where the j-th run of the i-th workflow falls among all delete requests. */
  function Position(ws: seq<Workflow>, i: nat, j: nat): nat
    requires i < |ws|
  {
    TotalRuns(ws[..i]) + j
  }

  lemma {:induction false} RequestAt(ws: seq<Workflow>, i: nat, j: nat)
    requires i < |ws| && j < |ws[i].runs|
    ensures Position(ws, i, j) < |Requests(ws)|
    ensures Requests(ws)[Position(ws, i, j)] == DeleteRunCall(ws[i].runs[j], ws[i])
  {
    var init := ws[..|ws| - 1];
    RequestsLength(init);
    if i < |ws| - 1 {
      RequestAt(init, i, j);
      assert init[..i] == ws[..i];
    } else {
      assert ws[..i] == init;
    }
  }

  /**
   * Deletion sends exactly one request per (workflow, run) pair, in workflow
   * order then run order: there are as many requests as runs, and the j-th
   * run of the i-th workflow is the request at its position.
   */
  lemma {:induction false} RequestsInOrder(ws: seq<Workflow>)
    ensures |Requests(ws)| == TotalRuns(ws)
    ensures forall i: nat, j: nat :: i < |ws| && j < |ws[i].runs| ==>
      Position(ws, i, j) < |Requests(ws)| &&
      Requests(ws)[Position(ws, i, j)] == DeleteRunCall(ws[i].runs[j], ws[i])
  {
    RequestsLength(ws);
    forall i: nat, j: nat | i < |ws| && j < |ws[i].runs|
      ensures Position(ws, i, j) < |Requests(ws)| &&
        Requests(ws)[Position(ws, i, j)] == DeleteRunCall(ws[i].runs[j], ws[i])
    {
      RequestAt(ws, i, j);
    }
  }

  /** Two different (workflow, run) pairs never share a position: no pair is requested twice. */
  lemma PositionsDistinct(ws: seq<Workflow>, i: nat, j: nat, i': nat, j': nat)
    requires i < |ws| && j < |ws[i].runs|
    requires i' < |ws| && j' < |ws[i'].runs|
    requires (i, j) != (i', j')
    ensures Position(ws, i, j) != Position(ws, i', j')
  {
    if i < i' {
      TotalRunsOfPrefix(ws[..i'], i);
      assert ws[..i'][..i] == ws[..i];
    } else if i' < i {
      TotalRunsOfPrefix(ws[..i], i');
      assert ws[..i][..i'] == ws[..i'];
    }
  }

  /** Every deletion request is for a run of one of the workflows, on behalf of that workflow. */
  lemma {:induction false} RequestsArePairs(ws: seq<Workflow>)
    ensures forall k :: 0 <= k < |Requests(ws)| ==>
      Requests(ws)[k].DeleteRunCall? && Requests(ws)[k].workflow in ws &&
      Requests(ws)[k].run in Requests(ws)[k].workflow.runs
  {
    if ws != [] {
      var init := ws[..|ws| - 1];
      RequestsArePairs(init);
      assert forall w :: w in init ==> w in ws;
    }
  }

  /**
   * The deletion step reports exactly the delete requests that fail, each
   * tagged with its run and workflow name, and so fails exactly when some
   * delete fails.
   */
  lemma {:induction false} DeletionErrorsExact(c: Client, repo: Repository, calls: seq<Call>)
    ensures forall e :: e in DeletionErrors(c, repo, calls) <==>
      exists k :: 0 <= k < |calls| && calls[k].DeleteRunCall? && c.deleteFails(repo, calls[k].run)
        && e == DeleteRunFailed(calls[k].run, calls[k].workflow.name)
    ensures DeletionErrors(c, repo, calls) == [] <==>
      forall k :: 0 <= k < |calls| && calls[k].DeleteRunCall? ==> !c.deleteFails(repo, calls[k].run)
  {
    if calls != [] {
      var init := calls[..|calls| - 1];
      DeletionErrorsExact(c, repo, init);
      assert forall k :: 0 <= k < |init| ==> init[k] == calls[k];
    }
  }

  // ---------------------------------------------------------------------------
  // The worker pool as written
  // ---------------------------------------------------------------------------

  /**
   * The delete requests that the dispatch loop of internal/github/github.go
   * (lines 195-214) gets to send; after them it waits on the pool and never
   * proceeds, so the call never returns. A goroutine whose delete fails
   * sends its error on the unbuffered error channel before its deferred
   * release of the pool slot, and nothing receives from that channel until
   * dispatch is over; so each failed delete keeps its slot. The request at
   * position n is sent if and only if every request before it was sent and
   * fewer than `maxWorkers` of those failed.
   */
  function Dispatched(c: Client, repo: Repository, calls: seq<Call>, maxWorkers: int): (sent: seq<Call>)
    ensures |sent| <= |calls| && sent == calls[..|sent|]
  {
    if calls == [] then []
    else
      var before := calls[..|calls| - 1];
      var earlier := Dispatched(c, repo, before, maxWorkers);
      if earlier == before && |DeletionErrors(c, repo, before)| < maxWorkers then calls
      else earlier
  }

  /** The failed deletes of a prefix of the requests are never more than those of all of them. */
  lemma DeletionErrorsOfInit(c: Client, repo: Repository, calls: seq<Call>)
    requires calls != []
    ensures |DeletionErrors(c, repo, calls[..|calls| - 1])| <= |DeletionErrors(c, repo, calls)|
  {
  }

  /**
   * As written, the dispatch loop sends every request, and the call can then
   * drain the error channel and return, if and only if fewer than
   * `maxWorkers` of the requests before the last one fail.
   */
  lemma {:induction false} DispatchedAll(c: Client, repo: Repository, calls: seq<Call>, maxWorkers: int)
    ensures Dispatched(c, repo, calls, maxWorkers) == calls <==>
      calls == [] || |DeletionErrors(c, repo, calls[..|calls| - 1])| < maxWorkers
  {
    if calls != [] {
      var before := calls[..|calls| - 1];
      DispatchedAll(c, repo, before, maxWorkers);
      if before != [] {
        assert before[..|before| - 1] == calls[..|calls| - 2];
        DeletionErrorsOfInit(c, repo, before);
      }
    }
  }

  /** When every request is a delete that fails, there is one error per request. */
  lemma {:induction false} AllDeletesFail(c: Client, repo: Repository, calls: seq<Call>)
    requires forall k :: 0 <= k < |calls| ==> calls[k].DeleteRunCall? && c.deleteFails(repo, calls[k].run)
    ensures |DeletionErrors(c, repo, calls)| == |calls|
  {
    if calls != [] {
      AllDeletesFail(c, repo, calls[..|calls| - 1]);
    }
  }

  /**
   * As written, when every delete fails the dispatch loop sends exactly
   * `maxWorkers` requests, or all of them if there are fewer.
   */
  lemma {:induction false} AllFailingDispatched(c: Client, repo: Repository, calls: seq<Call>, maxWorkers: nat)
    requires forall k :: 0 <= k < |calls| ==> calls[k].DeleteRunCall? && c.deleteFails(repo, calls[k].run)
    ensures |Dispatched(c, repo, calls, maxWorkers)| == if |calls| < maxWorkers then |calls| else maxWorkers
  {
    if calls != [] {
      var before := calls[..|calls| - 1];
      AllFailingDispatched(c, repo, before, maxWorkers);
      AllDeletesFail(c, repo, before);
    }
  }

  /**
   * As written, when every delete fails and a workflow has more runs than
   * there are workers, the dispatch loop sends `maxWorkers` requests and
   * then waits on the pool: the call never returns, so it neither finishes
   * the deletion nor returns an error.
   */
  lemma FailingDeletesBlockDispatch(c: Client, repo: Repository, w: Workflow, maxWorkers: nat)
    requires maxWorkers < |w.runs|
    requires forall run :: c.deleteFails(repo, run)
    ensures |Requests([w])| == |w.runs|
    ensures |Dispatched(c, repo, Requests([w]), maxWorkers)| == maxWorkers
    ensures Dispatched(c, repo, Requests([w]), maxWorkers) != Requests([w])
  {
    assert [w][..0] == [];
    assert Requests([w]) == Requests([]) + RunRequests(w);
    AllFailingDispatched(c, repo, Requests([w]), maxWorkers);
  }
}
