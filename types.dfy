/** The records shared by the GitHub layer and the command line (internal/github/types.go). */
module Types {

  /** Workflow and run identifiers are 64-bit integers on GitHub; no arithmetic is done on them. */
  type WorkflowId = int
  type RunId = int

  /** A GitHub Actions workflow: its identifier, its name and the identifiers of the runs to delete. */
  datatype Workflow = Workflow(id: WorkflowId, name: string, runs: seq<RunId>)

  /** The repository every request is made against. */
  datatype Repository = Repository(owner: string, repository: string)
}
