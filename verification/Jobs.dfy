/** Job identities and states: internal/job/model.go. */
module Jobs {

  type JobId = string

  datatype JobStatus =
    | Queued | Downloading | Paused | Completed | Failed | Cancelled
    | Analyzing | Processing | AwaitingSelection | Seeding
}
