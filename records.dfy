/**
 * The records the activities store works with, as the server returns them
 * and the entity cache holds them.
 */
module Records {
  import opened Wrappers

  /** A project an activity may belong to; compared structurally. */
  datatype Project = Project(id: int, name: string, color: string)

  /**
   * A time-tracked work session. Timestamps are plain integers; an absent
   * `stoppedAt` means the timer is still running.
   */
  datatype Activity = Activity(
    id: int,
    project: Option<Project>,
    description: Option<string>,
    startedAt: int,
    stoppedAt: Option<int>)

  /** `!stoppedAt` in the source: the activity is the running timer. */
  predicate IsRunning(a: Activity) {
    a.stoppedAt.None?
  }

  /** A description is truthy when it is present and not the empty string. */
  predicate HasDescription(a: Activity) {
    a.description.Some? && a.description.value != []
  }
}
