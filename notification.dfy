/** The OS notification shown when a timer starts or stops (its text only). */
module Notification {
  import opened Wrappers
  import opened Records

  const StartedTitle: string := "Timer Started."
  const StoppedTitle: string := "Timer Stopped."
  const NoProjectLabel: string := "No Project"
  const DescriptionSeparator: string := " - "

  /** What is handed to the notifier; the icon path is not part of this model. */
  datatype Notice = Notice(title: string, message: string)

  /** The project's name, or "No Project" for an activity without one. */
  function ProjectLabel(a: Activity): string {
    if a.project.Some? then a.project.value.name else NoProjectLabel
  }

  /**
   * The message: the project label, followed by " - " and the description
   * when the description is truthy.
   */
  function Message(a: Activity): (m: string)
    ensures |m| >= |ProjectLabel(a)| && m[..|ProjectLabel(a)|] == ProjectLabel(a)
    ensures a.project.Some? ==> m[..|a.project.value.name|] == a.project.value.name
    ensures a.project.None? ==> m[..|NoProjectLabel|] == NoProjectLabel
    ensures HasDescription(a) ==>
              var tail := DescriptionSeparator + a.description.value;
              |m| == |ProjectLabel(a)| + |tail| && m[|ProjectLabel(a)|..] == tail
    ensures !HasDescription(a) ==> m == ProjectLabel(a)
  {
    ProjectLabel(a) + (if HasDescription(a) then DescriptionSeparator + a.description.value else "")
  }

  /** The description can be read back from the message, after the label and the separator. */
  lemma {:induction false} MessageRecoversDescription(a: Activity)
    requires HasDescription(a)
    ensures Message(a)[|ProjectLabel(a)| + |DescriptionSeparator|..] == a.description.value
  {
  }
}
