/** The part of one feed entry that the modelled logic reads. */
module Matches {

  /** The status values the filter compares against. The feed may send others
      (for example "Scheduled"); the status stays an open string. */
  const Ongoing: string := "Ongoing"
  const Finished: string := "Finished"

  /** A match as delivered by the feed. `title` is the key the view uses to
      identify a row; teams, scores, time and players are presentation only. */
  datatype Match = Match(title: string, status: string)
}
