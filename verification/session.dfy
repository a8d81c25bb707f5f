/** A session: the state after a sequence of polls and clicks, applied in order. */
module Session {
  import opened Wrappers
  import opened Matches
  import opened Details
  import opened Store

  /** Everything that changes the state: a poll completing, a filter button, a details button. */
  datatype Event = Poll(outcome: Outcome) | SelectFilter(value: string) | ToggleDetails(title: string)

  /** One event. Polls touch only the store slots; clicks touch only the view slots. */
  function Step(s: State, e: Event): (t: State)
    ensures e.Poll? ==> t.filter == s.filter && t.expanded == s.expanded
    ensures !e.Poll? ==> t.matches == s.matches && t.error == s.error && t.loading == s.loading
    ensures e.SelectFilter? ==> t.filter == e.value && t.expanded == s.expanded
    ensures e.ToggleDetails? ==> t.filter == s.filter && t.expanded == Toggle(s.expanded, e.title)
  {
    match e
    case Poll(o) => ApplyOutcome(s, o)
    case SelectFilter(f) => s.(filter := f)
    case ToggleDetails(title) => s.(expanded := Toggle(s.expanded, title))
  }

  /** The events applied one after another, first event first. */
  function Run(s: State, es: seq<Event>): State
    decreases |es|
  {
    if es == [] then s else Run(Step(s, es[0]), es[1..])
  }

  /** Running two sequences back to back is running their concatenation. */
  lemma {:induction false} RunAppend(s: State, a: seq<Event>, b: seq<Event>)
    ensures Run(s, a + b) == Run(Run(s, a), b)
    decreases |a|
  {
    if a == [] {
      assert a + b == b;
    } else {
      assert (a + b)[0] == a[0];
      assert (a + b)[1..] == a[1..] + b;
      RunAppend(Step(s, a[0]), a[1..], b);
    }
  }

  /** The list of the most recent poll that stored one, found from the end of the events. */
  function LastFetched(es: seq<Event>): Option<seq<Match>>
    decreases |es|
  {
    if es == [] then None
    else
      var e := es[|es| - 1];
      if e.Poll? && e.outcome.Fetched? then Some(e.outcome.list)
      else LastFetched(es[..|es| - 1])
  }

  /** Some event is a completed poll. */
  ghost predicate Polled(es: seq<Event>)
  {
    exists i :: 0 <= i < |es| && es[i].Poll?
  }

  /** Some event is a poll that failed (non-OK status or a thrown exception). */
  ghost predicate PollFailed(es: seq<Event>)
  {
    exists i :: 0 <= i < |es| && es[i].Poll? && !es[i].outcome.Fetched?
  }

  /** The stored matches are wholesale the list of the last successful poll, or the
      starting list when no poll succeeded; failures never touch them. */
  lemma {:induction false} RunMatches(s: State, es: seq<Event>)
    ensures Run(s, es).matches == LastFetched(es).GetOr(s.matches)
    decreases |es|
  {
    if es != [] {
      var init := es[..|es| - 1];
      var e := es[|es| - 1];
      assert es == init + [e];
      RunAppend(s, init, [e]);
      RunMatches(s, init);
    }
  }

  /** Loading stays on exactly until the first poll completes, whatever its result. */
  lemma {:induction false} RunLoading(s: State, es: seq<Event>)
    ensures Run(s, es).loading <==> s.loading && !Polled(es)
    decreases |es|
  {
    if es != [] {
      RunLoading(Step(s, es[0]), es[1..]);
      if Polled(es[1..]) {
        var i :| 0 <= i < |es[1..]| && es[1..][i].Poll?;
        assert es[i + 1].Poll?;
      }
      if Polled(es) && !es[0].Poll? {
        var i :| 0 <= i < |es| && es[i].Poll?;
        assert es[1..][i - 1].Poll?;
      }
    }
  }

  /** An error is present exactly when one was present at the start or some poll
      failed: no event ever resets it, successful polls included. */
  lemma {:induction false} RunError(s: State, es: seq<Event>)
    ensures Run(s, es).error.Some? <==> s.error.Some? || PollFailed(es)
    decreases |es|
  {
    if es != [] {
      RunError(Step(s, es[0]), es[1..]);
      if PollFailed(es[1..]) {
        var i :| 0 <= i < |es[1..]| && es[1..][i].Poll? && !es[1..][i].outcome.Fetched?;
        assert es[i + 1] == es[1..][i];
      }
      if PollFailed(es) && !(es[0].Poll? && !es[0].outcome.Fetched?) {
        var i :| 0 <= i < |es| && es[i].Poll? && !es[i].outcome.Fetched?;
        assert es[1..][i - 1] == es[i];
      }
    }
  }

  /** The message of the most recent failed poll, found from the end of the events:
      the fixed text for a non-OK status, the exception's own message otherwise. */
  function LastFailure(es: seq<Event>): Option<string>
    decreases |es|
  {
    if es == [] then None
    else
      var e := es[|es| - 1];
      if e.Poll? && e.outcome.NotOk? then Some(LoadFailedMessage)
      else if e.Poll? && e.outcome.Thrown? then Some(e.outcome.message)
      else LastFailure(es[..|es| - 1])
  }

  /** Every failure overwrites the error with its own message, so the stored error
      is the message of the last failed poll, or the starting error if none failed. */
  lemma {:induction false} RunErrorValue(s: State, es: seq<Event>)
    ensures Run(s, es).error == if LastFailure(es).Some? then LastFailure(es) else s.error
    decreases |es|
  {
    if es != [] {
      var init := es[..|es| - 1];
      var e := es[|es| - 1];
      assert es == init + [e];
      RunAppend(s, init, [e]);
      RunErrorValue(s, init);
    }
  }
}
