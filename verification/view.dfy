/** What the component shows for a state: a loading line, an error line, or the match list. */
module View {
  import opened Wrappers
  import opened Matches
  import opened Filter
  import opened Details
  import opened Store
  import opened Session

  /** One list row: the match and whether its details are open. */
  datatype Row = Row(item: Match, detailsShown: bool)

  /** The three things the component can render. */
  datatype Screen = LoadingText | ErrorText(message: string) | MatchList(rows: seq<Row>)

  /** JavaScript truthiness of the error slot: `null` and the empty string are false. */
  predicate Truthy(error: Option<string>)
  {
    error.Some? && error.value != ""
  }

  /** One row per match, in order, each open exactly when its title is the expanded one. */
  function Rows(expanded: Option<string>, ms: seq<Match>): (rows: seq<Row>)
    ensures |rows| == |ms|
    ensures forall k :: 0 <= k < |ms| ==>
      rows[k].item == ms[k] && (rows[k].detailsShown <==> DetailsShown(expanded, ms[k]))
  {
    seq(|ms|, k requires 0 <= k < |ms| => Row(ms[k], DetailsShown(expanded, ms[k])))
  }

  /** The render guards in priority order: loading first, then a truthy error,
      then the filtered list. */
  function Render(s: State): (v: Screen)
    ensures v.LoadingText? <==> s.loading
    ensures v.ErrorText? <==> !s.loading && Truthy(s.error)
    ensures v.ErrorText? ==> s.error == Some(v.message) && v.message != ""
    ensures v.MatchList? ==> v.rows == Rows(s.expanded, Visible(s.filter, s.matches))
  {
    if s.loading then LoadingText
    else if Truthy(s.error) then ErrorText(s.error.value)
    else MatchList(Rows(s.expanded, Visible(s.filter, s.matches)))
  }

  /** A poll that throws an exception whose message is the empty string. */
  predicate HidesError(e: Event)
  {
    e.Poll? && e.outcome == Thrown("")
  }

  /** Once the error screen is up it stays up: no click and no later poll (a
      successful one included) brings the list back, unless a poll throws an
      exception whose message is the empty string. */
  lemma {:induction false} ErrorScreenPersists(s: State, es: seq<Event>)
    requires Render(s).ErrorText?
    requires forall i :: 0 <= i < |es| ==> !HidesError(es[i])
    ensures Render(Run(s, es)).ErrorText?
    decreases |es|
  {
    if es != [] {
      var t := Step(s, es[0]);
      assert !HidesError(es[0]);
      assert Render(t).ErrorText?;
      forall i | 0 <= i < |es[1..]|
        ensures !HidesError(es[1..][i])
      {
        assert es[1..][i] == es[i + 1];
      }
      ErrorScreenPersists(t, es[1..]);
    }
  }

  /** A failed poll puts its message on screen: the fixed text for a non-OK status,
      the exception's own message when it is not empty. */
  lemma FailureShowsMessage(s: State, o: Outcome)
    requires o.NotOk? || (o.Thrown? && o.message != "")
    ensures Render(ApplyOutcome(s, o)) == ErrorText(if o.NotOk? then LoadFailedMessage else o.message)
  {
  }

  /** From any state, an exception with an empty message is stored but falsy: the
      error slot holds `""`, not `null`, and the screen is the filtered rows, so the
      list comes back over an earlier error. The trace from mount shows that case. */
  lemma EmptyMessageHidesError(s: State)
    ensures ApplyOutcome(s, Thrown("")).error == Some("")
    ensures Render(ApplyOutcome(s, Thrown(""))) == MatchList(Rows(s.expanded, Visible(s.filter, s.matches)))
    ensures Run(Init(), [Poll(NotOk), Poll(Thrown(""))]).error == Some("")
    ensures Render(Run(Init(), [Poll(NotOk)])).ErrorText?
    ensures Render(Run(Init(), [Poll(NotOk), Poll(Thrown(""))])) == MatchList([])
  {
    var es := [Poll(NotOk), Poll(Thrown(""))];
    assert es[1..] == [Poll(Thrown(""))];
    assert es[1..][1..] == [];
    assert [Poll(NotOk)][1..] == [];
  }

  /** From mount, the loading line shows exactly until the first poll completes. */
  lemma LoadingUntilFirstPoll(es: seq<Event>)
    ensures Render(Run(Init(), es)).LoadingText? <==> !Polled(es)
  {
    RunLoading(Init(), es);
  }

  /** From mount, the error line shows exactly when some poll failed and the most
      recent failure had a non-empty message, and the line is that message. */
  lemma ErrorScreenAfterPolls(es: seq<Event>)
    ensures Render(Run(Init(), es)).ErrorText? <==>
      PollFailed(es) && LastFailure(es) != Some("")
    ensures Render(Run(Init(), es)).ErrorText? ==>
      LastFailure(es) == Some(Render(Run(Init(), es)).message)
  {
    RunLoading(Init(), es);
    RunError(Init(), es);
    RunErrorValue(Init(), es);
  }

  /** The filtered list keeps distinct titles distinct. */
  lemma VisibleKeepsDistinctTitles(filter: string, ms: seq<Match>)
    requires DistinctTitles(ms)
    ensures DistinctTitles(Visible(filter, ms))
  {
    var r := Visible(filter, ms);
    var idx := VisibleSelectsKeptPositions(filter, ms);
    forall i, j | 0 <= i < j < |r|
      ensures r[i].title != r[j].title
    {
      assert idx[i] < idx[j];
      assert r[i] == ms[idx[i]] && r[j] == ms[idx[j]];
    }
  }

  /** With distinct titles in the feed, a rendered list has at most one open row. */
  lemma SingleOpenRow(s: State)
    requires DistinctTitles(s.matches)
    requires Render(s).MatchList?
    ensures ExpandedRows(s.expanded, Visible(s.filter, s.matches)) <= 1
    ensures var rows := Render(s).rows;
      forall k, l :: 0 <= k < |rows| && 0 <= l < |rows| && rows[k].detailsShown && rows[l].detailsShown ==> k == l
  {
    var vis := Visible(s.filter, s.matches);
    VisibleKeepsDistinctTitles(s.filter, s.matches);
    AtMostOneExpanded(s.expanded, vis);
  }

  /** Mounting, then a feed with an empty list: an empty list and no error. */
  lemma EmptyFeedShowsEmptyList()
    ensures Render(ApplyOutcome(Init(), Fetched([]))) == MatchList([])
  {
  }

  /** One ongoing match: visible under "live", hidden under "finished". */
  lemma OngoingMatchUnderFilters(m: Match)
    requires m.status == Ongoing
    ensures Render(Step(ApplyOutcome(Init(), Fetched([m])), SelectFilter(LiveFilter))) ==
      MatchList([Row(m, false)])
    ensures Render(Step(ApplyOutcome(Init(), Fetched([m])), SelectFilter(FinishedFilter))) ==
      MatchList([])
  {
    assert [m][1..] == [];
  }
}
