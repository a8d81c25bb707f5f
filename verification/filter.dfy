/** The match filter: which matches the list shows for the selected filter button. */
module Filter {
  import opened Matches
  import opened Seqs

  /** The filter values the three buttons set. Any other value behaves like `AllFilter`. */
  const AllFilter: string := "all"
  const LiveFilter: string := "live"
  const FinishedFilter: string := "finished"

  /** The callback handed to the list's `filter`: "live" keeps ongoing matches,
      "finished" keeps finished ones, and every other filter value keeps all. */
  predicate Keep(filter: string, m: Match)
  {
    if filter == LiveFilter then m.status == Ongoing
    else if filter == FinishedFilter then m.status == Finished
    else true
  }

  /** The visible matches: those `Keep` accepts, in their original order. */
  function Visible(filter: string, ms: seq<Match>): (r: seq<Match>)
    ensures |r| <= |ms|
    ensures forall m :: m in r <==> m in ms && Keep(filter, m)
  {
    if ms == [] then []
    else if Keep(filter, ms[0]) then [ms[0]] + Visible(filter, ms[1..])
    else Visible(filter, ms[1..])
  }

  /** The filter walks the list front to back, appending each kept match to the result. */
  method FilterMatches(filter: string, ms: seq<Match>) returns (r: seq<Match>)
    ensures r == Visible(filter, ms)
  {
    r := [];
    var i := 0;
    while i < |ms|
      invariant 0 <= i <= |ms|
      invariant r == Visible(filter, ms[..i])
    {
      VisibleAppend(filter, ms[..i], [ms[i]]);
      assert ms[..i + 1] == ms[..i] + [ms[i]];
      if Keep(filter, ms[i]) {
        r := r + [ms[i]];
      }
      i := i + 1;
    }
    assert ms[..i] == ms;
  }

  /** Filtering a concatenation filters each part on its own. */
  lemma {:induction false} VisibleAppend(filter: string, a: seq<Match>, b: seq<Match>)
    ensures Visible(filter, a + b) == Visible(filter, a) + Visible(filter, b)
    decreases |a|
  {
    if a == [] {
      assert a + b == b;
    } else {
      assert (a + b)[0] == a[0];
      assert (a + b)[1..] == a[1..] + b;
      VisibleAppend(filter, a[1..], b);
    }
  }

  /** `idx` lists exactly the positions of `ms` whose match the filter keeps. */
  ghost predicate KeptPositions(filter: string, ms: seq<Match>, idx: seq<nat>)
  {
    forall j :: 0 <= j < |ms| ==> (j in idx <==> Keep(filter, ms[j]))
  }

  /** The visible list is exactly the kept positions of `ms`, taken in increasing
      order: a stable subsequence holding every kept match and nothing else. */
  lemma {:induction false} VisibleSelectsKeptPositions(filter: string, ms: seq<Match>)
    returns (idx: seq<nat>)
    ensures StableSelection(Visible(filter, ms), ms, idx)
    ensures KeptPositions(filter, ms, idx)
  {
    if ms == [] {
      idx := [];
    } else {
      var rest := VisibleSelectsKeptPositions(filter, ms[1..]);
      assert ms == [ms[0]] + ms[1..];
      ShiftMembership(rest);
      if Keep(filter, ms[0]) {
        SelectionCons(ms[0], Visible(filter, ms[1..]), ms[1..], rest);
        idx := [0] + Shift(rest);
      } else {
        SelectionSkip(ms[0], Visible(filter, ms[1..]), ms[1..], rest);
        idx := Shift(rest);
      }
      forall j | 1 <= j < |ms|
        ensures j in idx <==> Keep(filter, ms[j])
      {
        assert ms[j] == ms[1..][j - 1];
        assert j - 1 + 1 == j;
      }
    }
  }

  /** Consequently the visible list is a subsequence of the full list. */
  lemma VisibleIsSubsequence(filter: string, ms: seq<Match>)
    ensures IsSubsequence(Visible(filter, ms), ms)
  {
    var idx := VisibleSelectsKeptPositions(filter, ms);
  }

  /** "all", and every value other than "live" and "finished", shows the whole list unchanged. */
  lemma {:induction false} OtherFiltersShowAll(filter: string, ms: seq<Match>)
    requires filter != LiveFilter && filter != FinishedFilter
    ensures Visible(filter, ms) == ms
  {
    if ms != [] {
      OtherFiltersShowAll(filter, ms[1..]);
    }
  }

  /** Filtering an already filtered list changes nothing. */
  lemma {:induction false} VisibleIdempotent(filter: string, ms: seq<Match>)
    ensures Visible(filter, Visible(filter, ms)) == Visible(filter, ms)
  {
    if ms != [] {
      VisibleIdempotent(filter, ms[1..]);
    }
  }

  /** "live" and "finished" select disjoint parts of the list, and a match with any
      other status (such as "Scheduled") appears under neither. */
  lemma {:induction false} LiveAndFinishedAreDisjoint(ms: seq<Match>)
    ensures |Visible(LiveFilter, ms)| + |Visible(FinishedFilter, ms)| <= |ms|
    ensures forall m :: m in Visible(LiveFilter, ms) ==> m !in Visible(FinishedFilter, ms)
    ensures forall m :: m in ms && m.status != Ongoing && m.status != Finished ==>
      m !in Visible(LiveFilter, ms) && m !in Visible(FinishedFilter, ms)
  {
    if ms != [] {
      LiveAndFinishedAreDisjoint(ms[1..]);
    }
  }
}
