/** The details toggle: a single slot holding the title of the expanded match, if any. */
module Details {
  import opened Wrappers
  import opened Matches

  /** Clicking a row's details button: the expanded title collapses, any other title
      replaces whatever was expanded before. */
  function Toggle(expanded: Option<string>, title: string): (r: Option<string>)
    ensures r == None <==> expanded == Some(title)
    ensures r != None ==> r == Some(title)
  {
    if expanded == Some(title) then None else Some(title)
  }

  /** Whether the row showing `m` renders its details (and the "hide" label). */
  predicate DetailsShown(expanded: Option<string>, m: Match)
  {
    expanded == Some(m.title)
  }

  /** How many rows of `ms` render their details. */
  function ExpandedRows(expanded: Option<string>, ms: seq<Match>): nat
  {
    if ms == [] then 0
    else (if DetailsShown(expanded, ms[0]) then 1 else 0) + ExpandedRows(expanded, ms[1..])
  }

  /** No two rows carry the same title. */
  predicate DistinctTitles(ms: seq<Match>)
  {
    forall i, j :: 0 <= i < j < |ms| ==> ms[i].title != ms[j].title
  }

  /** Two clicks on one title: from the collapsed state they collapse again, from
      that title expanded they leave it expanded, and from another expanded title
      the first click replaces it and the second collapses. */
  lemma ToggleTwice(expanded: Option<string>, title: string)
    ensures Toggle(Toggle(expanded, title), title) ==
      (if expanded == Some(title) then Some(title) else None)
  {
  }

  /** Toggling A and then a different B leaves only B expanded, whatever came before. */
  lemma ToggleOtherReplaces(expanded: Option<string>, a: string, b: string)
    requires a != b
    ensures Toggle(Toggle(expanded, a), b) == Some(b)
    ensures forall m: Match :: DetailsShown(Toggle(Toggle(expanded, a), b), m) <==> m.title == b
  {
  }

  /** With distinct titles at most one row shows its details; exactly one when the
      expanded title belongs to a row, none when the slot is empty. */
  lemma {:induction false} AtMostOneExpanded(expanded: Option<string>, ms: seq<Match>)
    requires DistinctTitles(ms)
    ensures ExpandedRows(expanded, ms) <= 1
    ensures ExpandedRows(expanded, ms) == 1 <==>
      expanded.Some? && exists i :: 0 <= i < |ms| && ms[i].title == expanded.value
  {
    if ms != [] {
      AtMostOneExpanded(expanded, ms[1..]);
      if DetailsShown(expanded, ms[0]) {
        NoneExpanded(expanded, ms[1..]);
        assert ms[0].title == expanded.value;
      } else {
        forall i | 1 <= i < |ms|
          ensures ms[i] == ms[1..][i - 1]
        {
        }
      }
    }
  }

  /** A list in which no title equals the expanded one shows no details at all. */
  lemma {:induction false} NoneExpanded(expanded: Option<string>, ms: seq<Match>)
    requires forall i :: 0 <= i < |ms| ==> !DetailsShown(expanded, ms[i])
    ensures ExpandedRows(expanded, ms) == 0
  {
    if ms != [] {
      NoneExpanded(expanded, ms[1..]);
    }
  }

  /** Titles are the only identity the view has: two rows sharing the expanded
      title both open, so the single-expansion promise rests on unique titles. */
  lemma DuplicateTitlesExpandTwice()
    ensures ExpandedRows(Some("A"), [Match("A", Ongoing), Match("A", Finished)]) == 2
  {
    var ms := [Match("A", Ongoing), Match("A", Finished)];
    assert ms[1..] == [Match("A", Finished)];
    assert ms[1..][1..] == [];
    assert ExpandedRows(Some("A"), ms[1..]) == 1;
  }
}
