/** The component state and how one poll of the feed changes it. */
module Store {
  import opened Wrappers
  import opened Matches
  import opened Filter

  /** What one poll of the feed ends in. `Fetched` is a response that was OK and
      whose body held `data.matches`; `NotOk` is a response with a non-OK status;
      `Thrown` is any exception on the way (network failure, a body that is not
      JSON, a body without `data`), carrying its message. */
  datatype Outcome = Fetched(list: seq<Match>) | NotOk | Thrown(message: string)

  /** The five state slots of the component. `error` is `None` for JavaScript's `null`. */
  datatype State = State(
    matches: seq<Match>,
    error: Option<string>,
    loading: bool,
    filter: string,
    expanded: Option<string>)

  /** The message thrown when the response status is not OK. */
  const LoadFailedMessage: string := "Ошибка: не удалось загрузить информацию"

  /** The state when the component mounts: no matches, no error, loading, every match shown, nothing expanded. */
  function Init(): (s: State)
    ensures s.matches == [] && s.error == None && s.loading
    ensures s.expanded == None
    ensures forall ms :: Visible(s.filter, ms) == ms
  {
    var s := State([], None, true, AllFilter, None);
    forall ms ensures Visible(s.filter, ms) == ms {
      OtherFiltersShowAll(s.filter, ms);
    }
    s
  }

  /** One poll folded into the state: a stored list replaces the old one, a thrown
      message becomes the error, and in every case loading ends. Nothing ever
      clears a previous error, and the view state is not touched. */
  function ApplyOutcome(s: State, o: Outcome): (t: State)
    ensures !t.loading
    ensures t.filter == s.filter && t.expanded == s.expanded
    ensures o.Fetched? ==> t.matches == o.list && t.error == s.error
    ensures o.NotOk? ==> t.matches == s.matches && t.error == Some(LoadFailedMessage)
    ensures o.Thrown? ==> t.matches == s.matches && t.error == Some(o.message)
    ensures s.error.Some? ==> t.error.Some?
  {
    var t := match o
      case Fetched(list) => s.(matches := list)
      case NotOk => s.(error := Some(LoadFailedMessage))
      case Thrown(message) => s.(error := Some(message));
    t.(loading := false)
  }

  /** Applying the same poll result twice is the same as applying it once. */
  lemma ApplyOutcomeIdempotent(s: State, o: Outcome)
    ensures ApplyOutcome(ApplyOutcome(s, o), o) == ApplyOutcome(s, o)
  {
  }

  /** The state after a poll depends on the earlier state only through what the
      poll leaves alone: a fetched list forgets the old matches, a failure forgets
      the old error, and neither remembers whether loading was still on. */
  lemma ApplyOutcomeForgets(s: State, s': State, o: Outcome)
    requires s.filter == s'.filter && s.expanded == s'.expanded
    requires o.Fetched? ==> s.error == s'.error
    requires !o.Fetched? ==> s.matches == s'.matches
    ensures ApplyOutcome(s, o) == ApplyOutcome(s', o)
  {
  }
}
