/**
 * The students page keeps two pieces of state: the text typed into the
 * search box and the chosen status filter. The select control lists a
 * pseudo-status "all", which the page stores as the empty filter; the empty
 * filter is displayed as "all" again. Both values go to the students query,
 * where an empty one is left out.
 */
module Students {
  import opened JsValues

  /** The label the select control uses for "no status filter". */
  const AllStatuses := "all"

  datatype FilterState = FilterState(searchQuery: string, statusFilter: string)

  /** `useState("")` for both fields. */
  const Initial := FilterState("", "")

  /** The state never holds the pseudo-status itself as a filter. */
  predicate Valid(s: FilterState)
  {
    s.statusFilter != AllStatuses
  }

  /** What `handleStatusFilter` stores for the value the select reports. */
  function StoredStatus(value: string): (f: string)
    ensures f != AllStatuses
    ensures f == "" <==> value == AllStatuses || value == ""
    ensures value != AllStatuses ==> f == value
  {
    if value == AllStatuses then "" else value
  }

  /** `statusFilter || "all"`: the value the select control shows. */
  function DisplayedStatus(filter: string): (v: string)
    ensures v != ""
    ensures filter != AllStatuses ==> (v == AllStatuses <==> filter == "")
    ensures filter != "" ==> v == filter
  {
    if filter != "" then filter else AllStatuses
  }

  /** Handing the shown value back to the handler keeps the filter as it was. */
  lemma DisplayThenStore(filter: string)
    requires filter != AllStatuses
    ensures StoredStatus(DisplayedStatus(filter)) == filter
  {
  }

  /** After choosing a value, the select shows that value (the empty value shows as "all"). */
  lemma StoreThenDisplay(value: string)
    ensures DisplayedStatus(StoredStatus(value)) == if value == "" then AllStatuses else value
  {
  }

  /** The events the page reacts to. */
  datatype Event = SearchTyped(text: string) | StatusChosen(value: string)

  /** The new state after one handler call. */
  function Step(s: FilterState, e: Event): (t: FilterState)
    ensures e.SearchTyped? ==> t.searchQuery == e.text && t.statusFilter == s.statusFilter
    ensures e.StatusChosen? ==> t.searchQuery == s.searchQuery && t.statusFilter == StoredStatus(e.value)
  {
    match e
    case SearchTyped(text) => s.(searchQuery := text)
    case StatusChosen(value) => s.(statusFilter := StoredStatus(value))
  }

  /** The state after a sequence of handler calls, in order. */
  function Run(s: FilterState, events: seq<Event>): (t: FilterState)
    decreases |events|
  {
    if events == [] then s else Run(Step(s, events[0]), events[1..])
  }

  /** Whatever the handlers are called with, the filter never becomes "all". */
  lemma {:induction false} RunKeepsValid(s: FilterState, events: seq<Event>)
    requires Valid(s)
    ensures Valid(Run(s, events))
    decreases |events|
  {
    if events != [] {
      RunKeepsValid(Step(s, events[0]), events[1..]);
    }
  }

  lemma ReachableIsValid(events: seq<Event>)
    ensures Run(Initial, events).statusFilter != AllStatuses
  {
    RunKeepsValid(Initial, events);
  }

  /** The search text is the last one typed, whatever statuses were chosen. */
  lemma {:induction false} RunSearchIsLastTyped(s: FilterState, events: seq<Event>, k: int)
    requires 0 <= k < |events| && events[k].SearchTyped?
    requires forall j :: k < j < |events| ==> events[j].StatusChosen?
    ensures Run(s, events).searchQuery == events[k].text
    decreases |events|
  {
    if k > 0 {
      RunSearchIsLastTyped(Step(s, events[0]), events[1..], k - 1);
    } else {
      RunKeepsSearch(Step(s, events[0]), events[1..]);
    }
  }

  /** Choosing statuses never touches the search text. */
  lemma {:induction false} RunKeepsSearch(s: FilterState, events: seq<Event>)
    requires forall j :: 0 <= j < |events| ==> events[j].StatusChosen?
    ensures Run(s, events).searchQuery == s.searchQuery
    decreases |events|
  {
    if events != [] {
      RunKeepsSearch(Step(s, events[0]), events[1..]);
    }
  }

  /** The parameters the students query is sent with. */
  datatype StudentQuery = StudentQuery(query: Option<string>, status: Option<string>)

  /** `{ query: searchQuery || undefined, status: statusFilter || undefined }` */
  function QueryParams(s: FilterState): (q: StudentQuery)
    ensures q.query.None? <==> s.searchQuery == ""
    ensures q.query.Some? ==> q.query.value == s.searchQuery
    ensures q.status.None? <==> s.statusFilter == ""
    ensures q.status.Some? ==> q.status.value == s.statusFilter
  {
    StudentQuery(
      if s.searchQuery != "" then Some(s.searchQuery) else None,
      if s.statusFilter != "" then Some(s.statusFilter) else None)
  }

  /** A reachable state never asks the backend for the pseudo-status "all". */
  lemma QueryNeverAll(events: seq<Event>)
    ensures QueryParams(Run(Initial, events)).status != Some(AllStatuses)
  {
    ReachableIsValid(events);
  }

  /** The query determines the state it was built from: no two states share one. */
  lemma QueryParamsInjective(s: FilterState, t: FilterState)
    requires QueryParams(s) == QueryParams(t)
    ensures s == t
  {
  }

  /** The two state fields of the page, changed in place by its handlers. */
  class StudentFilters {
    var searchQuery: string
    var statusFilter: string

    function State(): FilterState
      reads this
    {
      FilterState(searchQuery, statusFilter)
    }

    constructor ()
      ensures State() == Initial && Valid(State())
    {
      searchQuery := "";
      statusFilter := "";
    }

    /** `handleSearch`: stores the text as given. */
    method HandleSearch(value: string)
      modifies this
      ensures State() == Step(old(State()), SearchTyped(value))
      ensures searchQuery == value && statusFilter == old(statusFilter)
      ensures Valid(old(State())) ==> Valid(State())
    {
      searchQuery := value;
    }

    /** `handleStatusFilter`: "all" clears the filter, any other value is stored. */
    method HandleStatusFilter(value: string)
      modifies this
      ensures State() == Step(old(State()), StatusChosen(value))
      ensures statusFilter == (if value == AllStatuses then "" else value)
      ensures searchQuery == old(searchQuery)
      ensures Valid(State())
    {
      statusFilter := if value == AllStatuses then "" else value;
    }
  }
}
