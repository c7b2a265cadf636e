/** The listing screen: its session state, the updates the fetch and the
    controls make to it, and what the screen shows for a given state. */
module Listing {
  import opened Wrappers
  import opened Users
  import opened Search
  import opened Paging
  import opened Pagination

  /** Users requested per fetch. */
  const FetchCount: nat := 100

  /** Error text used when a failed fetch throws something that is not an `Error`. */
  const FallbackError: string := "Failed to load users"

  /** What a failed fetch throws: an `Error` carrying a message, or any
      other value. */
  datatype Thrown = ErrorObject(message: string) | OtherValue

  /** The request a fetch sends: how many users and which gender, if any. */
  datatype FetchRequest = FetchRequest(count: nat, gender: Option<Gender>)

  /** A batch answers a request when, if the request names a gender, every
      user in it has that gender. How many users come back is up to the
      upstream service. */
  ghost predicate Answers(req: FetchRequest, data: seq<User>) {
    req.gender.Some? ==> forall u :: u in data ==> u.gender == req.gender.value
  }

  /** The state hooks of the listing component. */
  datatype Session = Session(
    users: seq<User>,
    loading: bool,
    error: Option<string>,
    selectedGender: Option<Gender>,
    searchQuery: string,
    currentPage: int)

  /** The state on mount: no users yet, loading, no error, no gender filter,
      empty search, page 1. */
  function Initial(): (s: Session)
    ensures s.currentPage == 1 && s.users == [] && s.selectedGender.None? && s.searchQuery == ""
    ensures Render(s).body == Spinner && Render(s).errorBanner.None? && Render(s).note.None?
    ensures StartFetch(s) == s
  {
    Session([], true, None, None, "", 1)
  }

  /** The request the fetch effect sends for the current filter. */
  function RequestFor(s: Session): FetchRequest {
    FetchRequest(FetchCount, s.selectedGender)
  }

  /** The message stored when a fetch fails. */
  function ErrorMessage(thrown: Thrown): string {
    match thrown
    case ErrorObject(m) => m
    case OtherValue => FallbackError
  }

  // ---- The rendered screen ----

  /** The props the pagination control receives. */
  datatype Control = Control(currentPage: int, totalPages: int)

  /** The main area of the screen. */
  datatype Body =
    | Spinner
    | Grid(cards: seq<User>, control: Option<Control>)
    | NoUsers

  /** The "Found N result(s)" line shown under a non-empty search. */
  datatype ResultNote = ResultNote(count: nat, plural: bool, query: string)

  datatype Screen = Screen(note: Option<ResultNote>, errorBanner: Option<string>, body: Body)

  /** `filteredUsers` of the session. */
  function Filtered(s: Session): seq<User> {
    Filter(s.users, s.searchQuery)
  }

  /** `paginatedUsers` of the session. */
  function Shown(s: Session): seq<User> {
    Page(Filtered(s), s.currentPage)
  }

  /** The screen for a session. The loading message wins over everything;
      otherwise a non-empty page shows the card grid, with the control only
      when there is more than one page, and an empty page shows "No users
      found". The error banner and the result line follow JavaScript
      truthiness: an empty string shows neither. */
  function Render(s: Session): (v: Screen)
    ensures v.body.Spinner? <==> s.loading
    ensures v.body.Grid? ==>
      && v.body.cards == Shown(s)
      && 1 <= |v.body.cards| <= PageSize
      && (forall u :: u in v.body.cards ==> u in s.users && Matches(u, s.searchQuery))
    ensures v.body.Grid? ==> (v.body.control.Some? <==> TotalPages(|Filtered(s)|) > 1)
    ensures v.body.Grid? && v.body.control.Some? ==>
      && v.body.control.value.totalPages == TotalPages(|Filtered(s)|) > 1
      && v.body.control.value.currentPage == s.currentPage
      && (s.currentPage >= 1 ==> s.currentPage <= v.body.control.value.totalPages)
    ensures v.body.NoUsers? <==> !s.loading && Shown(s) == []
    ensures v.body.NoUsers? && s.currentPage >= 1 ==> s.currentPage > TotalPages(|Filtered(s)|)
    ensures v.errorBanner.Some? <==> s.error.Some? && s.error.value != ""
    ensures v.errorBanner.Some? ==> v.errorBanner.value == s.error.value
    ensures v.note.Some? <==> s.searchQuery != ""
    ensures v.note.Some? ==>
      && v.note.value.count == |Filtered(s)|
      && (v.note.value.plural <==> |Filtered(s)| != 1)
      && v.note.value.query == s.searchQuery
  {
    var filtered := Filtered(s);
    var total := TotalPages(|filtered|);
    var shown := Shown(s);
    var note := if s.searchQuery != "" then Some(ResultNote(|filtered|, |filtered| != 1, s.searchQuery)) else None;
    var banner := if s.error.Some? && s.error.value != "" then Some(s.error.value) else None;
    var body :=
      if s.loading then Spinner
      else if |shown| > 0 then Grid(shown, if total > 1 then Some(Control(s.currentPage, total)) else None)
      else NoUsers;
    Screen(note, banner, body)
  }

  // ---- State updates ----

  /** Start of the fetch effect: loading on, error cleared, nothing else changes. */
  function StartFetch(s: Session): (t: Session)
    ensures t.loading && t.error.None?
    ensures t.users == s.users && t.currentPage == s.currentPage
    ensures t.selectedGender == s.selectedGender && t.searchQuery == s.searchQuery
    ensures Render(t).body == Spinner && Render(t).errorBanner.None?
  {
    s.(loading := true, error := None)
  }

  /** A fetch resolved with `data`: the batch is replaced wholesale, the page
      goes back to 1 and loading ends. The error is left as it was, and so
      are the gender filter and the search. The screen then shows the first
      page of the new batch filtered by the current search. */
  function FetchSucceeded(s: Session, data: seq<User>): (t: Session)
    ensures t.users == data && t.currentPage == 1 && !t.loading
    ensures t.error == s.error && t.selectedGender == s.selectedGender && t.searchQuery == s.searchQuery
    ensures Filter(data, s.searchQuery) == [] ==> Render(t).body == NoUsers
    ensures Filter(data, s.searchQuery) != [] ==>
      && Render(t).body.Grid?
      && Render(t).body.cards == Filter(data, s.searchQuery)[..Min(PageSize, |Filter(data, s.searchQuery)|)]
  {
    s.(users := data, currentPage := 1, loading := false)
  }

  /** A fetch failed: the error is recorded and loading ends; the batch and
      the page are kept, so the previous users stay on screen. */
  function FetchFailed(s: Session, thrown: Thrown): (t: Session)
    ensures t.error == Some(if thrown.ErrorObject? then thrown.message else FallbackError)
    ensures !t.loading
    ensures t.users == s.users && t.currentPage == s.currentPage
    ensures t.selectedGender == s.selectedGender && t.searchQuery == s.searchQuery
    ensures Render(t).body != Spinner
  {
    s.(error := Some(ErrorMessage(thrown)), loading := false)
  }

  /** A new search text: only the query changes; the page is not reset. */
  function ChangeSearch(s: Session, query: string): (t: Session)
    ensures t.searchQuery == query
    ensures t.users == s.users && t.loading == s.loading && t.error == s.error
    ensures t.selectedGender == s.selectedGender && t.currentPage == s.currentPage
  {
    s.(searchQuery := query)
  }

  /** A page request: the page becomes exactly the requested number, without
      clamping; nothing else changes. */
  function ChangePage(s: Session, page: int): (t: Session)
    ensures t.currentPage == page
    ensures t.users == s.users && t.loading == s.loading && t.error == s.error
    ensures t.selectedGender == s.selectedGender && t.searchQuery == s.searchQuery
  {
    s.(currentPage := page)
  }

  /** A gender button: only the filter changes. */
  function ChangeGender(s: Session, gender: Option<Gender>): (t: Session)
    ensures t.selectedGender == gender
    ensures t.users == s.users && t.loading == s.loading && t.error == s.error
    ensures t.searchQuery == s.searchQuery && t.currentPage == s.currentPage
  {
    s.(selectedGender := gender)
  }

  // ---- Events ----

  /** What can happen to a mounted listing screen: a fetch settles, or the
      user uses one of the controls. A settling fetch names the request it
      answers, but the screen does not look at it. */
  datatype Event =
    | FetchResolved(request: FetchRequest, data: seq<User>)
    | FetchRejected(request: FetchRequest, thrown: Thrown)
    | GenderChosen(gender: Option<Gender>)
    | QueryEntered(query: string)
    | PrevPressed
    | NextPressed
    | LabelPressed(index: int)

  /** The page a press on the pagination control asks for, if the control is
      on screen and the pressed button is enabled. */
  function PageRequest(s: Session, e: Event): (r: Option<int>)
    requires e.PrevPressed? || e.NextPressed? || e.LabelPressed?
    ensures r.Some? ==> Render(s).body.Grid? && Render(s).body.control.Some?
    ensures r.Some? && s.currentPage >= 1 ==> 1 <= r.value <= TotalPages(|Filtered(s)|)
  {
    var body := Render(s).body;
    if body.Grid? && body.control.Some? then
      var c := body.control.value;
      match e
      case PrevPressed => NavButtons(c.currentPage, c.totalPages).prev
      case NextPressed => NavButtons(c.currentPage, c.totalPages).next
      case LabelPressed(i) =>
        var labels := PageLabels(c.currentPage, c.totalPages);
        if 0 <= i < |labels| && labels[i].Number? then Some(labels[i].page) else None
    else
      None
  }

  /** One event applied to the session. Choosing a different gender sets the
      filter and, through the effect on `selectedGender`, starts a fetch at
      once; choosing the same gender changes nothing. A press on a control
      that is not on screen, or is disabled, changes nothing. */
  function Step(s: Session, e: Event): (t: Session)
    ensures e.FetchResolved? ==> t.users == e.data && t.currentPage == 1 && !t.loading
    ensures t.users != s.users ==> e.FetchResolved?
    ensures e.FetchRejected? ==> t.error == Some(ErrorMessage(e.thrown)) && !t.loading
    ensures t.error != s.error ==> e.FetchRejected? || e.GenderChosen?
    ensures e.QueryEntered? ==> t.searchQuery == e.query
    ensures t.searchQuery != s.searchQuery ==> e.QueryEntered?
    ensures e.GenderChosen? ==> t.selectedGender == e.gender
    ensures e.GenderChosen? && e.gender == s.selectedGender ==> t == s
    ensures t.selectedGender != s.selectedGender ==> e.GenderChosen? && t.loading && t.error.None?
    ensures t.loading != s.loading ==> e.FetchResolved? || e.FetchRejected? || e.GenderChosen?
    ensures e.PrevPressed? || e.NextPressed? || e.LabelPressed? ==>
      && t == s.(currentPage := t.currentPage)
      && (t != s ==> Render(s).body.Grid? && Render(s).body.control.Some?)
    ensures t.currentPage != s.currentPage ==>
      e.FetchResolved? || e.PrevPressed? || e.NextPressed? || e.LabelPressed?
  {
    match e
    case FetchResolved(_, data) => FetchSucceeded(s, data)
    case FetchRejected(_, thrown) => FetchFailed(s, thrown)
    case GenderChosen(g) => if g == s.selectedGender then s else StartFetch(ChangeGender(s, g))
    case QueryEntered(q) => ChangeSearch(s, q)
    case _ =>
      var r := PageRequest(s, e);
      if r.Some? then ChangePage(s, r.value) else s
  }

  /** A sequence of events applied in order. */
  function Replay(s: Session, events: seq<Event>): Session
    decreases |events|
  {
    if events == [] then s else Replay(Step(s, events[0]), events[1..])
  }

  /** No event takes the page below 1: fetch success sets it to 1, and the
      control only asks for pages it shows or for a neighbour of an enabled
      button. */
  lemma StepKeepsPagePositive(s: Session, e: Event)
    requires s.currentPage >= 1
    ensures Step(s, e).currentPage >= 1
  {
    if e.PrevPressed? || e.NextPressed? || e.LabelPressed? {
      var r := PageRequest(s, e);
    }
  }

  /** Every session reachable from mount has a page number of at least 1,
      so the page slice never meets the negative indices `slice` would
      count from the end. */
  lemma {:induction false} ReachablePagePositive(s: Session, events: seq<Event>)
    requires s.currentPage >= 1
    ensures Replay(s, events).currentPage >= 1
    decreases |events|
  {
    if events != [] {
      StepKeepsPagePositive(s, events[0]);
      ReachablePagePositive(Step(s, events[0]), events[1..]);
    }
  }

  /** In every reachable session the pagination control, when shown, gets a
      current page within `[1, totalPages]`, so its label window contains
      the current page and its enabled buttons ask for pages in range. */
  lemma ControlShowsCurrentPage(events: seq<Event>)
    ensures var s := Replay(Initial(), events);
      var body := Render(s).body;
      body.Grid? && body.control.Some? ==>
        var c := body.control.value;
        && 1 <= c.currentPage <= c.totalPages
        && Number(c.currentPage) in PageLabels(c.currentPage, c.totalPages)
  {
    ReachablePagePositive(Initial(), events);
  }

  /** A search with no match, once loading is over, shows "No users found",
      no pagination control, and a result line counting zero results. */
  lemma NoMatchShowsEmptyState(s: Session, query: string)
    requires !s.loading
    requires Filter(s.users, query) == []
    ensures Render(Step(s, QueryEntered(query))).body == NoUsers
    ensures query != "" ==> Render(Step(s, QueryEntered(query))).note == Some(ResultNote(0, true, query))
  {
  }

  /** The page is not reset by a search: on page 3 of a long list, a search
      that leaves twelve matches shows "No users found" while the result
      line reports the twelve matches. */
  lemma StalePageHidesMatches(s: Session, query: string)
    requires !s.loading && s.currentPage == 3
    requires |Filter(s.users, query)| == PageSize
    ensures Render(Step(s, QueryEntered(query))).body == NoUsers
    ensures query != "" ==> Render(Step(s, QueryEntered(query))).note == Some(ResultNote(PageSize, true, query))
  {
  }

  /** A settling fetch is handled the same whatever request it answers:
      there is no request identity or sequence check. */
  lemma SettlingIgnoresRequest(s: Session, r1: FetchRequest, r2: FetchRequest, data: seq<User>, thrown: Thrown)
    ensures Step(s, FetchResolved(r1, data)) == Step(s, FetchResolved(r2, data))
    ensures Step(s, FetchRejected(r1, thrown)) == Step(s, FetchRejected(r2, thrown))
  {
  }

  /** Responses are not matched to requests: whichever fetch settles last
      decides the batch. Switching from Male to Female, if the Female
      response arrives first and the earlier Male response after it, the
      screen shows only Male users under the Female filter. */
  lemma LastArrivalWins(s: Session, female: seq<User>, male: seq<User>)
    requires s.selectedGender == Some(Male)
    requires Answers(RequestFor(s), male)
    requires Answers(RequestFor(ChangeGender(s, Some(Female))), female)
    ensures var t := Replay(s, [
        GenderChosen(Some(Female)),
        FetchResolved(RequestFor(ChangeGender(s, Some(Female))), female),
        FetchResolved(RequestFor(s), male)]);
      && t.selectedGender == Some(Female) && t.users == male && !t.loading
      && (Render(t).body.Grid? ==> forall u :: u in Render(t).body.cards ==> u.gender == Male)
  {
    var events := [
      GenderChosen(Some(Female)),
      FetchResolved(RequestFor(ChangeGender(s, Some(Female))), female),
      FetchResolved(RequestFor(s), male)];
    var s1 := Step(s, events[0]);
    var s2 := Step(s1, events[1]);
    var s3 := Step(s2, events[2]);
    assert events[1..][1..][1..] == [];
    assert Replay(s, events) == Replay(s1, events[1..]) == Replay(s2, events[1..][1..]) == s3;
  }

  /** A failed fetch restores the screen it interrupted: starting a fetch
      shows the loading message, and its failure brings back the same main
      area as before, now under the error banner. The same holds when the
      fetch was started by choosing another gender. */
  lemma FailureKeepsPreviousUsers(s: Session, req: FetchRequest, thrown: Thrown, g: Option<Gender>)
    requires !s.loading
    ensures Render(FetchFailed(StartFetch(s), thrown)).body == Render(s).body
    ensures g != s.selectedGender ==>
      Render(Replay(s, [GenderChosen(g), FetchRejected(req, thrown)])).body == Render(s).body
    ensures Render(FetchFailed(StartFetch(s), thrown)).errorBanner ==
      if ErrorMessage(thrown) == "" then None else Some(ErrorMessage(thrown))
    ensures g != s.selectedGender ==>
      Render(Replay(s, [GenderChosen(g), FetchRejected(req, thrown)])).errorBanner ==
        if ErrorMessage(thrown) == "" then None else Some(ErrorMessage(thrown))
  {
    var events := [GenderChosen(g), FetchRejected(req, thrown)];
    var s1 := Step(s, events[0]);
    var s2 := Step(s1, events[1]);
    assert events[1..][1..] == [];
    assert Replay(s, events) == Replay(s1, events[1..]) == s2;
  }
}
