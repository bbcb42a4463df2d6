/** The database dashboard's session cache: the three query results are
    kept with the time they were fetched and refetched only when none was
    fetched yet, when they are more than thirty seconds old, or after the
    refresh button dropped the timestamp. */
module DashboardCache {
  import opened Text
  import opened Tables

  /** Seconds a fetched result is served from the session. */
  const TimeToLive: real := 30.0

  /** What the session holds; an absent key is `None`. */
  datatype Session = Session(clients: Option<Table>, countryStats: Option<Table>,
                             cityStats: Option<Table>, lastRefresh: Option<real>)

  /** The outcome of the three queries of one fetch, in the order they are
      issued; `None` is a query that raised. */
  datatype Fetch = Fetch(clients: Option<Table>, countryStats: Option<Table>, cityStats: Option<Table>)

  /** `pd.DataFrame()`. */
  const Empty: Table := Table([], [])

  /** A timestamp is only stored after all three results are. */
  predicate Consistent(s: Session) {
    s.lastRefresh.Some? ==> s.clients.Some? && s.countryStats.Some? && s.cityStats.Some?
  }

  /** The cache rule: fetch when no refresh time is recorded or the one
      recorded is more than thirty seconds before `now`. */
  predicate Stale(s: Session, now: real) {
    s.lastRefresh.None? || now - s.lastRefresh.value > TimeToLive
  }

  /** `load_data` at clock reading `now`, with `finishedAt` the clock
      reading taken after the three queries: the new session and the three
      frames returned. A query that raises keeps the results stored before
      it, leaves the timestamp alone and yields three empty frames; so does
      reading a result the session does not hold. */
  function LoadData(s: Session, now: real, fetch: Fetch, finishedAt: real): (r: (Session, (Table, Table, Table)))
    ensures Consistent(s) ==> Consistent(r.0)
    ensures !Stale(s, now) ==> r.0 == s
    ensures r.0.lastRefresh == s.lastRefresh || r.0.lastRefresh == Some(finishedAt)
  {
    if !Stale(s, now) then
      if Consistent(s) then (s, (s.clients.value, s.countryStats.value, s.cityStats.value))
      else (s, (Empty, Empty, Empty))
    else if fetch.clients.None? then
      (s, (Empty, Empty, Empty))
    else if fetch.countryStats.None? then
      (s.(clients := fetch.clients), (Empty, Empty, Empty))
    else if fetch.cityStats.None? then
      (s.(clients := fetch.clients, countryStats := fetch.countryStats), (Empty, Empty, Empty))
    else
      (Session(fetch.clients, fetch.countryStats, fetch.cityStats, Some(finishedAt)),
       (fetch.clients.value, fetch.countryStats.value, fetch.cityStats.value))
  }

  /** The refresh button: the timestamp is dropped and nothing else. */
  function Refresh(s: Session): (r: Session)
    ensures r.lastRefresh.None?
    ensures Consistent(r)
  {
    s.(lastRefresh := None)
  }

  /** A session without a timestamp always fetches. */
  lemma FirstLoadFetches(s: Session, now: real, fetch: Fetch, finishedAt: real)
    requires s.lastRefresh.None?
    requires fetch.clients.Some? && fetch.countryStats.Some? && fetch.cityStats.Some?
    ensures LoadData(s, now, fetch, finishedAt).1 ==
            (fetch.clients.value, fetch.countryStats.value, fetch.cityStats.value)
  {
  }

  /** A recorded fetch at most thirty seconds old is served as stored,
      without querying; only strictly more than thirty seconds refetches. */
  lemma FreshResultsServed(s: Session, now: real, fetch: Fetch, finishedAt: real)
    requires Consistent(s) && s.lastRefresh.Some?
    ensures now - s.lastRefresh.value <= TimeToLive ==>
              LoadData(s, now, fetch, finishedAt) == (s, (s.clients.value, s.countryStats.value, s.cityStats.value))
    ensures now - s.lastRefresh.value > TimeToLive ==> Stale(s, now)
  {
  }

  /** A fetch whose three queries succeed replaces all three results and
      stamps them with the time after the last query. */
  lemma FetchReplacesAll(s: Session, now: real, fetch: Fetch, finishedAt: real)
    requires Stale(s, now)
    requires fetch.clients.Some? && fetch.countryStats.Some? && fetch.cityStats.Some?
    ensures LoadData(s, now, fetch, finishedAt).0 ==
            Session(fetch.clients, fetch.countryStats, fetch.cityStats, Some(finishedAt))
  {
  }

  /** A query that raises leaves the timestamp as it was and yields three
      empty frames, so the next load tries again. */
  lemma FailedFetchKeepsTimestamp(s: Session, now: real, fetch: Fetch, finishedAt: real)
    requires Stale(s, now)
    requires fetch.clients.None? || fetch.countryStats.None? || fetch.cityStats.None?
    ensures LoadData(s, now, fetch, finishedAt).0.lastRefresh == s.lastRefresh
    ensures LoadData(s, now, fetch, finishedAt).1 == (Empty, Empty, Empty)
    ensures Stale(LoadData(s, now, fetch, finishedAt).0, now)
  {
  }

  /** After the refresh button the next load queries again, whatever the
      clock says. */
  lemma RefreshForcesFetch(s: Session, now: real, fetch: Fetch, finishedAt: real)
    requires fetch.clients.Some? && fetch.countryStats.Some? && fetch.cityStats.Some?
    ensures LoadData(Refresh(s), now, fetch, finishedAt).0 ==
            Session(fetch.clients, fetch.countryStats, fetch.cityStats, Some(finishedAt))
  {
  }

  /** Once fetched, the same results come back for every load in the next
      thirty seconds, whatever the database would answer then. */
  lemma CachedWithinWindow(s: Session, t0: real, f0: Fetch, done: real, t1: real, f1: Fetch, done1: real)
    requires Stale(s, t0)
    requires f0.clients.Some? && f0.countryStats.Some? && f0.cityStats.Some?
    requires t1 - done <= TimeToLive
    ensures var first := LoadData(s, t0, f0, done);
            LoadData(first.0, t1, f1, done1) == first
  {
  }

  /** `GeoPulseDashboard` with its `st.session_state` entries as fields. */
  class Dashboard {
    var clients: Option<Table>
    var countryStats: Option<Table>
    var cityStats: Option<Table>
    var lastRefresh: Option<real>

    function State(): Session
      reads this
    {
      Session(clients, countryStats, cityStats, lastRefresh)
    }

    predicate Valid()
      reads this
    {
      Consistent(State())
    }

    /** A new browser session holds nothing. */
    constructor ()
      ensures State() == Session(None, None, None, None)
      ensures Valid()
    {
      clients, countryStats, cityStats, lastRefresh := None, None, None, None;
    }

    /** `load_data`: the cache check, the three queries stored one by one,
        the timestamp, and the empty result on an exception. */
    method Load(now: real, fetch: Fetch, finishedAt: real) returns (data: (Table, Table, Table))
      modifies this
      ensures (State(), data) == LoadData(old(State()), now, fetch, finishedAt)
      ensures old(Valid()) ==> Valid()
    {
      if lastRefresh.None? || now - lastRefresh.value > TimeToLive {
        if fetch.clients.None? {
          return (Empty, Empty, Empty);
        }
        clients := fetch.clients;
        if fetch.countryStats.None? {
          return (Empty, Empty, Empty);
        }
        countryStats := fetch.countryStats;
        if fetch.cityStats.None? {
          return (Empty, Empty, Empty);
        }
        cityStats := fetch.cityStats;
        lastRefresh := Some(finishedAt);
      }
      if clients.None? || countryStats.None? || cityStats.None? {
        return (Empty, Empty, Empty);
      }
      data := (clients.value, countryStats.value, cityStats.value);
    }

    /** The refresh button in `run`: the timestamp is deleted when present. */
    method RefreshButton()
      modifies this
      ensures State() == Refresh(old(State()))
      ensures Valid()
    {
      if lastRefresh.Some? {
        lastRefresh := None;
      }
    }
  }
}
