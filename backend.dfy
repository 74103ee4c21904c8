/**
 * The server side: the filter applied to a freshly fetched story body and the
 * process-wide cache behind `get_story`, which refreshes from the database at
 * most once an hour.
 */
module Backend {
  import opened Wrappers
  import opened Models

  // ---------------------------------------------------------------------------
  // Body filter
  // ---------------------------------------------------------------------------

  /** `str::replace` with a single-character pattern: every `c` becomes `rep`. */
  function ReplaceChar(s: string, c: char, rep: string): string
  {
    if s == [] then []
    else (if s[0] == c then rep else [s[0]]) + ReplaceChar(s[1..], c, rep)
  }

  /**
   * The chain of replacements applied to a fetched body: newlines become
   * spaces, then commas, periods, colons and semicolons are removed, in that
   * order.
   */
  function FilterBody(s: string): string
  {
    ReplaceChar(ReplaceChar(ReplaceChar(ReplaceChar(ReplaceChar(s, '\n', " "), ',', ""), '.', ""), ':', ""), ';', "")
  }

  predicate IsStripped(c: char)
  {
    c == ',' || c == '.' || c == ':' || c == ';'
  }

  /** What the filter does to one character of the input. */
  function FilterChar(c: char): string
  {
    if c == '\n' then " " else if IsStripped(c) then "" else [c]
  }

  /** A one-pass reference definition of the filter, character by character. */
  function Normalized(s: string): string
  {
    if s == [] then [] else FilterChar(s[0]) + Normalized(s[1..])
  }

  /** A body in which the filter finds nothing to change. */
  predicate IsClean(s: string)
  {
    forall i :: 0 <= i < |s| ==> s[i] != '\n' && !IsStripped(s[i])
  }

  lemma {:induction false} ReplaceCharAppend(a: string, b: string, c: char, rep: string)
    ensures ReplaceChar(a + b, c, rep) == ReplaceChar(a, c, rep) + ReplaceChar(b, c, rep)
  {
    if a == [] {
      assert a + b == b;
    } else {
      assert (a + b)[0] == a[0];
      assert (a + b)[1..] == a[1..] + b;
      ReplaceCharAppend(a[1..], b, c, rep);
    }
  }

  lemma FilterBodyAppend(a: string, b: string)
    ensures FilterBody(a + b) == FilterBody(a) + FilterBody(b)
  {
    var a1, b1 := ReplaceChar(a, '\n', " "), ReplaceChar(b, '\n', " ");
    ReplaceCharAppend(a, b, '\n', " ");
    var a2, b2 := ReplaceChar(a1, ',', ""), ReplaceChar(b1, ',', "");
    ReplaceCharAppend(a1, b1, ',', "");
    var a3, b3 := ReplaceChar(a2, '.', ""), ReplaceChar(b2, '.', "");
    ReplaceCharAppend(a2, b2, '.', "");
    var a4, b4 := ReplaceChar(a3, ':', ""), ReplaceChar(b3, ':', "");
    ReplaceCharAppend(a3, b3, ':', "");
    ReplaceCharAppend(a4, b4, ';', "");
  }

  lemma FilterBodyOne(c: char)
    ensures FilterBody([c]) == FilterChar(c)
  {
    if c == '\n' {
      assert ReplaceChar([c], '\n', " ") == " ";
    } else {
      assert ReplaceChar([c], '\n', " ") == [c];
      if c == ',' {
        assert ReplaceChar([c], ',', "") == "";
      } else {
        assert ReplaceChar([c], ',', "") == [c];
        if c == '.' {
          assert ReplaceChar([c], '.', "") == "";
        } else {
          assert ReplaceChar([c], '.', "") == [c];
          if c == ':' {
            assert ReplaceChar([c], ':', "") == "";
          } else {
            assert ReplaceChar([c], ':', "") == [c];
            if c == ';' {
              assert ReplaceChar([c], ';', "") == "";
            } else {
              assert ReplaceChar([c], ';', "") == [c];
            }
          }
        }
      }
    }
  }

  /** The chain of five replacements is the one-pass filter. */
  lemma {:induction false} FilterBodyIsNormalized(s: string)
    ensures FilterBody(s) == Normalized(s)
  {
    if s != [] {
      assert s == [s[0]] + s[1..];
      FilterBodyAppend([s[0]], s[1..]);
      FilterBodyOne(s[0]);
      FilterBodyIsNormalized(s[1..]);
    }
  }

  lemma {:induction false} NormalizedIsClean(s: string)
    ensures IsClean(Normalized(s))
  {
    if s != [] {
      NormalizedIsClean(s[1..]);
      var h, t := FilterChar(s[0]), Normalized(s[1..]);
      assert Normalized(s) == h + t;
      forall i | 0 <= i < |h + t| ensures (h + t)[i] != '\n' && !IsStripped((h + t)[i]) {
        if i >= |h| { assert (h + t)[i] == t[i - |h|]; }
      }
    }
  }

  lemma {:induction false} NormalizedOfClean(s: string)
    requires IsClean(s)
    ensures Normalized(s) == s
  {
    if s != [] {
      assert s[0] != '\n' && !IsStripped(s[0]);
      assert IsClean(s[1..]) by {
        forall i | 0 <= i < |s[1..]| ensures s[1..][i] != '\n' && !IsStripped(s[1..][i]) {
          assert s[1..][i] == s[i + 1];
        }
      }
      NormalizedOfClean(s[1..]);
      assert s == [s[0]] + s[1..];
    }
  }

  /** The filtered body holds no newline, comma, period, colon or semicolon. */
  lemma FilterBodyIsClean(s: string)
    ensures forall i :: 0 <= i < |FilterBody(s)| ==>
      FilterBody(s)[i] !in {'\n', ',', '.', ':', ';'}
  {
    FilterBodyIsNormalized(s);
    NormalizedIsClean(s);
  }

  /** Filtering a filtered body changes nothing. */
  lemma FilterBodyIdempotent(s: string)
    ensures FilterBody(FilterBody(s)) == FilterBody(s)
  {
    FilterBodyIsNormalized(s);
    NormalizedIsClean(s);
    FilterBodyIsNormalized(FilterBody(s));
    NormalizedOfClean(FilterBody(s));
  }

  /**
   * Every character other than the five the filter targets is kept, in order:
   * filtering `a + [c] + b` for such a `c` leaves `c` between the filtered
   * halves; a newline leaves exactly one space there, and a stripped
   * character leaves nothing.
   */
  lemma FilterBodySplit(a: string, c: char, b: string)
    ensures FilterBody(a + [c] + b) == FilterBody(a) + FilterChar(c) + FilterBody(b)
  {
    FilterBodyAppend(a + [c], b);
    FilterBodyAppend(a, [c]);
    FilterBodyOne(c);
  }

  // ---------------------------------------------------------------------------
  // Refresh cache
  // ---------------------------------------------------------------------------

  /** Seconds a stored story stays fresh: `60 * 60`. */
  const RefreshInterval := 3600

  /** `ServerFnError::ServerError`, the only error `get_story` returns. */
  datatype ServerFnError = ServerError(message: string)

  const NoStoriesFound := "No stories found"

  /**
   * What the database answers to the "latest story" query: either the query
   * itself fails, or it yields a stream whose first item is the latest story,
   * if there is one.
   */
  datatype QueryOutcome = QueryFailed(message: string) | Streamed(latest: Option<Story>)

  /** The two process-wide cells: the time of the last refresh (0: never) and the stored story. */
  datatype CacheState = CacheState(lastTime: int, lastStory: Story)

  /** The new cache state, what the caller receives, and whether the database was queried. */
  datatype Served = Served(state: CacheState, result: Result<Story, ServerFnError>, queried: bool)

  /** The staleness decision: never refreshed, or more than an hour since the last refresh. */
  predicate IsStale(lastTime: int, now: int)
  {
    lastTime == 0 || now - lastTime > RefreshInterval
  }

  /** The story handed back after a successful fetch: the fetched one with its body filtered. */
  function Presented(s: Story): Story
  {
    s.(body := FilterBody(s.body))
  }

  /** One call of `get_story` at time `now`, as a function of the cache state before it. */
  function ServeAt(st: CacheState, now: int, db: QueryOutcome): Served
  {
    if !IsStale(st.lastTime, now) then
      Served(st, Ok(st.lastStory), false)
    else
      var stamped := st.(lastTime := now);
      match db
      case QueryFailed(msg) => Served(stamped, Err(ServerError(msg)), true)
      case Streamed(None) => Served(stamped, Err(ServerError(NoStoriesFound)), true)
      case Streamed(Some(latest)) => Served(stamped.(lastStory := latest), Ok(Presented(latest)), true)
  }

  /**
   * The cache behind `get_story`. The two mutex-guarded globals become the two
   * fields of one object; the clock reading and the database's answer are
   * parameters of the call.
   */
  class StoryCache {
    var lastTime: int
    var lastStory: Story

    function State(): CacheState
      reads this
    {
      CacheState(lastTime, lastStory)
    }

    /** Both cells as first initialised: never refreshed, holding the default story. */
    constructor (defaultStory: Story)
      ensures lastTime == 0 && lastStory == defaultStory
    {
      lastTime := 0;
      lastStory := defaultStory;
    }

    /**
     * `get_story`. The refresh time is stamped before the database is queried
     * and is not rolled back when the query fails or finds nothing. `db` is only
     * consulted when `queried` is true.
     */
    method GetStory(now: int, db: QueryOutcome) returns (r: Result<Story, ServerFnError>, queried: bool)
      modifies this
      ensures Served(State(), r, queried) == ServeAt(old(State()), now, db)
    {
      var shouldContinue := false;
      if lastTime == 0 {
        lastTime := now;
        shouldContinue := true;
      } else {
        if now - lastTime > RefreshInterval {
          lastTime := now;
          shouldContinue := true;
        }
      }
      queried := shouldContinue;
      if shouldContinue {
        match db
        case QueryFailed(msg) =>
          r := Err(ServerError(msg));
        case Streamed(next) =>
          match next
          case Some(latest) =>
            var filtered := FilterBody(latest.body);
            lastStory := latest;
            r := Ok(Story(latest.sources, filtered, latest.title, latest.when));
          case None =>
            r := Err(ServerError(NoStoriesFound));
      } else {
        r := Ok(lastStory);
      }
    }
  }

  // ---------------------------------------------------------------------------
  // Properties of one call
  // ---------------------------------------------------------------------------

  /** A cache that was never refreshed always queries, and stamps `now`. */
  lemma NeverRefreshedQueries(st: CacheState, now: int, db: QueryOutcome)
    requires st.lastTime == 0
    ensures ServeAt(st, now, db).queried
    ensures ServeAt(st, now, db).state.lastTime == now
  {
  }

  /**
   * Staleness is exactly "never, or strictly more than an hour": a call within
   * the hour (an hour to the second included) does not query, changes nothing
   * and returns the stored story as it was stored.
   */
  lemma RefreshWindow(st: CacheState, now: int, db: QueryOutcome)
    ensures ServeAt(st, now, db).queried <==> (st.lastTime == 0 || now - st.lastTime > 3600)
    ensures !ServeAt(st, now, db).queried ==>
      ServeAt(st, now, db).state == st && ServeAt(st, now, db).result == Ok(st.lastStory)
    ensures ServeAt(st, now, db).queried ==> ServeAt(st, now, db).state.lastTime == now
  {
  }

  /** Exactly one hour after a refresh is still fresh; one second later is stale. */
  lemma HourBoundary(st: CacheState, db: QueryOutcome)
    requires st.lastTime != 0
    ensures !ServeAt(st, st.lastTime + 3600, db).queried
    ensures ServeAt(st, st.lastTime + 3601, db).queried
  {
  }

  /**
   * A failed refresh (the query errs, or finds no story) returns an error,
   * keeps the new refresh time and leaves the stored story alone.
   */
  lemma FailedRefresh(st: CacheState, now: int, db: QueryOutcome)
    requires IsStale(st.lastTime, now)
    requires db.QueryFailed? || db.latest.None?
    ensures ServeAt(st, now, db).result.Err?
    ensures ServeAt(st, now, db).state == CacheState(now, st.lastStory)
    ensures db.QueryFailed? ==> ServeAt(st, now, db).result == Err(ServerError(db.message))
    ensures db.Streamed? ==> ServeAt(st, now, db).result == Err(ServerError("No stories found"))
  {
  }

  /**
   * A successful refresh stores the story exactly as fetched, and returns it
   * with the same title, sources and time but a filtered body.
   */
  lemma SuccessfulRefresh(st: CacheState, now: int, latest: Story)
    requires IsStale(st.lastTime, now)
    ensures var s := ServeAt(st, now, Streamed(Some(latest)));
      s.state == CacheState(now, latest) && s.result.Ok? &&
      s.result.value.title == latest.title && s.result.value.sources == latest.sources &&
      s.result.value.when == latest.when && s.result.value.body == FilterBody(latest.body) &&
      IsClean(s.result.value.body)
  {
    FilterBodyIsNormalized(latest.body);
    NormalizedIsClean(latest.body);
  }

  // ---------------------------------------------------------------------------
  // Properties of two calls
  // ---------------------------------------------------------------------------

  /**
   * Two calls within the hour after a refresh at a nonzero time query the
   * database once: the second is served the stored raw story, and a successful
   * first call returned that same story with its body filtered.
   */
  lemma SecondCallWithinHour(st: CacheState, t1: int, t2: int, db1: QueryOutcome, db2: QueryOutcome)
    requires t1 != 0 && 0 <= t2 - t1 <= 3600
    requires ServeAt(st, t1, db1).queried
    ensures var first := ServeAt(st, t1, db1);
      var second := ServeAt(first.state, t2, db2);
      !second.queried && second.state == first.state && second.result == Ok(first.state.lastStory) &&
      (first.result.Ok? ==> first.result == Ok(Presented(second.result.value)))
  {
  }

  /**
   * After a failed refresh, later calls within the hour do not retry and are
   * served the story stored before the failure (the default one, if no refresh
   * ever succeeded), although the failing call itself returned an error.
   */
  lemma NoRetryAfterFailure(st: CacheState, t1: int, t2: int, db1: QueryOutcome, db2: QueryOutcome)
    requires t1 != 0 && 0 <= t2 - t1 <= 3600
    requires IsStale(st.lastTime, t1)
    requires db1.QueryFailed? || db1.latest.None?
    ensures var first := ServeAt(st, t1, db1);
      var second := ServeAt(first.state, t2, db2);
      first.result.Err? && !second.queried && second.result == Ok(st.lastStory)
  {
  }

  /** The stored body after a refresh is raw: it is filtered again only when it is not clean. */
  lemma CachedBodyIsRaw(st: CacheState, t1: int, t2: int, latest: Story, db2: QueryOutcome)
    requires t1 != 0 && 0 <= t2 - t1 <= 3600
    requires IsStale(st.lastTime, t1)
    ensures var first := ServeAt(st, t1, Streamed(Some(latest)));
      var second := ServeAt(first.state, t2, db2);
      second.result == Ok(latest) &&
      (first.result == second.result <==> IsClean(latest.body))
  {
    FilterBodyIsNormalized(latest.body);
    NormalizedIsClean(latest.body);
    if IsClean(latest.body) {
      NormalizedOfClean(latest.body);
    }
  }

  /**
   * Of two consecutive calls, the first at a nonzero time, both query only when
   * the second is at least an hour and a second after the first.
   */
  lemma QueriesAreAnHourApart(st: CacheState, t1: int, t2: int, db1: QueryOutcome, db2: QueryOutcome)
    requires t1 != 0
    requires ServeAt(st, t1, db1).queried
    requires ServeAt(ServeAt(st, t1, db1).state, t2, db2).queried
    ensures t2 - t1 > RefreshInterval
  {
  }

  /** One call to `get_story`: the clock reading and the database's answer should it be asked. */
  datatype Call = Call(now: int, db: QueryOutcome)

  /** The times at which a run of calls, starting from `st`, queried the database. */
  function QueryTimes(st: CacheState, calls: seq<Call>): seq<int>
    decreases |calls|
  {
    if calls == [] then []
    else
      var served := ServeAt(st, calls[0].now, calls[0].db);
      (if served.queried then [calls[0].now] else []) + QueryTimes(served.state, calls[1..])
  }

  /** Any two of these times, in order, are more than an hour apart. */
  predicate HourApart(q: seq<int>)
  {
    forall i, j :: 0 <= i < j < |q| ==> q[j] - q[i] > RefreshInterval
  }

  /** Every one of these times is more than an hour after `t`. */
  predicate AllHourAfter(q: seq<int>, t: int)
  {
    forall k :: 0 <= k < |q| ==> q[k] - t > RefreshInterval
  }

  /**
   * However many readers call, the database is asked at most once an hour: in
   * a run of calls at nonzero times, any two queries are more than 3600
   * seconds apart, and every query is more than 3600 seconds after the
   * refresh the run started from (if there was one).
   */
  lemma {:induction false} AtMostOneQueryPerHour(st: CacheState, calls: seq<Call>)
    requires forall i :: 0 <= i < |calls| ==> calls[i].now != 0
    ensures HourApart(QueryTimes(st, calls))
    ensures st.lastTime != 0 ==> AllHourAfter(QueryTimes(st, calls), st.lastTime)
    decreases |calls|
  {
    if calls != [] {
      var now := calls[0].now;
      var served := ServeAt(st, now, calls[0].db);
      var rest := QueryTimes(served.state, calls[1..]);
      assert forall i :: 0 <= i < |calls[1..]| ==> calls[1..][i].now != 0 by {
        forall i | 0 <= i < |calls[1..]| ensures calls[1..][i].now != 0 {
          assert calls[1..][i] == calls[i + 1];
        }
      }
      AtMostOneQueryPerHour(served.state, calls[1..]);
      RefreshWindow(st, now, calls[0].db);
      if served.queried {
        var q := [now] + rest;
        assert QueryTimes(st, calls) == q;
        assert AllHourAfter(rest, now);
        forall i, j | 0 <= i < j < |q| ensures q[j] - q[i] > RefreshInterval {
          assert q[j] == rest[j - 1];
          if i > 0 { assert q[i] == rest[i - 1]; }
        }
        if st.lastTime != 0 {
          forall k | 0 <= k < |q| ensures q[k] - st.lastTime > RefreshInterval {
            if k > 0 { assert q[k] == rest[k - 1]; }
          }
        }
      } else {
        assert served.state == st;
        assert QueryTimes(st, calls) == rest;
      }
    }
  }
}
