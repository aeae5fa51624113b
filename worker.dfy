/**
 * The data path of handleRequest for GET /matches: the three date keys, and
 * the loop that fetches each day's matches and concatenates them in date
 * order.
 */
module Worker {
  import opened Options
  import opened DateKeys
  import opened Payloads
  import opened Matches
  import opened Sequences

  /** The referer stamped on every stream server and sent to the provider. */
  const Referer := "https://socolivev.co/"

  /** The records of one day, as fetchMatches answers for it. */
  function DayMatches(nowMs: int, up: Upstream): string -> seq<NormalizedMatch> {
    date => MatchesForDate(date, Referer, nowMs, up)
  }

  /** The records of the given days, one day after another. */
  function Aggregate(dates: seq<string>, nowMs: int, up: Upstream): seq<NormalizedMatch> {
    ConcatMap(dates, DayMatches(nowMs, up))
  }

  /** A record is in the answer for some days exactly when it is in the answer for one of them. */
  lemma AggregateMembers(dates: seq<string>, nowMs: int, up: Upstream, m: NormalizedMatch)
    ensures m in Aggregate(dates, nowMs, up)
      <==> exists i :: 0 <= i < |dates| && m in MatchesForDate(dates[i], Referer, nowMs, up)
  {
    ConcatMapMembers(dates, DayMatches(nowMs, up), m);
  }

  /** handleRequest's loop: fetch each day's matches and concatenate them in date order. */
  method FetchDays(dates: seq<string>, nowMs: int, up: Upstream) returns (all: seq<NormalizedMatch>)
    ensures all == Aggregate(dates, nowMs, up)
  {
    all := [];
    for i := 0 to |dates|
      invariant all == Aggregate(dates[..i], nowMs, up)
    {
      var matches := FetchMatches(dates[i], Referer, nowMs, up);
      ConcatMapStep(dates, i, DayMatches(nowMs, up));
      all := all + matches;
    }
    assert dates[..|dates|] == dates;
  }

  /**
   * The data path of handleRequest. None stands for the RangeError formatDate
   * throws outside the Date range, which turns the request into a 500;
   * otherwise the answer holds the records of yesterday, today and tomorrow,
   * in that order.
   */
  method HandleMatches(nowMs: int, up: Upstream) returns (r: Option<seq<NormalizedMatch>>)
    ensures r.None? <==> DateWindow(nowMs).None?
    ensures r.Some? ==> r.value == Aggregate(DateWindow(nowMs).value, nowMs, up)
    ensures r.Some? ==>
      r.value == MatchesForDate(DateWindow(nowMs).value[0], Referer, nowMs, up)
               + MatchesForDate(DateWindow(nowMs).value[1], Referer, nowMs, up)
               + MatchesForDate(DateWindow(nowMs).value[2], Referer, nowMs, up)
  {
    var window := DateWindow(nowMs);
    if window.None? {
      return None;
    }
    var all := FetchDays(window.value, nowMs, up);
    ConcatMapThree(window.value, DayMatches(nowMs, up));
    r := Some(all);
  }
}
