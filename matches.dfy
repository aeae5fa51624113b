/**
 * fetchMatches: one day's match list, unwrapped from its JSONP envelope,
 * gated on code 200, and turned entry by entry into the caller's shape:
 * kick-off in epoch seconds, a live/finished/vs status against a fixed
 * two-hour window, the score when both sides have one, and the stream
 * servers of live matches.
 */
module Matches {
  import opened Options
  import opened Decimal
  import opened Envelope
  import opened Payloads
  import opened Servers
  import opened Sequences

  /** How long a match counts as live after kick-off, in seconds. */
  const MatchDuration := 2 * 3600

  /** Math.floor(ms / 1000): the whole second a millisecond instant falls in. */
  function Seconds(ms: int): (s: int)
    ensures s * 1000 <= ms < s * 1000 + 1000
  {
    ms / 1000
  }

  /** The status of a match kicking off at second mt, seen at second now. */
  function Classify(now: int, mt: int): (st: Status)
    ensures st == Live <==> mt <= now <= mt + MatchDuration
    ensures st == Finished <==> now > mt + MatchDuration
    ensures st == Vs <==> now < mt
  {
    if now >= mt && now <= mt + MatchDuration then Live
    else if now > mt + MatchDuration then Finished
    else Vs
  }

  /** The match_status text the caller sees names the window the second now falls in. */
  lemma ClassifyText(now: int, mt: int)
    ensures Classify(now, mt).Name() == "live" <==> mt <= now <= mt + MatchDuration
    ensures Classify(now, mt).Name() == "finished" <==> now > mt + MatchDuration
    ensures Classify(now, mt).Name() == "vs" <==> now < mt
  {
  }

  /** Position of a status in a match's life: vs, then live, then finished. */
  function Stage(st: Status): nat {
    match st
    case Vs => 0
    case Live => 1
    case Finished => 2
  }

  /** As time passes a match's status only moves forward: vs, live, finished. */
  lemma StatusNeverReverts(mt: int, t1: int, t2: int)
    requires t1 <= t2
    ensures Stage(Classify(t1, mt)) <= Stage(Classify(t2, mt))
  {
  }

  /** Both ends of the live window are inclusive; one second either side is not live. */
  lemma LiveWindowEdges(mt: int)
    ensures Classify(mt, mt) == Live && Classify(mt + MatchDuration, mt) == Live
    ensures Classify(mt - 1, mt) == Vs && Classify(mt + MatchDuration + 1, mt) == Finished
  {
  }

  /** The index of the first c in s, or |s| when there is none. */
  function IndexOf(s: string, c: char): (i: nat)
    ensures i <= |s| && c !in s[..i] && (i < |s| ==> s[i] == c)
  {
    if s == [] || s[0] == c then 0
    else
      var i := 1 + IndexOf(s[1..], c);
      assert s[..i] == [s[0]] + s[1..][..i - 1];
      i
  }

  /** Reads "<home> - <away>" back into its two scores. */
  function ParseScore(s: string): Option<(int, int)> {
    var i := IndexOf(s, ' ');
    if i + 3 <= |s| && s[i..i + 3] == " - " then
      var home, away := IntValue(s[..i]), IntValue(s[i + 3..]);
      if home.Some? && away.Some? then Some((home.value, away.value)) else None
    else None
  }

  lemma IntToStringHasNoSpace(n: int)
    ensures ' ' !in IntToString(n)
  {
    var s := IntToString(n);
    var d := if n < 0 then Digits(-n) else Digits(n);
    assert s == (if n < 0 then "-" else "") + d;
    assert forall k :: 0 <= k < |d| ==> IsDigit(d[k]);
  }

  /**
   * match_score: "<home> - <away>" when both scores are present, otherwise
   * null; the text reads back as exactly the two scores.
   */
  function ScoreText(home: Option<int>, away: Option<int>): (r: Option<string>)
    ensures r.Some? <==> home.Some? && away.Some?
    ensures r.Some? ==> ParseScore(r.value) == Some((home.value, away.value))
    ensures r.Some? ==> r.value == IntToString(home.value) + " - " + IntToString(away.value)
  {
    if home.Some? && away.Some? then
      var h, a := IntToString(home.value), IntToString(away.value);
      var s := h + " - " + a;
      IntToStringHasNoSpace(home.value);
      IntValueOfIntToString(home.value);
      IntValueOfIntToString(away.value);
      assert s[..|h|] == h && s[|h| + 3..] == a && s[|h|..|h| + 3] == " - ";
      assert forall k :: 0 <= k < |h| ==> s[k] == h[k];
      assert s[|h|] == ' ';
      Some(s)
    else None
  }

  /**
   * The record fetchMatches pushes for entry it, given the servers resolved
   * for it: match_time reads back as the kick-off second, the status is the
   * one of that second, a score only when both sides have one, and the names,
   * icons, league and servers are carried over unchanged.
   */
  function Normalize(it: RawMatch, now: int, servers: seq<StreamServer>): (r: NormalizedMatch)
    ensures r.matchTime == IntToString(Seconds(it.matchTime))
    ensures IntValue(r.matchTime) == Some(Seconds(it.matchTime))
    ensures r.matchStatus == Live <==> Seconds(it.matchTime) <= now <= Seconds(it.matchTime) + MatchDuration
    ensures r.matchScore == ScoreText(it.homeScore, it.awayScore)
    ensures r.matchScore.Some? <==> it.homeScore.Some? && it.awayScore.Some?
    ensures r.homeTeamName == it.hostName && r.homeTeamLogo == it.hostIcon
    ensures r.awayTeamName == it.guestName && r.awayTeamLogo == it.guestIcon
    ensures r.leagueName == it.subCateName && r.servers == servers
  {
    var mt := Seconds(it.matchTime);
    IntValueOfIntToString(mt);
    NormalizedMatch(
      IntToString(mt), Classify(now, mt),
      it.hostName, it.hostIcon, it.guestName, it.guestIcon, it.subCateName,
      ScoreText(it.homeScore, it.awayScore), servers)
  }

  /**
   * The servers of one entry: resolved only for a live match that has an
   * anchors list; None when that resolution rejects.
   */
  function EntryServers(it: RawMatch, now: int, referer: string, up: Upstream): (r: Option<seq<StreamServer>>)
    ensures Classify(now, Seconds(it.matchTime)) != Live || it.anchors.None? ==> r == Some([])
    ensures Classify(now, Seconds(it.matchTime)) == Live && it.anchors.Some? ==>
      r == ServersForAnchors(it.anchors.value, referer, up)
  {
    if Classify(now, Seconds(it.matchTime)) == Live && it.anchors.Some? then
      ServersForAnchors(it.anchors.value, referer, up)
    else Some([])
  }

  /** The loop body for one entry: its record, or None when its servers reject. */
  function EntryRecord(now: int, referer: string, up: Upstream): RawMatch -> Option<NormalizedMatch> {
    it =>
      match EntryServers(it, now, referer, up)
      case None => None
      case Some(servers) => Some(Normalize(it, now, servers))
  }

  /** The records of the entries in order; None as soon as one entry's servers reject. */
  function NormalizeAll(data: seq<RawMatch>, now: int, referer: string, up: Upstream): (r: Option<seq<NormalizedMatch>>)
    ensures r.Some? ==> |r.value| == |data|
  {
    var r := Traverse(data, EntryRecord(now, referer, up));
    if r.Some? then TraverseShape(data, EntryRecord(now, referer, up)); r else r
  }

  function MatchesUrl(date: string): string {
    "https://json.vnres.co/match/matches_" + date + ".json"
  }

  /**
   * js.data of a day: present when the fetch resolves, the matches_<digits>(...)
   * envelope is found, its text parses, code is 200 and data exists.
   */
  function DayList(date: string, up: Upstream): (r: Option<seq<RawMatch>>)
    ensures r.Some? <==>
      up.fetch(MatchesUrl(date)).Some?
      && Extract(up.fetch(MatchesUrl(date)).value, MatchesCall).Some?
      && var js := up.parseMatchList(Extract(up.fetch(MatchesUrl(date)).value, MatchesCall).value);
         js.Some? && js.value.code == SuccessCode && js.value.data.Some?
    ensures r.Some? ==>
      r == up.parseMatchList(Extract(up.fetch(MatchesUrl(date)).value, MatchesCall).value).value.data
  {
    match up.fetch(MatchesUrl(date))
    case None => None
    case Some(txt) =>
      match Extract(txt, MatchesCall)
      case None => None
      case Some(inner) =>
        match up.parseMatchList(inner)
        case None => None
        case Some(js) => if js.code != SuccessCode then None else js.data
  }

  /**
   * fetchMatches(date, referer, agent): every failure is caught and yields [],
   * so a day is all or nothing: no records, or one per entry of its list.
   */
  function MatchesForDate(date: string, referer: string, nowMs: int, up: Upstream): (r: seq<NormalizedMatch>)
    ensures DayList(date, up).None? ==> r == []
    ensures DayList(date, up).Some? && NormalizeAll(DayList(date, up).value, Seconds(nowMs), referer, up).None? ==> r == []
    ensures r != [] ==> DayList(date, up).Some? && |r| == |DayList(date, up).value|
  {
    match DayList(date, up)
    case None => []
    case Some(data) =>
      match NormalizeAll(data, Seconds(nowMs), referer, up)
      case None => []
      case Some(records) => records
  }

  /** The list rejects exactly when some entry's servers do. */
  lemma NormalizeAllRejects(data: seq<RawMatch>, now: int, referer: string, up: Upstream)
    ensures NormalizeAll(data, now, referer, up).None?
      <==> exists i :: 0 <= i < |data| && EntryServers(data[i], now, referer, up).None?
  {
    TraverseRejects(data, EntryRecord(now, referer, up));
  }

  /**
   * One record per entry, in input order, each the normalisation of its
   * entry with that entry's resolved servers.
   */
  lemma NormalizeAllShape(data: seq<RawMatch>, now: int, referer: string, up: Upstream)
    requires NormalizeAll(data, now, referer, up).Some?
    ensures var r := NormalizeAll(data, now, referer, up).value;
      |r| == |data|
      && forall i :: 0 <= i < |data| ==>
           EntryServers(data[i], now, referer, up).Some?
           && r[i] == Normalize(data[i], now, EntryServers(data[i], now, referer, up).value)
  {
    TraverseShape(data, EntryRecord(now, referer, up));
  }

  /** Every record's match_time reads back as the floor of its entry's kick-off in seconds. */
  lemma NormalizeMatchTime(it: RawMatch, now: int, servers: seq<StreamServer>)
    ensures var mt := IntValue(Normalize(it, now, servers).matchTime);
      mt.Some? && mt.value * 1000 <= it.matchTime < mt.value * 1000 + 1000
      && Normalize(it, now, servers).matchTime == IntToString(mt.value)
  {
    IntValueOfIntToString(Seconds(it.matchTime));
  }

  /**
   * The records of a list that resolved: one per entry, in order, each with
   * its entry's status, score and names; a match that is not live, or that
   * has no anchors list, never carries servers.
   */
  lemma NormalizeAllRecords(data: seq<RawMatch>, now: int, referer: string, up: Upstream)
    requires NormalizeAll(data, now, referer, up).Some?
    ensures var records := NormalizeAll(data, now, referer, up).value;
      |records| == |data|
      && forall i :: 0 <= i < |records| ==>
           var it := data[i];
           records[i].matchStatus == Classify(now, Seconds(it.matchTime))
           && records[i].matchScore == ScoreText(it.homeScore, it.awayScore)
           && (records[i].matchStatus != Live || it.anchors.None? ==> records[i].servers == [])
           && records[i].homeTeamName == it.hostName && records[i].awayTeamName == it.guestName
           && records[i].leagueName == it.subCateName
  {
    NormalizeAllShape(data, now, referer, up);
  }

  /**
   * What the caller receives for a day: no records when the day list cannot
   * be had, and otherwise the records of its entries, none of them carrying
   * servers unless live.
   */
  lemma MatchesForDateRecords(date: string, referer: string, nowMs: int, up: Upstream)
    ensures DayList(date, up).None? ==> MatchesForDate(date, referer, nowMs, up) == []
    ensures forall r :: r in MatchesForDate(date, referer, nowMs, up) ==>
      r.matchStatus != Live ==> r.servers == []
    ensures var data, now := DayList(date, up), Seconds(nowMs);
      data.Some? && (forall i :: 0 <= i < |data.value| ==> EntryServers(data.value[i], now, referer, up).Some?) ==>
        var records := MatchesForDate(date, referer, nowMs, up);
        |records| == |data.value|
        && forall i :: 0 <= i < |records| ==>
             records[i] == Normalize(data.value[i], now, EntryServers(data.value[i], now, referer, up).value)
  {
    var data := DayList(date, up);
    if data.Some? {
      NormalizeAllRejects(data.value, Seconds(nowMs), referer, up);
    }
    if data.Some? && NormalizeAll(data.value, Seconds(nowMs), referer, up).Some? {
      var records := NormalizeAll(data.value, Seconds(nowMs), referer, up).value;
      NormalizeAllRecords(data.value, Seconds(nowMs), referer, up);
      NormalizeAllShape(data.value, Seconds(nowMs), referer, up);
      forall r | r in records
        ensures r.matchStatus != Live ==> r.servers == []
      {
        var i :| 0 <= i < |records| && records[i] == r;
      }
    }
  }

  /** fetchMatches itself: the gates, then the loop that pushes one record per entry. */
  method FetchMatches(date: string, referer: string, nowMs: int, up: Upstream) returns (results: seq<NormalizedMatch>)
    ensures results == MatchesForDate(date, referer, nowMs, up)
  {
    var txt := up.fetch(MatchesUrl(date));
    if txt.None? {
      return [];
    }
    var m := Extract(txt.value, MatchesCall);
    if m.None? {
      return [];
    }
    var js := up.parseMatchList(m.value);
    if js.None? || js.value.code != SuccessCode || js.value.data.None? {
      return [];
    }
    var data := js.value.data.value;
    var now := Seconds(nowMs);
    results := [];
    for i := 0 to |data|
      invariant NormalizeAll(data[..i], now, referer, up) == Some(results)
    {
      var it := data[i];
      var mt := Seconds(it.matchTime);
      var status := Classify(now, mt);
      var score := ScoreText(it.homeScore, it.awayScore);
      var servers: seq<StreamServer> := [];
      TraverseStep(data, i, EntryRecord(now, referer, up));
      if status == Live && it.anchors.Some? {
        var resolved := FetchServerURLs(it.anchors.value, referer, up);
        if resolved.None? {
          TraverseRejectsFrom(data, i + 1, EntryRecord(now, referer, up));
          return [];
        }
        servers := resolved.value;
      }
      results := results + [NormalizedMatch(IntToString(mt), status, it.hostName, it.hostIcon,
                                            it.guestName, it.guestIcon, it.subCateName, score, servers)];
    }
    assert data[..|data|] == data;
  }
}
