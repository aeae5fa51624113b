/**
 * fetchServerURLs: the stream servers of a live match, resolved room by room
 * from the provider's detail.json and flattened in anchor order.
 */
module Servers {
  import opened Options
  import opened Envelope
  import opened Payloads
  import opened Sequences

  const SdName := "Soco SD"
  const HdName := "Soco HD"

  function DetailUrl(room: Room): string {
    "https://json.vnres.co/room/" + room.roomNum + "/detail.json"
  }

  /** JavaScript truthiness of a field holding a string, or nothing. */
  predicate Truthy(v: Option<string>) {
    v.Some? && v.value != ""
  }

  /**
   * js.data.stream of a room, when the fetch resolves, the detail envelope is
   * found, its text parses, code is 200 and both data and data.stream exist.
   * Every other outcome ends the anchor's attempt with no servers: the early
   * exits fall through to `return []`, and the TypeErrors that reading a
   * missing data or stream raises are caught by the anchor's own try.
   */
  function RoomStream(room: Room, up: Upstream): (r: Option<Stream>)
    ensures r.Some? <==>
      up.fetch(DetailUrl(room)).Some?
      && Extract(up.fetch(DetailUrl(room)).value, DetailCall).Some?
      && var js := up.parseRoomDetail(Extract(up.fetch(DetailUrl(room)).value, DetailCall).value);
         js.Some? && js.value.code == SuccessCode && js.value.data.Some? && js.value.data.value.stream.Some?
    ensures r.Some? ==>
      var js := up.parseRoomDetail(Extract(up.fetch(DetailUrl(room)).value, DetailCall).value);
      r == js.value.data.value.stream
  {
    match up.fetch(DetailUrl(room))
    case None => None
    case Some(txt) =>
      match Extract(txt, DetailCall)
      case None => None
      case Some(inner) =>
        match up.parseRoomDetail(inner)
        case None => None
        case Some(js) =>
          if js.code != SuccessCode || js.data.None? then None else js.data.value.stream
  }

  /** The servers a room's stream offers: SD for a truthy m3u8, then HD for a truthy hdM3u8. */
  function StreamServers(st: Stream, referer: string): (r: seq<StreamServer>)
    ensures |r| <= 2
    ensures forall srv :: srv in r ==> srv.referer == referer
  {
    (if Truthy(st.m3u8) then [StreamServer(SdName, st.m3u8.value, referer)] else [])
    + (if Truthy(st.hdM3u8) then [StreamServer(HdName, st.hdM3u8.value, referer)] else [])
  }

  /**
   * What one stream's list looks like: at most two servers, all stamped with
   * the referer; "Soco SD" exactly when m3u8 is truthy, carrying it, and
   * "Soco HD" exactly when hdM3u8 is truthy, carrying it; SD first.
   */
  lemma StreamServersShape(st: Stream, referer: string)
    ensures var r := StreamServers(st, referer);
      |r| <= 2
      && (forall srv :: srv in r ==> srv.referer == referer && (srv.name == SdName || srv.name == HdName))
      && ((exists srv :: srv in r && srv.name == SdName) <==> Truthy(st.m3u8))
      && ((exists srv :: srv in r && srv.name == HdName) <==> Truthy(st.hdM3u8))
      && (forall srv :: srv in r && srv.name == SdName ==> srv.streamUrl == st.m3u8.value)
      && (forall srv :: srv in r && srv.name == HdName ==> srv.streamUrl == st.hdM3u8.value)
      && (forall i, j :: 0 <= i < j < |r| ==> r[i].name == SdName && r[j].name == HdName)
  {
    var r := StreamServers(st, referer);
    if Truthy(st.m3u8) {
      assert r[0] in r;
    }
    if Truthy(st.hdM3u8) {
      assert r[|r| - 1] in r;
    }
  }

  /** A stream with only hdM3u8 yields exactly one server, "Soco HD". */
  lemma OnlyHighDefinition(st: Stream, referer: string)
    requires !Truthy(st.m3u8) && Truthy(st.hdM3u8)
    ensures StreamServers(st, referer) == [StreamServer(HdName, st.hdM3u8.value, referer)]
  {
  }

  /**
   * The servers one anchor contributes: those of its room's stream, or none
   * when the room's detail cannot be had.
   */
  function AnchorServers(room: Room, referer: string, up: Upstream): (r: seq<StreamServer>)
    ensures RoomStream(room, up).None? ==> r == []
    ensures RoomStream(room, up).Some? ==> r == StreamServers(RoomStream(room, up).value, referer)
    ensures |r| <= 2
  {
    match RoomStream(room, up)
    case None => []
    case Some(st) => StreamServers(st, referer)
  }

  /** The body of the per-anchor callback: push SD, then HD, into a fresh list. */
  method ResolveAnchor(room: Room, referer: string, up: Upstream) returns (servers: seq<StreamServer>)
    ensures servers == AnchorServers(room, referer, up)
  {
    servers := [];
    var stream := RoomStream(room, up);
    if stream.Some? {
      var s := stream.value;
      if Truthy(s.m3u8) {
        servers := servers + [StreamServer(SdName, s.m3u8.value, referer)];
      }
      if Truthy(s.hdM3u8) {
        servers := servers + [StreamServer(HdName, s.hdM3u8.value, referer)];
      }
    }
  }

  /** Reading `a.anchor` of an anchors entry; None is the TypeError of a missing object. */
  function EntryRoom(entry: AnchorEntry): Option<Room> {
    entry.anchor
  }

  /** The per-anchor callback as a function of the room. */
  function RoomServers(referer: string, up: Upstream): Room -> seq<StreamServer> {
    room => AnchorServers(room, referer, up)
  }

  /**
   * fetchServerURLs(anchors, referer): the anchors' lists flattened in anchor
   * order. An entry without an `anchor` object makes its callback throw
   * before its try, so Promise.all rejects: None.
   */
  function ServersForAnchors(anchors: seq<AnchorEntry>, referer: string, up: Upstream): (r: Option<seq<StreamServer>>)
    ensures anchors == [] ==> r == Some([])
    ensures r.Some? ==> |r.value| <= 2 * |anchors|
  {
    match Traverse(anchors, EntryRoom)
    case None => None
    case Some(rooms) =>
      TraverseShape(anchors, EntryRoom);
      ConcatMapBound(rooms, RoomServers(referer, up), 2);
      Some(ConcatMap(rooms, RoomServers(referer, up)))
  }

  /** The resolution rejects exactly when some entry lacks its `anchor` object. */
  lemma ServersForAnchorsRejects(anchors: seq<AnchorEntry>, referer: string, up: Upstream)
    ensures ServersForAnchors(anchors, referer, up).None? <==> exists i :: 0 <= i < |anchors| && anchors[i].anchor.None?
  {
    TraverseRejects(anchors, EntryRoom);
  }

  /**
   * A resolved list is the rooms' lists in anchor order: each server comes
   * from the room of some entry, and each room's servers are all there.
   */
  lemma ServersForAnchorsMembers(anchors: seq<AnchorEntry>, referer: string, up: Upstream, srv: StreamServer)
    requires ServersForAnchors(anchors, referer, up).Some?
    ensures srv in ServersForAnchors(anchors, referer, up).value
      <==> exists i :: 0 <= i < |anchors| && anchors[i].anchor.Some? && srv in AnchorServers(anchors[i].anchor.value, referer, up)
  {
    var rooms := Traverse(anchors, EntryRoom).value;
    TraverseShape(anchors, EntryRoom);
    ConcatMapMembers(rooms, RoomServers(referer, up), srv);
    if exists i :: 0 <= i < |anchors| && anchors[i].anchor.Some? && srv in AnchorServers(anchors[i].anchor.value, referer, up) {
      var i :| 0 <= i < |anchors| && anchors[i].anchor.Some? && srv in AnchorServers(anchors[i].anchor.value, referer, up);
      assert rooms[i] == anchors[i].anchor.value;
    }
  }

  /** Flattening keeps anchor order: the servers of a + b are those of a, then those of b. */
  lemma ServersForAnchorsAppend(a: seq<AnchorEntry>, b: seq<AnchorEntry>, referer: string, up: Upstream)
    ensures var ra, rb := ServersForAnchors(a, referer, up), ServersForAnchors(b, referer, up);
      ServersForAnchors(a + b, referer, up) == if ra.None? || rb.None? then None else Some(ra.value + rb.value)
  {
    TraverseAppend(a, b, EntryRoom);
    var ta, tb := Traverse(a, EntryRoom), Traverse(b, EntryRoom);
    if ta.Some? && tb.Some? {
      ConcatMapAppend(ta.value, tb.value, RoomServers(referer, up));
    }
  }

  /** Every resolved server carries the referer and one of the two names. */
  lemma ServersForAnchorsStamped(anchors: seq<AnchorEntry>, referer: string, up: Upstream)
    requires ServersForAnchors(anchors, referer, up).Some?
    ensures forall srv :: srv in ServersForAnchors(anchors, referer, up).value ==>
      srv.referer == referer && (srv.name == SdName || srv.name == HdName)
  {
    forall srv | srv in ServersForAnchors(anchors, referer, up).value
      ensures srv.referer == referer && (srv.name == SdName || srv.name == HdName)
    {
      ServersForAnchorsMembers(anchors, referer, up, srv);
      var i :| 0 <= i < |anchors| && anchors[i].anchor.Some? && srv in AnchorServers(anchors[i].anchor.value, referer, up);
      var st := RoomStream(anchors[i].anchor.value, up);
      StreamServersShape(st.value, referer);
    }
  }

  /** fetchServerURLs with Promise.all's fan-out taken one anchor after another. */
  method FetchServerURLs(anchors: seq<AnchorEntry>, referer: string, up: Upstream) returns (r: Option<seq<StreamServer>>)
    ensures r == ServersForAnchors(anchors, referer, up)
  {
    var all: seq<StreamServer> := [];
    ghost var rooms: seq<Room> := [];
    for i := 0 to |anchors|
      invariant Traverse(anchors[..i], EntryRoom) == Some(rooms)
      invariant all == ConcatMap(rooms, RoomServers(referer, up))
    {
      TraverseStep(anchors, i, EntryRoom);
      if anchors[i].anchor.None? {
        TraverseRejectsFrom(anchors, i + 1, EntryRoom);
        return None;
      }
      var room := anchors[i].anchor.value;
      var servers := ResolveAnchor(room, referer, up);
      ConcatMapStep(rooms + [room], |rooms|, RoomServers(referer, up));
      assert (rooms + [room])[..|rooms|] == rooms;
      rooms := rooms + [room];
      all := all + servers;
    }
    assert anchors[..|anchors|] == anchors;
    r := Some(all);
  }
}
