/**
 * The shapes the worker reads from the provider and writes to its caller.
 * JSON.parse and fetch are not modelled; what they would return is supplied
 * through an Upstream value. A field that may be absent or null is an Option.
 */
module Payloads {
  import opened Options

  /** The code field the provider uses for a successful answer. */
  const SuccessCode := 200

  /** The `anchor` object of an anchors entry: the room it broadcasts in. */
  datatype Room = Room(roomNum: string)

  /** An entry of a match's `anchors`; None when the entry has no `anchor` object. */
  datatype AnchorEntry = AnchorEntry(anchor: Option<Room>)

  /** An entry of the day list's `data`, with matchTime in epoch milliseconds. */
  datatype RawMatch = RawMatch(
    hostName: string,
    hostIcon: string,
    guestName: string,
    guestIcon: string,
    matchTime: int,
    homeScore: Option<int>,
    awayScore: Option<int>,
    subCateName: string,
    anchors: Option<seq<AnchorEntry>>)

  /** The parsed day list: {code, data}. */
  datatype MatchList = MatchList(code: int, data: Option<seq<RawMatch>>)

  /** `data.stream` of a room: the standard and high definition playlist URLs. */
  datatype Stream = Stream(m3u8: Option<string>, hdM3u8: Option<string>)

  datatype RoomData = RoomData(stream: Option<Stream>)

  /** The parsed room detail: {code, data: {stream}}. */
  datatype RoomDetail = RoomDetail(code: int, data: Option<RoomData>)

  /**
   * The world outside the worker: the body text fetch(url) resolves to (None
   * when the fetch rejects), and what JSON.parse makes of an envelope's inner
   * text (None when it throws).
   */
  datatype Upstream = Upstream(
    fetch: string -> Option<string>,
    parseMatchList: string -> Option<MatchList>,
    parseRoomDetail: string -> Option<RoomDetail>)

  /** A playable stream: {name, stream_url, referer}. */
  datatype StreamServer = StreamServer(name: string, streamUrl: string, referer: string)

  datatype Status = Live | Finished | Vs {
    /** The match_status text the caller sees. */
    function Name(): string {
      match this
      case Live => "live"
      case Finished => "finished"
      case Vs => "vs"
    }
  }

  /** One element of the worker's answer. */
  datatype NormalizedMatch = NormalizedMatch(
    matchTime: string,
    matchStatus: Status,
    homeTeamName: string,
    homeTeamLogo: string,
    awayTeamName: string,
    awayTeamLogo: string,
    leagueName: string,
    matchScore: Option<string>,
    servers: seq<StreamServer>)
}
