/** The value types of structs.cs that flow through the core. */
module Structs {
  import opened Common

  /** C#'s `ulong`. */
  type ULong = x: int | 0 <= x < 0x1_0000_0000_0000_0000

  /** `StreamGrabRequest`: the filter of one poll of the streams endpoint.
      `first` is a 32-bit `int?` in the source; only the value 100 is ever built. */
  datatype StreamGrabRequest = StreamGrabRequest(
    guild_id: ULong,
    user_ids: Option<seq<string>>,
    user_logins: Option<seq<string>>,
    game_ids: Option<seq<string>>,
    first: Option<int>,
    before: Option<string>,
    after: Option<string>)

  /** `Stream`: one live stream as the streams endpoint reports it. */
  datatype Stream = Stream(
    id: string,
    user_id: string,
    user_login: string,
    user_name: string,
    game_id: string,
    game_name: string,
    kind: string,
    title: string,
    tags: seq<string>,
    viewer_count: int,
    started_at: string,
    language: string,
    thumbnail_url: string,
    is_mature: bool)

  datatype PaginationInfo = PaginationInfo(cursor: Option<string>)

  /** `StreamResponse`: the parsed body of one successful poll. */
  datatype StreamResponse = StreamResponse(data: seq<Stream>, pagination: PaginationInfo)
}
