/**
 * The parts of the YouTube Data API v3 that the tool talks to, reduced to
 * plain values: what a response carries that the tool reads, the requests it
 * issues, and the errors that end a run.
 */
module Api {

  /** One entry of a `playlistItems().list` response: the video's ID and its
      `videoPublishedAt` instant, as whole seconds since an epoch. */
  datatype Item = Item(videoId: string, publishedAt: int)

  /** A `channels().list(forHandle = ...)` response: `pageInfo.totalResults`
      and, per returned item, its `contentDetails.relatedPlaylists.uploads` ID. */
  datatype ChannelLookup = ChannelLookup(totalResults: int, uploads: seq<string>)

  /** The API calls the tool issues, in the order it issues them. */
  datatype Request =
    | ChannelForHandle(handle: string)                    // channels().list(part="contentDetails", forHandle=...)
    | PlaylistsById(ids: set<string>)                     // playlists().list(part="id", id=...)
    | PlaylistItemsList(playlistId: string, maxResults: int)  // playlistItems().list(...)
    | MyPlaylists                                         // playlists().list(part="id", mine=True)
    | PlaylistItemInsert(playlistId: string, videoId: string, position: nat)  // playlistItems().insert(...)

  /** The exceptions the modelled code can raise; each one ends the run. */
  datatype Error =
    | UnknownUploadType(kind: string)   // KeyError on the prefix table
    | MissingUploadsItem(handle: string) // IndexError on items[0] of a lookup
}
