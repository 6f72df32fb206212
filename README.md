# TLDA playlist automation — a Dafny model of its decision logic

The program keeps a YouTube playlist up to date with the latest uploads of a
set of channels. A text file lists channel handles. A stored map
(`channels.pickle`) records each handle's channel-wide "uploads" playlist ID
(`UU…`). A stored instant (`time.pickle`) records the last check. One run:

1. resolves the new handles into uploads IDs and writes the map back;
2. rewrites every uploads ID into the ID of its category playlist (`UULF…`
   for videos, `UUSH…` for shorts, `UULV…` for streams) and asks the API
   which of those exist;
3. lists each existing playlist and keeps the items published strictly after
   the last check, then stores the new check time;
4. inserts the videos it found, one by one, at position 0 of one of the
   user's own playlists.

The model keeps this decision logic. What the API answers, what the files
hold and what the clock reads are plain inputs.

- `wrappers.dfy` (`Wrappers`): `Option`, `Result` and `Outcome`.
- `api.dfy` (`Api`): the API data the logic reads.
  - A playlist item: a video ID and a publish instant in whole seconds.
  - A channel lookup: its reported `totalResults` and the uploads IDs of its items.
  - The requests the program issues.
  - The two errors it can raise.
- `helpers.dfy` (`Helpers`): `get_handles`, `validate_playlists` and `my_valid_playlist`.
  - A handle is `line.lower().strip()`. The model has Python's whitespace set and ASCII case folding.
  - The handle list is diffed against the stored map.
  - The playlist IDs are rewritten with the prefix table and `url[2:]`.
  - The ownership check is a linear search with a `break`.
- `tools.dfy` (`Tools`): the `YoutubeTools` class.
  - Four fields: the two data files, the playlists the service holds, and a log of every API request issued.
  - Its methods change those fields as the source does.
  - A Python `for` over a set visits the elements in some order. Each method that loops over a set returns the order it used as a ghost sequence. When the loop runs to the end, that order visits every element exactly once. When the loop stops early at a raising lookup, the order is the prefix visited so far, ending at the failing handle. On the early returns of `get_videos_ids` no playlist is listed, and the contract says nothing about the order.
  - Each method is tied to a specification function, and lemmas state the program's promises about that function.
    - `Resolved`: the map written by `get_upload_playlists`.
    - `Scan`: the IDs collected by `get_videos_ids`.
    - `Reversed` and `FrontInserted`: the playlist after the insertions.

## Model

| member | source | states |
|---|---|---|
| Helpers.Lower | helpers.py:121 | `lower()` keeps the length, turns each upper-case ASCII letter into its lower-case letter (code point + 32) and changes no other character |
| Helpers.Lead | helpers.py:121 | counts exactly the whitespace the line starts with: all counted characters are whitespace and the next is not |
| Helpers.Trail | helpers.py:121 | counts exactly the whitespace the line ends with |
| Helpers.Strip | helpers.py:121 | `strip()` returns the line minus all-whitespace padding on both sides, and the result neither starts nor ends with whitespace |
| Helpers.StripUnique | helpers.py:121 | whatever whitespace surrounds a trimmed string, `strip()` returns that string, so the strip is determined by its result's shape |
| Helpers.Normalize | helpers.py:121 | a handle has no upper-case ASCII letter and no surrounding whitespace |
| Helpers.NormalizeIgnoresPadding | helpers.py:121 | whitespace around a line never changes its handle |
| Helpers.NormalizePlain | helpers.py:121 | a lower-case trimmed line is its own handle |
| Helpers.NormalizeIdempotent | helpers.py:121 | normalising a handle again gives the same handle |
| Helpers.OneHandlePerSpelling | helpers.py:121 | two lines that differ only in ASCII case and surrounding whitespace yield one handle, and the handle set of the two is a singleton |
| Helpers.GetHandles | helpers.py:112-137 | the new handles are exactly the listed handles minus the stored ones; the returned map's keys are the stored keys intersected with the listed handles, with the stored values; the two are disjoint; with no stored file the map is empty and every listed handle is new |
| Helpers.RewriteId | helpers.py:77-79 | a candidate ID is the category prefix followed by the stored ID without its first two characters (empty when shorter) |
| Helpers.CandidateIds | helpers.py:77-79 | the query fails with the unknown-type error exactly when the stored map is non-empty and the type is not "videos", "shorts" or "streams"; with an empty stored map the query holds no ID; otherwise its IDs are exactly the rewritten stored IDs |
| Helpers.ValidatePlaylists | helpers.py:60-87 | fails exactly when the query fails, with the same error; otherwise the validated set is exactly the IDs the API answered with |
| Helpers.ValidatedAreRewrittenIds | helpers.py:77-87 | when the API answers the query faithfully, the validated set is the candidate set intersected with the existing playlists, and each validated ID is the rewrite of some stored uploads ID |
| Helpers.UploadsIdRecoverable | helpers.py:77-79 | the uploads ID `UU…` can be read back from its category playlist ID, so no information is lost by the rewrite |
| Helpers.MyValidPlaylist | helpers.py:90-109 | returns true if and only if the playlist ID is among the IDs of the user's playlist listing |
| Tools.ResolvedFails | youtube_tools.py:42-45 | the run raises (and writes nothing) exactly when some new handle's lookup reports results but carries no item |
| Tools.ResolvedChannels | youtube_tools.py:35-45 | the written map's keys are the still-listed stored handles plus the new handles whose lookup reported results; stored entries keep their values; a new entry holds its lookup's first uploads ID; no unlisted handle is kept |
| Tools.ResolvedNothingNew | youtube_tools.py:29-48 | with no new handle the map written is the stored one without the unlisted handles |
| Tools.ResolvedIdempotent | youtube_tools.py:24-48 | a second run with the same handles and lookups writes the same map again |
| Tools.ResolvedExample | youtube_tools.py:35-45 | for handles {a, b} against the stored map {a: UCx}, only `b` is new, and the map gains `b` with its lookup's uploads ID |
| Tools.YoutubeTools.constructor | youtube_tools.py:20-22 | the object starts from the given files and playlists with no request issued |
| Tools.YoutubeTools.GetUploadPlaylists | youtube_tools.py:24-48 | one lookup per new handle, each exactly once; on success the channel file becomes `Resolved`; with no new handle no lookup is made and the kept map is written; on a raising lookup the file is left as it was, the error names that handle, it is the last handle looked up, and every handle looked up before it was unbroken |
| Tools.YoutubeTools.LookupHandles | youtube_tools.py:35-45 | the loop issues one lookup request per handle it visits and adds exactly the entries `Looked` describes; it stops at the first lookup that raises: the failing handle is the last one looked up and every earlier one was unbroken |
| Tools.NewerFilter | youtube_tools.py:92-99 | an item is kept if and only if it is in the listing and was published strictly after the check time; nothing is added |
| Tools.NewerAppend | youtube_tools.py:92-99 | the filter keeps listing order: filtering a concatenation concatenates the filtered parts |
| Tools.EqualTimeExcluded | youtube_tools.py:92-99 | in any listing, an item published exactly at the check time is not kept |
| Tools.ScanSound | youtube_tools.py:82-99 | every returned ID is the ID of an item of a visited listing published after the check time |
| Tools.ScanComplete | youtube_tools.py:82-99 | every item of a visited listing published after the check time has its ID in the result |
| Tools.YoutubeTools.ScanPlaylists | youtube_tools.py:82-99 | the loop lists every valid playlist exactly once and collects exactly `Scan` over that order, one listing request per playlist |
| Tools.YoutubeTools.GetVideosIds | youtube_tools.py:50-107 | with no channel file: `[]`, no request, check time untouched; an unknown type with stored entries raises, untouched; no validated playlist: `[]` after the one query, check time untouched; otherwise the result is `Scan` over a visiting order of the validated playlists from the stored (or default) time, and the check time becomes the later clock reading whether or not anything was found |
| Tools.ReversedIndex | youtube_tools.py:130-144 | the reversal has the same length and holds element `k` of the batch at position `n-1-k` |
| Tools.FrontInsertedIsReversed | youtube_tools.py:130-144 | inserting a batch at position 0 one by one leaves the batch on top of the old contents, in reverse order |
| Tools.YoutubeTools.InsertAtFront | youtube_tools.py:130-144 | exactly one insertion request per video, each at position 0; the playlist becomes `FrontInserted` of its old contents and the batch (one insertion at a time at position 0); no other playlist changes |
| Tools.YoutubeTools.AddToPlaylist | youtube_tools.py:109-149 | the ownership listing is always requested first; a playlist not the user's, or an empty batch, leaves every playlist unchanged with no insertion; otherwise exactly `len(videos)` insertions at position 0 and the playlist ends as `reverse(videos) ++ P` |

## Left out

- `oauth_initialize` and the client construction in `YoutubeTools.__init__` are not modelled. They are an interactive OAuth flow, a local HTTP server and credential files.
- The googleapiclient calls are not modelled. Each call is an entry in the `requests` log, and its answer is an input:
  - a lookup function per handle;
  - the ID list for the playlist query and for the user's own playlists;
  - a listing function per playlist.
- Network, API and quota errors are not modelled, and neither are malformed responses (missing keys).
- The only raise the model keeps from a response is the one about a lookup that reports results but has no item.
- Every insertion is modelled as succeeding; a failed insertion is not modelled. In the source such a failure raises, keeping the insertions already made and abandoning the later ones.
- Pickle and text-file I/O and the `PATH_*` globals are not modelled. The two data files are the class fields `channelsFile` and `timeFile`, with `None` meaning the file is absent. The handles file is given as its lines.
- Each line of the handles file still carries its newline, as Python reads it; `strip()` removes it with the other whitespace.
- Helpers.Lower: ASCII letters only. Python's `str.lower()` also maps non-ASCII upper-case letters and a few characters to longer strings. Unicode case tables are not part of this model.
- `datetime` is not modelled: no `now`, no `timedelta`, no ISO formatting and no `strptime`. Instants are integer seconds, which is what `replace(microsecond=0)` leaves, and only their ordering is used.
- Tools.YoutubeTools.GetVideosIds: the two clock readings of `get_videos_ids` are the parameters `now` and `doneAt`. They are unrelated to each other and to the listings, so the model says nothing about timing between the calls.
- Helpers.ValidatePlaylists: the comma-joined `id=` string is not modelled; the query is the set of candidate IDs. How the API treats duplicates, empty parts or more than 50 IDs is up to the remote service.
- Tools.YoutubeTools.ScanPlaylists: `maxResults` is recorded in each listing request but not enforced. The listing returned is an input, so limiting it is up to the remote service.
- Helpers.ValidatePlaylists: the channel file is read again inside `validate_playlists`. The model reads the same field that `get_videos_ids` just found to exist.
- app.py is not modelled. It is fixed top-level orchestration that reads the destination playlist file and waits on `input()`.
- `print` output is not modelled. Only `add_to_playlist`'s three outcomes are kept, as the `Status` result; the source itself returns `None` in every case.
