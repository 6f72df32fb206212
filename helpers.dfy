/**
 * The decision logic of helpers.py: normalising handle lines, diffing the
 * handle list against the stored handle -> uploads-ID map, rewriting stored
 * uploads IDs into per-category playlist IDs, and the ownership search.
 */
module Helpers {
  import opened Wrappers
  import opened Api

  /** The category -> playlist-ID prefix table. */
  const PlaylistPrefix: map<string, string> :=
    map["videos" := "UULF", "shorts" := "UUSH", "streams" := "UULV"]

  // ---------------------------------------------------------------------
  // Handle normalisation: `line.lower().strip()`
  // ---------------------------------------------------------------------

  /** The characters Python's `str.isspace` accepts, which `strip()` removes. */
  predicate IsSpace(c: char) {
    || '\t' <= c <= '\r'
    || '\U{1C}' <= c <= ' '
    || c == '\U{85}' || c == '\U{A0}' || c == '\U{1680}'
    || '\U{2000}' <= c <= '\U{200A}'
    || c == '\U{2028}' || c == '\U{2029}' || c == '\U{202F}' || c == '\U{205F}' || c == '\U{3000}'
  }

  /** Every character of `s` is whitespace. */
  predicate AllSpace(s: string) {
    forall k :: 0 <= k < |s| ==> IsSpace(s[k])
  }

  /** `s` is `r` with the whitespace `pre` before it and `post` after it. */
  predicate Padded(s: string, pre: string, r: string, post: string) {
    s == pre + r + post && AllSpace(pre) && AllSpace(post)
  }

  predicate IsUpper(c: char) {
    'A' <= c <= 'Z'
  }

  function LowerChar(c: char): char {
    if IsUpper(c) then (c as int + 32) as char else c
  }

  /** `str.lower()` on the ASCII letters. */
  function Lower(s: string): (r: string)
    ensures |r| == |s|
    ensures forall k :: 0 <= k < |r| ==> !IsUpper(r[k])
    ensures forall k :: 0 <= k < |s| && !IsUpper(s[k]) ==> r[k] == s[k]
    ensures forall k :: 0 <= k < |s| && IsUpper(s[k]) ==> r[k] as int == s[k] as int + 32
  {
    seq(|s|, k requires 0 <= k < |s| => LowerChar(s[k]))
  }

  /** A string with no whitespace at either end. */
  predicate Trimmed(r: string) {
    r == [] || (!IsSpace(r[0]) && !IsSpace(r[|r| - 1]))
  }

  /** The number of whitespace characters `s` starts with. */
  function Lead(s: string): (n: nat)
    ensures n <= |s|
    ensures forall k :: 0 <= k < n ==> IsSpace(s[k])
    ensures n < |s| ==> !IsSpace(s[n])
  {
    if s != [] && IsSpace(s[0]) then 1 + Lead(s[1..]) else 0
  }

  /** The number of whitespace characters `s` ends with. */
  function Trail(s: string): (n: nat)
    ensures n <= |s|
    ensures forall k :: |s| - n <= k < |s| ==> IsSpace(s[k])
    ensures n < |s| ==> !IsSpace(s[|s| - 1 - n])
  {
    if s != [] && IsSpace(s[|s| - 1]) then 1 + Trail(s[..|s| - 1]) else 0
  }

  /** `str.strip()`: the middle of `s` once the whitespace at both ends is gone. */
  function Strip(s: string): (r: string)
    ensures exists pre, post :: Padded(s, pre, r, post)
    ensures Trimmed(r)
  {
    var i := Lead(s);
    var t := s[i..];
    var j := |t| - Trail(t);
    StripParts(s, i, t, j);
    t[..j]
  }

  lemma StripParts(s: string, i: nat, t: string, j: nat)
    requires i == Lead(s) && t == s[i..] && j == |t| - Trail(t)
    ensures Padded(s, s[..i], t[..j], t[j..]) && Trimmed(t[..j])
  {
    LeadIsSpace(s);
    TrailIsSpace(t);
    SplitAt(s, i);
    SplitAt(t, j);
    Associative(s[..i], t[..j], t[j..]);
    StripEnds(s, i, t, j);
  }

  lemma LeadIsSpace(s: string)
    ensures AllSpace(s[..Lead(s)])
  {
    var pre := s[..Lead(s)];
    forall k | 0 <= k < |pre| ensures IsSpace(pre[k]) {
      assert pre[k] == s[k];
    }
  }

  lemma TrailIsSpace(t: string)
    ensures AllSpace(t[|t| - Trail(t)..])
  {
    var j := |t| - Trail(t);
    var post := t[j..];
    forall k | 0 <= k < |post| ensures IsSpace(post[k]) {
      assert post[k] == t[j + k];
    }
  }

  lemma StripEnds(s: string, i: nat, t: string, j: nat)
    requires i == Lead(s) && t == s[i..] && j == |t| - Trail(t)
    ensures Trimmed(t[..j])
  {
    var r := t[..j];
    if r != [] {
      assert r[0] == s[i];
      assert r[|r| - 1] == t[|t| - 1 - Trail(t)];
    }
  }

  lemma SplitAt(s: string, i: nat)
    requires i <= |s|
    ensures s == s[..i] + s[i..]
  {
  }

  lemma TailOfAppend<T>(a: seq<T>, b: seq<T>)
    requires a != []
    ensures (a + b)[0] == a[0] && (a + b)[1..] == a[1..] + b
  {
  }

  lemma Associative<T>(a: seq<T>, b: seq<T>, c: seq<T>)
    ensures a + (b + c) == (a + b) + c
  {
  }

  /** Stripping is determined by the padding: whatever whitespace surrounds a
      trimmed string, `strip()` gives back that string. */
  lemma StripUnique(s: string, pre: string, m: string, post: string)
    requires Padded(s, pre, m, post) && Trimmed(m)
    ensures Strip(s) == m
  {
    var i := Lead(s);
    var t := s[i..];
    if m == [] {
      assert AllSpace(s);
      assert i == |s|;
    } else {
      assert s[|pre|] == m[0];
      assert i == |pre|;
      assert t == m + post;
      assert t[|m| - 1] == m[|m| - 1];
      assert Trail(t) == |post|;
    }
  }

  /** The handle a line of the handles file stands for: `line.lower().strip()`. */
  function Normalize(line: string): (h: string)
    ensures forall k :: 0 <= k < |h| ==> !IsUpper(h[k])
    ensures Trimmed(h)
  {
    Strip(Lower(line))
  }

  lemma LowerPadded(pre: string, s: string, post: string)
    requires AllSpace(pre) && AllSpace(post)
    ensures Lower(pre + s + post) == pre + Lower(s) + post
  {
  }

  lemma PaddedNested(x: string, pre: string, t: string, post: string, a: string, m: string, b: string)
    requires Padded(x, pre, t, post) && Padded(t, a, m, b)
    ensures Padded(x, pre + a, m, b + post)
  {
    assert x == (pre + a) + m + (b + post);
    assert AllSpace(pre + a) by {
      forall k | 0 <= k < |pre + a| ensures IsSpace((pre + a)[k]) {
        if k >= |pre| { assert (pre + a)[k] == a[k - |pre|]; }
      }
    }
    assert AllSpace(b + post) by {
      forall k | 0 <= k < |b + post| ensures IsSpace((b + post)[k]) {
        if k >= |b| { assert (b + post)[k] == post[k - |b|]; }
      }
    }
  }

  /** Surrounding whitespace never changes the handle a line stands for. */
  lemma NormalizeIgnoresPadding(pre: string, s: string, post: string)
    requires AllSpace(pre) && AllSpace(post)
    ensures Normalize(pre + s + post) == Normalize(s)
  {
    var t := Lower(s);
    var m := Strip(t);
    var a, b :| Padded(t, a, m, b);
    var x := Lower(pre + s + post);
    LowerPadded(pre, s, post);
    PaddedNested(x, pre, t, post, a, m, b);
    StripUnique(x, pre + a, m, b + post);
  }

  /** A line already in lower case and without surrounding whitespace is its own handle. */
  lemma NormalizePlain(h: string)
    requires Trimmed(h) && forall k :: 0 <= k < |h| ==> !IsUpper(h[k])
    ensures Normalize(h) == h
  {
    assert Lower(h) == h;
    assert h == [] + h + [];
    StripUnique(h, [], h, []);
  }

  /** Normalising a handle again leaves it as it is. */
  lemma NormalizeIdempotent(line: string)
    ensures Normalize(Normalize(line)) == Normalize(line)
  {
    NormalizePlain(Normalize(line));
  }

  /** Two lines that differ only in ASCII case and in the whitespace around
      them stand for one handle. */
  lemma OneHandlePerSpelling(pre1: string, s1: string, post1: string,
                             pre2: string, s2: string, post2: string)
    requires AllSpace(pre1) && AllSpace(post1) && AllSpace(pre2) && AllSpace(post2)
    requires |s1| == |s2| && forall k :: 0 <= k < |s1| ==> LowerChar(s1[k]) == LowerChar(s2[k])
    ensures Normalize(pre1 + s1 + post1) == Normalize(pre2 + s2 + post2)
    ensures Handles([pre1 + s1 + post1, pre2 + s2 + post2]) == {Normalize(s1)}
  {
    NormalizeIgnoresPadding(pre1, s1, post1);
    NormalizeIgnoresPadding(pre2, s2, post2);
    LowerAgrees(s1, s2);
    HandlesOfTwo(pre1 + s1 + post1, pre2 + s2 + post2);
  }

  lemma LowerAgrees(s1: string, s2: string)
    requires |s1| == |s2| && forall k :: 0 <= k < |s1| ==> LowerChar(s1[k]) == LowerChar(s2[k])
    ensures Lower(s1) == Lower(s2)
  {
  }

  lemma HandlesOfTwo(a: string, b: string)
    ensures Handles([a, b]) == {Normalize(a), Normalize(b)}
  {
    ImageOfTwo(Normalize, a, b);
  }

  /** The image of a two-element list under `f`. */
  lemma ImageOfTwo(f: string -> string, a: string, b: string)
    ensures (set x | x in [a, b] :: f(x)) == {f(a), f(b)}
  {
    var h := set x | x in [a, b] :: f(x);
    assert f(a) in h by { assert a in [a, b]; }
    assert f(b) in h by { assert b in [a, b]; }
  }

  // ---------------------------------------------------------------------
  // get_handles: the diff against the stored map
  // ---------------------------------------------------------------------

  /** The handles the handles file lists, one per line. */
  function Handles(lines: seq<string>): set<string> {
    set line | line in lines :: Normalize(line)
  }

  /** The stored handle -> uploads-ID map; an absent file reads as empty. */
  function StoredMap(stored: Option<map<string, string>>): map<string, string> {
    if stored.Some? then stored.value else map[]
  }

  /** The handles of previous runs: the keys of the stored map. */
  function PastHandles(stored: Option<map<string, string>>): set<string> {
    StoredMap(stored).Keys
  }

  /** The handles listed now that no previous run resolved. */
  function NewHandles(handles: set<string>, stored: Option<map<string, string>>): set<string> {
    handles - PastHandles(stored)
  }

  /** The stored entries whose handle is still listed. */
  function KeptChannels(handles: set<string>, stored: Option<map<string, string>>): map<string, string> {
    var m := StoredMap(stored);
    map h | h in m && h in handles :: m[h]
  }

  /**
   * get_handles, with the handles file given as its lines and the channel
   * file as `stored` (None when it does not exist). Returns the handles still
   * to be resolved and the stored map without the handles no longer listed.
   */
  method GetHandles(lines: seq<string>, stored: Option<map<string, string>>)
    returns (youtubers: set<string>, idChannel: map<string, string>)
    ensures youtubers == NewHandles(Handles(lines), stored)
    ensures idChannel == KeptChannels(Handles(lines), stored)
    ensures forall h :: h in youtubers <==> h in Handles(lines) && h !in PastHandles(stored)
    ensures idChannel.Keys == PastHandles(stored) * Handles(lines)
    ensures forall h :: h in idChannel ==> idChannel[h] == StoredMap(stored)[h]
    ensures youtubers !! idChannel.Keys
    ensures stored.None? ==> idChannel == map[] && youtubers == Handles(lines)
  {
    var handles := Handles(lines);
    var handlesPast: set<string> := {};
    idChannel := map[];
    if stored.Some? {
      idChannel := stored.value;
      handlesPast := idChannel.Keys;
    }
    ghost var m := idChannel;
    youtubers := (handles - handlesPast) + (handlesPast - handles);
    var handlesRemove := youtubers * handlesPast;
    var remaining := handlesRemove;
    while remaining != {}
      invariant remaining <= handlesRemove == handlesPast - handles
      invariant youtubers == (handles - handlesPast) + remaining
      invariant idChannel.Keys == (handlesPast * handles) + remaining
      invariant forall h :: h in idChannel ==> idChannel[h] == m[h]
      decreases remaining
    {
      var handle :| handle in remaining;
      idChannel := idChannel - {handle};
      youtubers := youtubers - {handle};
      remaining := remaining - {handle};
    }
  }

  // ---------------------------------------------------------------------
  // validate_playlists: rewriting uploads IDs into category playlist IDs
  // ---------------------------------------------------------------------

  /** `url[2:]`: the ID without its first two characters (empty when shorter). */
  function DropTwo(url: string): string {
    if |url| >= 2 then url[2..] else []
  }

  /** The category playlist ID for a stored uploads ID: `prefix + url[2:]`. */
  function RewriteId(prefix: string, url: string): (id: string)
    ensures |id| == |prefix| + |DropTwo(url)|
    ensures id[..|prefix|] == prefix && id[|prefix|..] == DropTwo(url)
  {
    prefix + DropTwo(url)
  }

  /**
   * The playlist IDs validate_playlists asks the API about. The prefix is
   * looked up once per stored entry, so an unknown category only fails when
   * the stored map has an entry; with an empty map nothing is looked up.
   */
  function CandidateIds(kind: string, ch: map<string, string>): (r: Result<set<string>, Error>)
    ensures r.Failure? <==> ch != map[] && kind !in PlaylistPrefix
    ensures r.Failure? ==> r.error == UnknownUploadType(kind)
    ensures ch == map[] ==> r == Success({})
    ensures r.Success? && ch != map[] ==>
              forall id :: id in r.value <==> exists h :: h in ch && id == RewriteId(PlaylistPrefix[kind], ch[h])
  {
    if ch == map[] then Success({})
    else if kind !in PlaylistPrefix then Failure(UnknownUploadType(kind))
    else
      Success(set h | h in ch :: RewriteId(PlaylistPrefix[kind], ch[h]))
  }

  /**
   * validate_playlists: the candidate IDs of the stored map, then the IDs the
   * `playlists().list(id=...)` call answered with (`response`).
   */
  function ValidatePlaylists(kind: string, ch: map<string, string>, response: seq<string>)
    : (r: Result<set<string>, Error>)
    ensures r.Failure? <==> CandidateIds(kind, ch).Failure?
    ensures r.Failure? ==> r.error == UnknownUploadType(kind)
    ensures r.Success? ==> forall id :: id in r.value <==> id in response
  {
    var candidates := CandidateIds(kind, ch);
    if candidates.Failure? then Failure(candidates.error)
    else Success(set id | id in response)
  }

  /** A `playlists().list(id=...)` response answers its query when it returns
      exactly the requested IDs that name an existing playlist. */
  ghost predicate AnswersQuery(query: set<string>, existing: set<string>, response: seq<string>) {
    forall id :: id in response <==> id in query && id in existing
  }

  /**
   * When the API answers the query, the validated playlists are exactly the
   * existing category playlists of the stored channels, each the stored
   * uploads ID with its first two characters replaced by the prefix.
   */
  lemma ValidatedAreRewrittenIds(kind: string, ch: map<string, string>, existing: set<string>, response: seq<string>)
    requires CandidateIds(kind, ch).Success?
    requires AnswersQuery(CandidateIds(kind, ch).value, existing, response)
    ensures ValidatePlaylists(kind, ch, response).value == CandidateIds(kind, ch).value * existing
    ensures forall id :: id in ValidatePlaylists(kind, ch, response).value ==>
              id in existing && exists h :: h in ch && id == RewriteId(PlaylistPrefix[kind], ch[h])
  {
  }

  /** An uploads ID ("UU" + channel part) can be read back from its category playlist ID. */
  lemma UploadsIdRecoverable(kind: string, url: string)
    requires kind in PlaylistPrefix
    requires |url| >= 2 && url[..2] == "UU"
    ensures "UU" + RewriteId(PlaylistPrefix[kind], url)[4..] == url
  {
    var p := PlaylistPrefix[kind];
    assert |p| == 4;
    assert url == url[..2] + url[2..];
  }

  // ---------------------------------------------------------------------
  // my_valid_playlist: the ownership search
  // ---------------------------------------------------------------------

  /**
   * my_valid_playlist, with `mine` being the IDs of the
   * `playlists().list(mine=True)` response in order: a linear search that
   * stops at the first match.
   */
  method MyValidPlaylist(mine: seq<string>, playlistId: string) returns (found: bool)
    ensures found <==> playlistId in mine
  {
    found := false;
    var i := 0;
    while i < |mine|
      invariant 0 <= i <= |mine|
      invariant !found
      invariant forall k :: 0 <= k < i ==> mine[k] != playlistId
    {
      if mine[i] == playlistId {
        found := true;
        break;
      }
      i := i + 1;
    }
  }
}
