/**
 * The decision logic of youtube_tools.py. The `YoutubeTools` class carries
 * the state its methods change: the two data files, the contents of the
 * account's playlists on the service, and the log of API requests issued.
 * What the API answers is passed in: a lookup function per handle, the
 * listing of each playlist, the IDs the playlist queries return.
 */
module Tools {
  import opened Wrappers
  import opened Api
  import opened Helpers

  /** The look-back used when no check time is stored: one day, in seconds. */
  const OneDay: int := 86400

  // ---------------------------------------------------------------------
  // Iterating over a set
  // ---------------------------------------------------------------------

  predicate Distinct(s: seq<string>) {
    forall i, j :: 0 <= i < j < |s| ==> s[i] != s[j]
  }

  /** `order` visits every element of `elems` exactly once, as a `for` loop
      over a Python set does, in an order the model leaves open. */
  ghost predicate IsOrderingOf(order: seq<string>, elems: set<string>) {
    Distinct(order) && forall x :: x in order <==> x in elems
  }

  // ---------------------------------------------------------------------
  // get_upload_playlists
  // ---------------------------------------------------------------------

  /** A lookup that reports results but carries no item, so `items[0]` raises. */
  predicate Broken(c: ChannelLookup) {
    c.totalResults > 0 && |c.uploads| == 0
  }

  /** The entries the lookups of `handles` contribute: the uploads ID of every
      handle whose lookup reports at least one result. */
  function Looked(handles: set<string>, lookup: string -> ChannelLookup): map<string, string> {
    map h | h in handles && lookup(h).totalResults > 0 && |lookup(h).uploads| > 0 :: lookup(h).uploads[0]
  }

  /**
   * The channel map get_upload_playlists writes for the listed `handles`
   * and the stored map `stored`, or None when a lookup raises (and nothing
   * is written).
   */
  function Resolved(handles: set<string>, stored: Option<map<string, string>>, lookup: string -> ChannelLookup)
    : Option<map<string, string>>
  {
    var newOnes := NewHandles(handles, stored);
    if exists h :: h in newOnes && Broken(lookup(h)) then None
    else Some(KeptChannels(handles, stored) + Looked(newOnes, lookup))
  }

  lemma ResolvedUnbroken(handles: set<string>, stored: Option<map<string, string>>, lookup: string -> ChannelLookup)
    requires forall h :: h in NewHandles(handles, stored) ==> !Broken(lookup(h))
    ensures Resolved(handles, stored, lookup) == Some(KeptChannels(handles, stored) + Looked(NewHandles(handles, stored), lookup))
  {
  }

  lemma ResolvedBrokenAt(handles: set<string>, stored: Option<map<string, string>>, lookup: string -> ChannelLookup, h: string)
    requires h in NewHandles(handles, stored) && Broken(lookup(h))
    ensures Resolved(handles, stored, lookup) == None
  {
  }

  lemma LookedStep(done: set<string>, c: string, lookup: string -> ChannelLookup, kept: map<string, string>)
    requires c !in done
    ensures lookup(c).totalResults > 0 && |lookup(c).uploads| > 0 ==>
              kept + Looked(done + {c}, lookup) == (kept + Looked(done, lookup))[c := lookup(c).uploads[0]]
    ensures !(lookup(c).totalResults > 0) ==>
              kept + Looked(done + {c}, lookup) == kept + Looked(done, lookup)
  {
    if lookup(c).totalResults > 0 && |lookup(c).uploads| > 0 {
      assert Looked(done + {c}, lookup) == Looked(done, lookup)[c := lookup(c).uploads[0]];
    } else if !(lookup(c).totalResults > 0) {
      assert Looked(done + {c}, lookup) == Looked(done, lookup);
    }
  }

  /** The resolver fails exactly when some new handle's lookup is broken. */
  lemma ResolvedFails(handles: set<string>, stored: Option<map<string, string>>, lookup: string -> ChannelLookup)
    ensures Resolved(handles, stored, lookup).None? <==>
              exists h :: h in handles && h !in PastHandles(stored) && Broken(lookup(h))
  {
  }

  /**
   * The map written holds the stored entries whose handle is still listed,
   * with their stored values, plus one entry for each new handle whose lookup
   * reported results, with the uploads ID of its first item; it never holds a
   * handle the file no longer lists.
   */
  lemma ResolvedChannels(handles: set<string>, stored: Option<map<string, string>>, lookup: string -> ChannelLookup)
    requires Resolved(handles, stored, lookup).Some?
    ensures Resolved(handles, stored, lookup).value.Keys ==
              (PastHandles(stored) * handles)
              + (set h | h in NewHandles(handles, stored) && lookup(h).totalResults > 0)
    ensures forall h :: h in Resolved(handles, stored, lookup).value && h in PastHandles(stored) ==>
              Resolved(handles, stored, lookup).value[h] == StoredMap(stored)[h]
    ensures forall h :: h in Resolved(handles, stored, lookup).value && h !in PastHandles(stored) ==>
              lookup(h).totalResults > 0 && |lookup(h).uploads| > 0 &&
              Resolved(handles, stored, lookup).value[h] == lookup(h).uploads[0]
    ensures Resolved(handles, stored, lookup).value.Keys <= handles
  {
    var newOnes := NewHandles(handles, stored);
    var m := Resolved(handles, stored, lookup).value;
    assert forall h :: h in newOnes && lookup(h).totalResults > 0 ==> !Broken(lookup(h));
    assert m == KeptChannels(handles, stored) + Looked(newOnes, lookup);
  }

  /** With no new handle the map written is the stored one without the
      handles no longer listed. */
  lemma ResolvedNothingNew(handles: set<string>, stored: Option<map<string, string>>, lookup: string -> ChannelLookup)
    requires NewHandles(handles, stored) == {}
    ensures Resolved(handles, stored, lookup) == Some(KeptChannels(handles, stored))
  {
    assert Looked({}, lookup) == map[];
    assert KeptChannels(handles, stored) + map[] == KeptChannels(handles, stored);
  }

  /** Running the resolver again on the map it wrote, with the same handles
      file and the same lookups, writes that map again. */
  lemma ResolvedIdempotent(handles: set<string>, stored: Option<map<string, string>>, lookup: string -> ChannelLookup)
    requires Resolved(handles, stored, lookup).Some?
    ensures Resolved(handles, Resolved(handles, stored, lookup), lookup) == Resolved(handles, stored, lookup)
  {
    var m := Resolved(handles, stored, lookup).value;
    ResolvedChannels(handles, stored, lookup);
    var again := NewHandles(handles, Some(m));
    assert forall h :: h in again ==> lookup(h).totalResults <= 0;
    assert !exists h :: h in again && Broken(lookup(h));
    assert Looked(again, lookup) == map[];
    assert KeptChannels(handles, Some(m)) == m;
    assert KeptChannels(handles, Some(m)) + map[] == m;
  }

  /** The handles `a` and `b` against the stored map {a: "UCx"}: only `b` is
      new, and the map written gains `b` with its lookup's uploads ID. */
  lemma ResolvedExample(lookup: string -> ChannelLookup, uploads: string)
    requires lookup("b") == ChannelLookup(1, [uploads])
    ensures NewHandles({"a", "b"}, Some(map["a" := "UCx"])) == {"b"}
    ensures Resolved({"a", "b"}, Some(map["a" := "UCx"]), lookup) == Some(map["a" := "UCx", "b" := uploads])
  {
    var handles, stored := {"a", "b"}, Some(map["a" := "UCx"]);
    assert "a" != "b" by { assert "a"[0] != "b"[0]; }
    assert NewHandles(handles, stored) == {"b"};
    ResolvedUnbroken(handles, stored, lookup);
    assert Looked({"b"}, lookup) == map["b" := uploads];
    assert KeptChannels(handles, stored) == map["a" := "UCx"];
    assert map["a" := "UCx"] + map["b" := uploads] == map["a" := "UCx", "b" := uploads];
  }

  /** The lookup loop stopped at `h`: it is the last handle looked up, and
      every handle looked up before it was unbroken. */
  predicate StoppedAt(order: seq<string>, h: string, lookup: string -> ChannelLookup) {
    && order != [] && order[|order| - 1] == h
    && forall k :: 0 <= k < |order| - 1 ==> !Broken(lookup(order[k]))
  }

  /** The requests the resolver loop issues, one lookup per handle of `order`. */
  function Lookups(order: seq<string>): seq<Request> {
    seq(|order|, i requires 0 <= i < |order| => ChannelForHandle(order[i]))
  }

  lemma LookupsSnoc(order: seq<string>, h: string)
    ensures Lookups(order + [h]) == Lookups(order) + [ChannelForHandle(h)]
  {
  }

  /** Iterating over an empty set visits nothing. */
  lemma NothingToVisit(order: seq<string>, elems: set<string>)
    requires forall x :: x in order ==> x in elems
    ensures elems == {} ==> order == []
  {
    if order != [] {
      assert order[0] in elems;
    }
  }

  /** One more step of a set iteration: `h` taken out of `remaining`. */
  lemma OrderStep(order: seq<string>, elems: set<string>, remaining: set<string>, h: string)
    requires remaining <= elems && h in remaining
    requires Distinct(order) && forall x :: x in order <==> x in elems && x !in remaining
    ensures Distinct(order + [h])
    ensures forall x :: x in order + [h] <==> x in elems && x !in remaining - {h}
    ensures elems - (remaining - {h}) == (elems - remaining) + {h}
  {
  }

  // ---------------------------------------------------------------------
  // get_videos_ids
  // ---------------------------------------------------------------------

  /** The check time the scan compares against: the stored one, or one day
      before `now` when none is stored. */
  function StartTime(stored: Option<int>, now: int): int {
    if stored.Some? then stored.value else now - OneDay
  }

  /** The items of a listing published strictly after `since`, in listing order. */
  function Newer(items: seq<Item>, since: int): seq<Item> {
    if items == [] then []
    else (if items[0].publishedAt > since then [items[0]] else []) + Newer(items[1..], since)
  }

  /** The filter keeps exactly the items published strictly after `since`,
      and never adds any. */
  lemma {:induction false} NewerFilter(items: seq<Item>, since: int)
    ensures |Newer(items, since)| <= |items|
    ensures forall it :: it in Newer(items, since) <==> it in items && it.publishedAt > since
  {
    if items != [] {
      NewerFilter(items[1..], since);
      assert items == [items[0]] + items[1..];
      forall it ensures it in items <==> it == items[0] || it in items[1..] {
      }
    }
  }

  /** Filtering keeps the listing's order: filtering a concatenation is the
      concatenation of the filtered parts. */
  lemma {:induction false} NewerAppend(a: seq<Item>, b: seq<Item>, since: int)
    ensures Newer(a + b, since) == Newer(a, since) + Newer(b, since)
  {
    if a != [] {
      var head := if a[0].publishedAt > since then [a[0]] else [];
      NewerAppendHead(a, b, since);
      NewerAppend(a[1..], b, since);
      Associative(head, Newer(a[1..], since), Newer(b, since));
    } else {
      assert a + b == b;
    }
  }

  lemma NewerAppendHead(a: seq<Item>, b: seq<Item>, since: int)
    requires a != []
    ensures Newer(a + b, since) == (if a[0].publishedAt > since then [a[0]] else []) + Newer(a[1..] + b, since)
  {
    TailOfAppend(a, b);
  }

  /** An item published exactly at the check time is not new. */
  lemma {:induction false} EqualTimeExcluded(items: seq<Item>, it: Item, since: int)
    requires it.publishedAt == since
    ensures it !in Newer(items, since)
  {
    if items != [] {
      EqualTimeExcluded(items[1..], it, since);
    }
  }

  function Ids(items: seq<Item>): seq<string> {
    seq(|items|, i requires 0 <= i < |items| => items[i].videoId)
  }

  /** The IDs the scan collects over the playlists of `order`, visited in that
      order: each listing's new items, in listing order. */
  function Scan(order: seq<string>, listing: string -> seq<Item>, since: int): seq<string> {
    if order == [] then []
    else Scan(order[..|order| - 1], listing, since) + Ids(Newer(listing(order[|order| - 1]), since))
  }

  /** Every ID the scan returns is the ID of an item of a scanned listing
      published after the check time. */
  lemma {:induction false} ScanSound(order: seq<string>, listing: string -> seq<Item>, since: int, v: string)
    requires v in Scan(order, listing, since)
    ensures exists p, it :: p in order && it in listing(p) && it.publishedAt > since && it.videoId == v
  {
    var n := |order| - 1;
    var init := order[..n];
    if v in Scan(init, listing, since) {
      ScanSound(init, listing, since, v);
      var p, it :| p in init && it in listing(p) && it.publishedAt > since && it.videoId == v;
      assert p in order;
    } else {
      var newOnes := Newer(listing(order[n]), since);
      NewerFilter(listing(order[n]), since);
      var k :| 0 <= k < |Ids(newOnes)| && Ids(newOnes)[k] == v;
      assert newOnes[k] in newOnes;
    }
  }

  /** Every item of a scanned listing published after the check time has its
      ID in the result. */
  lemma {:induction false} ScanComplete(order: seq<string>, listing: string -> seq<Item>, since: int, p: string, it: Item)
    requires p in order && it in listing(p) && it.publishedAt > since
    ensures it.videoId in Scan(order, listing, since)
  {
    var n := |order| - 1;
    var init := order[..n];
    if p == order[n] {
      var newOnes := Newer(listing(p), since);
      NewerFilter(listing(p), since);
      var k :| 0 <= k < |newOnes| && newOnes[k] == it;
      assert Ids(newOnes)[k] == it.videoId;
    } else {
      assert p in init;
      ScanComplete(init, listing, since, p, it);
    }
  }

  /** The listing requests the scan loop issues, one per playlist of `order`. */
  function ItemRequests(order: seq<string>, maxVids: int): seq<Request> {
    seq(|order|, i requires 0 <= i < |order| => PlaylistItemsList(order[i], maxVids))
  }

  lemma ItemRequestsSnoc(order: seq<string>, maxVids: int, p: string)
    ensures ItemRequests(order + [p], maxVids) == ItemRequests(order, maxVids) + [PlaylistItemsList(p, maxVids)]
  {
  }

  lemma ScanSnoc(order: seq<string>, listing: string -> seq<Item>, since: int, p: string)
    ensures Scan(order + [p], listing, since) == Scan(order, listing, since) + Ids(Newer(listing(p), since))
  {
    assert (order + [p])[..|order|] == order;
  }

  // ---------------------------------------------------------------------
  // add_to_playlist
  // ---------------------------------------------------------------------

  function Reversed(s: seq<string>): seq<string> {
    if s == [] then [] else Reversed(s[1..]) + [s[0]]
  }

  lemma {:induction false} ReversedIndex(s: seq<string>)
    ensures |Reversed(s)| == |s|
    ensures forall k :: 0 <= k < |s| ==> Reversed(s)[k] == s[|s| - 1 - k]
  {
    if s != [] {
      ReversedIndex(s[1..]);
    }
  }

  lemma {:induction false} ReversedSnoc(s: seq<string>, x: string)
    ensures Reversed(s + [x]) == [x] + Reversed(s)
  {
    if s == [] {
      assert Reversed([x]) == Reversed([]) + [x];
    } else {
      assert (s + [x])[1..] == s[1..] + [x];
      ReversedSnoc(s[1..], x);
    }
  }

  /** One insertion at position 0 extends the reversed prefix by one video. */
  lemma PrependStep(videos: seq<string>, i: nat, start: seq<string>)
    requires i < |videos|
    ensures [videos[i]] + (Reversed(videos[..i]) + start) == Reversed(videos[..i + 1]) + start
  {
    assert videos[..i + 1] == videos[..i] + [videos[i]];
    ReversedSnoc(videos[..i], videos[i]);
  }

  /** The playlist `p` after inserting the videos of `vs` one at a time, each
      at position 0, in the order of `vs`. */
  function FrontInserted(p: seq<string>, vs: seq<string>): seq<string>
    decreases vs
  {
    if vs == [] then p else FrontInserted([vs[0]] + p, vs[1..])
  }

  /** Inserting a batch at position 0 one by one leaves it on top of the old
      contents, in reverse order. */
  lemma {:induction false} FrontInsertedIsReversed(p: seq<string>, vs: seq<string>)
    ensures FrontInserted(p, vs) == Reversed(vs) + p
    decreases vs
  {
    if vs != [] {
      FrontInsertedIsReversed([vs[0]] + p, vs[1..]);
      assert Reversed(vs[1..]) + ([vs[0]] + p) == (Reversed(vs[1..]) + [vs[0]]) + p;
    }
  }

  /** The insertion requests for `videos`, each at position 0. */
  function Inserts(playlistId: string, videos: seq<string>): seq<Request> {
    seq(|videos|, i requires 0 <= i < |videos| => PlaylistItemInsert(playlistId, videos[i], 0))
  }

  lemma InsertsSnoc(playlistId: string, videos: seq<string>, v: string)
    ensures Inserts(playlistId, videos + [v]) == Inserts(playlistId, videos) + [PlaylistItemInsert(playlistId, v, 0)]
  {
  }

  /** What add_to_playlist reports. */
  datatype Status = InvalidPlaylist | NoVideos | Added(count: nat)

  // ---------------------------------------------------------------------
  // The YoutubeTools class
  // ---------------------------------------------------------------------

  class YoutubeTools {
    /** data/channels.pickle: the handle -> uploads-ID map; None while the file does not exist. */
    var channelsFile: Option<map<string, string>>
    /** data/time.pickle: the last check instant; None while the file does not exist. */
    var timeFile: Option<int>
    /** The contents of the playlists on the service, by playlist ID. */
    var playlists: map<string, seq<string>>
    /** Every API request issued through the client, oldest first. */
    var requests: seq<Request>

    constructor (channelsFile: Option<map<string, string>>, timeFile: Option<int>, playlists: map<string, seq<string>>)
      ensures this.channelsFile == channelsFile && this.timeFile == timeFile
      ensures this.playlists == playlists && requests == []
    {
      this.channelsFile := channelsFile;
      this.timeFile := timeFile;
      this.playlists := playlists;
      requests := [];
    }

    /** The contents of playlist `id`; empty when the service holds none. */
    function Playlist(id: string): seq<string>
      reads this
    {
      if id in playlists then playlists[id] else []
    }

    /**
     * get_upload_playlists: diff the handles file `lines` against the channel
     * file, look up every new handle once (in `order`), and write the map
     * extended by the lookups that report results. A lookup that reports
     * results without an item raises before the file is written.
     */
    method GetUploadPlaylists(lines: seq<string>, lookup: string -> ChannelLookup)
      returns (outcome: Outcome<Error>, ghost order: seq<string>)
      modifies this`channelsFile, this`requests
      ensures outcome.Pass? <==> Resolved(Handles(lines), old(channelsFile), lookup).Some?
      ensures outcome.Pass? ==> channelsFile == Resolved(Handles(lines), old(channelsFile), lookup)
      ensures outcome.Pass? ==> IsOrderingOf(order, NewHandles(Handles(lines), old(channelsFile)))
      ensures outcome.Fail? ==> channelsFile == old(channelsFile)
      ensures outcome.Fail? ==>
                && outcome.error.MissingUploadsItem?
                && outcome.error.handle in NewHandles(Handles(lines), old(channelsFile))
                && Broken(lookup(outcome.error.handle))
                && StoppedAt(order, outcome.error.handle, lookup)
      ensures Distinct(order) && forall h :: h in order ==> h in NewHandles(Handles(lines), old(channelsFile))
      ensures requests == old(requests) + Lookups(order)
      ensures NewHandles(Handles(lines), old(channelsFile)) == {} ==>
                && requests == old(requests)
                && channelsFile == Some(KeptChannels(Handles(lines), old(channelsFile)))
    {
      ghost var newOnes := NewHandles(Handles(lines), channelsFile);
      ghost var kept := KeptChannels(Handles(lines), channelsFile);
      var youtubers, idChannel := GetHandles(lines, channelsFile);
      var failed;
      idChannel, failed, order := LookupHandles(youtubers, idChannel, lookup);
      if failed.Some? {
        ResolvedBrokenAt(Handles(lines), channelsFile, lookup, failed.value);
        outcome := Fail(MissingUploadsItem(failed.value));
        return;
      }
      ResolvedUnbroken(Handles(lines), channelsFile, lookup);
      if newOnes == {} {
        NothingToVisit(order, newOnes);
        ResolvedNothingNew(Handles(lines), channelsFile, lookup);
      }
      channelsFile := Some(idChannel);
      outcome := Pass;
    }

    /**
     * The `for channel in youtubers` loop of get_upload_playlists: one lookup
     * per handle, in `order`, adding the first item's uploads ID to `kept` for
     * every lookup that reports results; `failed` names the handle whose
     * lookup raised, if one did.
     */
    method LookupHandles(youtubers: set<string>, kept: map<string, string>, lookup: string -> ChannelLookup)
      returns (idChannel: map<string, string>, failed: Option<string>, ghost order: seq<string>)
      modifies this`requests
      ensures failed.None? <==> forall h :: h in youtubers ==> !Broken(lookup(h))
      ensures failed.None? ==> idChannel == kept + Looked(youtubers, lookup) && IsOrderingOf(order, youtubers)
      ensures failed.Some? ==> failed.value in youtubers && Broken(lookup(failed.value))
      ensures failed.Some? ==> StoppedAt(order, failed.value, lookup)
      ensures Distinct(order) && forall h :: h in order ==> h in youtubers
      ensures requests == old(requests) + Lookups(order)
    {
      idChannel := kept;
      failed := None;
      var remaining := youtubers;
      order := [];
      while remaining != {}
        invariant remaining <= youtubers
        invariant Distinct(order) && forall h :: h in order <==> h in youtubers && h !in remaining
        invariant requests == old(requests) + Lookups(order)
        invariant forall h :: h in youtubers && h !in remaining ==> !Broken(lookup(h))
        invariant forall k :: 0 <= k < |order| ==> !Broken(lookup(order[k]))
        invariant idChannel == kept + Looked(youtubers - remaining, lookup)
        decreases remaining
      {
        var channel :| channel in remaining;
        ghost var done := youtubers - remaining;
        requests := requests + [ChannelForHandle(channel)];
        LookupsSnoc(order, channel);
        OrderStep(order, youtubers, remaining, channel);
        order := order + [channel];
        remaining := remaining - {channel};
        var c := lookup(channel);
        LookedStep(done, channel, lookup, kept);
        if c.totalResults > 0 {
          if |c.uploads| == 0 {
            failed := Some(channel);
            return;
          }
          idChannel := idChannel[channel := c.uploads[0]];
        }
      }
      assert youtubers - remaining == youtubers;
    }

    /**
     * get_videos_ids: rewrite the stored uploads IDs into `kind` playlist IDs
     * (`matched` is what the API answers about them), list every matched
     * playlist once (in `order`; `listing` gives each listing), keep the items
     * published after the stored check time (one day before the clock reading
     * `now` when none is stored), and store the clock reading `doneAt`, taken
     * after the scan, as the new check time. Returns [] and changes nothing
     * when the channel file is missing or no playlist matched.
     */
    method GetVideosIds(kind: string, maxVids: int, now: int, doneAt: int, matched: seq<string>, listing: string -> seq<Item>)
      returns (vids: Result<seq<string>, Error>, ghost order: seq<string>)
      modifies this`timeFile, this`requests
      ensures channelsFile.None? ==>
                vids == Success([]) && timeFile == old(timeFile) && requests == old(requests)
      ensures channelsFile.Some? && CandidateIds(kind, channelsFile.value).Failure? ==>
                vids == Failure(UnknownUploadType(kind)) && timeFile == old(timeFile) && requests == old(requests)
      ensures channelsFile.Some? && CandidateIds(kind, channelsFile.value).Success? &&
              ValidatePlaylists(kind, channelsFile.value, matched).value == {} ==>
                vids == Success([]) && timeFile == old(timeFile) &&
                requests == old(requests) + [PlaylistsById(CandidateIds(kind, channelsFile.value).value)]
      ensures channelsFile.Some? && CandidateIds(kind, channelsFile.value).Success? &&
              ValidatePlaylists(kind, channelsFile.value, matched).value != {} ==>
                && IsOrderingOf(order, ValidatePlaylists(kind, channelsFile.value, matched).value)
                && vids == Success(Scan(order, listing, StartTime(old(timeFile), now)))
                && timeFile == Some(doneAt)
                && requests == old(requests) + [PlaylistsById(CandidateIds(kind, channelsFile.value).value)]
                                             + ItemRequests(order, maxVids)
    {
      order := [];
      if channelsFile.None? {
        vids := Success([]);
        return;
      }
      var ch := channelsFile.value;
      var query := CandidateIds(kind, ch);
      if query.Failure? {
        vids := Failure(query.error);
        return;
      }
      requests := requests + [PlaylistsById(query.value)];
      var validPlaylists := ValidatePlaylists(kind, ch, matched).value;
      if validPlaylists == {} {
        vids := Success([]);
        return;
      }
      var lastTime := StartTime(timeFile, now);
      var found;
      found, order := ScanPlaylists(validPlaylists, maxVids, listing, lastTime);
      timeFile := Some(doneAt);
      vids := Success(found);
    }

    /** The loop of get_videos_ids: list every valid playlist once (in
        `order`) and collect the IDs of the items newer than `lastTime`. */
    method ScanPlaylists(validPlaylists: set<string>, maxVids: int, listing: string -> seq<Item>, lastTime: int)
      returns (found: seq<string>, ghost order: seq<string>)
      modifies this`requests
      ensures IsOrderingOf(order, validPlaylists)
      ensures found == Scan(order, listing, lastTime)
      ensures requests == old(requests) + ItemRequests(order, maxVids)
    {
      found, order := [], [];
      var remaining := validPlaylists;
      while remaining != {}
        invariant remaining <= validPlaylists
        invariant Distinct(order) && forall p :: p in order <==> p in validPlaylists && p !in remaining
        invariant found == Scan(order, listing, lastTime)
        invariant requests == old(requests) + ItemRequests(order, maxVids)
        decreases remaining
      {
        var pl :| pl in remaining;
        requests := requests + [PlaylistItemsList(pl, maxVids)];
        ItemRequestsSnoc(order, maxVids, pl);
        found := found + Ids(Newer(listing(pl), lastTime));
        ScanSnoc(order, listing, lastTime, pl);
        OrderStep(order, validPlaylists, remaining, pl);
        order := order + [pl];
        remaining := remaining - {pl};
      }
    }

    /** The loop of add_to_playlist: insert each video at position 0 of the
        playlist, one request per video. */
    method InsertAtFront(videos: seq<string>, playlistId: string)
      requires videos != []
      modifies this`playlists, this`requests
      ensures playlists == old(playlists)[playlistId := FrontInserted(old(Playlist(playlistId)), videos)]
      ensures requests == old(requests) + Inserts(playlistId, videos)
    {
      ghost var start := Playlist(playlistId);
      ghost var others := playlists;
      assert Reversed(videos[..0]) + start == start;
      for i := 0 to |videos|
        invariant playlists == if i == 0 then others else others[playlistId := Reversed(videos[..i]) + start]
        invariant requests == old(requests) + Inserts(playlistId, videos[..i])
      {
        requests := requests + [PlaylistItemInsert(playlistId, videos[i], 0)];
        InsertsSnoc(playlistId, videos[..i], videos[i]);
        var current := Playlist(playlistId);
        PrependStep(videos, i, start);
        playlists := playlists[playlistId := [videos[i]] + current];
      }
      assert videos[..|videos|] == videos;
      FrontInsertedIsReversed(start, videos);
    }

    /**
     * add_to_playlist: check that `playlistId` is among the account's own
     * playlists (`mine`, the IDs the listing returns), then insert every
     * video at position 0, one request per video.
     */
    method AddToPlaylist(videos: seq<string>, playlistId: string, mine: seq<string>) returns (status: Status)
      modifies this`playlists, this`requests
      ensures status == if playlistId !in mine then InvalidPlaylist
                        else if videos == [] then NoVideos
                        else Added(|videos|)
      ensures status.Added? ==>
                playlists == old(playlists)[playlistId := Reversed(videos) + old(Playlist(playlistId))]
      ensures status.Added? ==> requests == old(requests) + [MyPlaylists] + Inserts(playlistId, videos)
      ensures !status.Added? ==> playlists == old(playlists) && requests == old(requests) + [MyPlaylists]
    {
      requests := requests + [MyPlaylists];
      var found := MyValidPlaylist(mine, playlistId);
      if !found {
        return InvalidPlaylist;
      }
      if videos == [] {
        return NoVideos;
      }
      ghost var start := Playlist(playlistId);
      InsertAtFront(videos, playlistId);
      FrontInsertedIsReversed(start, videos);
      status := Added(|videos|);
    }
  }
}
