/**
 * The playlist records of src/App.jsx and how `fetchPlaylists` obtains them:
 * the cursor loop over the catalog's pages, the `Map` deduplication and the
 * normalisation into flat records. The network is an abstract sequence of
 * replies, one per request, in the order the requests are made.
 */
module Catalog {
  import opened Wrappers
  import opened Dedup

  /**
   * A playlist as the catalog returns it. `tracks` and `owner` are `None`
   * when the nested object is absent (reading `.total` or `.display_name`
   * from it throws); `images` is `None` when the field is absent or null;
   * `externalUrl` is `external_urls?.spotify`.
   */
  datatype RawPlaylist = RawPlaylist(
    id: string,
    name: string,
    tracks: Option<int>,
    owner: Option<string>,
    images: Option<seq<string>>,
    externalUrl: Option<string>)

  /** The flat record the application keeps and displays. */
  datatype Playlist = Playlist(
    id: string,
    name: string,
    tracks: int,
    owner: string,
    duration: int,
    image: string,
    spotifyUrl: string)

  function RawId(p: RawPlaylist): string { p.id }
  function PlaylistId(p: Playlist): string { p.id }

  const PlaceholderImage := "https://via.placeholder.com/150"
  const NoLink := "#"

  /** A JavaScript string is truthy when it is present and not empty. */
  predicate Truthy(s: Option<string>) {
    s.Some? && s.value != ""
  }

  /** The image shown for a playlist: its first image, else the placeholder. */
  function CoverImage(images: Option<seq<string>>): (r: string)
    ensures images.Some? && |images.value| > 0 ==> r == images.value[0]
    ensures images.None? || images.value == [] ==> r == PlaceholderImage
  {
    if images.Some? && |images.value| > 0 then images.value[0] else PlaceholderImage
  }

  /**
   * One step of the `map` in `fetchPlaylists`; `None` where reading
   * `tracks.total` or `owner.display_name` throws.
   */
  function Normalize(p: RawPlaylist): (r: Option<Playlist>)
    ensures r.Some? <==> p.tracks.Some? && p.owner.Some?
    ensures r.Some? ==> && r.value.id == p.id && r.value.name == p.name
                        && r.value.tracks == p.tracks.value && r.value.owner == p.owner.value
                        && r.value.duration == 0
                        && r.value.image == CoverImage(p.images)
                        && r.value.spotifyUrl == (if Truthy(p.externalUrl) then p.externalUrl.value else NoLink)
  {
    if p.tracks.None? || p.owner.None? then None
    else
      Some(Playlist(
        p.id, p.name, p.tracks.value, p.owner.value, 0, CoverImage(p.images),
        if Truthy(p.externalUrl) then p.externalUrl.value else NoLink))
  }

  /** The whole `map`: it throws, and so yields nothing, as soon as one item does. */
  function NormalizeAll(ps: seq<RawPlaylist>): (r: Option<seq<Playlist>>)
    ensures r.Some? <==> forall i :: 0 <= i < |ps| ==> Normalize(ps[i]).Some?
    ensures r.Some? ==> |r.value| == |ps| && forall i :: 0 <= i < |ps| ==> Normalize(ps[i]) == Some(r.value[i])
  {
    if ps == [] then Some([])
    else
      match (Normalize(ps[0]), NormalizeAll(ps[1..]))
      case (Some(p), Some(rest)) => Some([p] + rest)
      case _ => None
  }

  /** Normalisation keeps ids one for one, so distinct raw ids give distinct playlist ids. */
  lemma NormalizeAllKeepsDistinct(ps: seq<RawPlaylist>)
    requires Distinct(ps, RawId)
    requires NormalizeAll(ps).Some?
    ensures Distinct(NormalizeAll(ps).value, PlaylistId)
  {
    var r := NormalizeAll(ps).value;
    forall i, j | 0 <= i < j < |r| ensures PlaylistId(r[i]) != PlaylistId(r[j]) {
      assert Normalize(ps[i]) == Some(r[i]) && Normalize(ps[j]) == Some(r[j]);
    }
  }

  /**
   * What one request yields: a failure (a network error, or a body without
   * `items`), or a page with its items and its `next` cursor.
   */
  datatype Reply = Failed | Page(items: seq<RawPlaylist>, next: Option<string>)

  /**
   * What the `while (nextUrl)` loop accumulates: the items of every reply up
   * to and including the first whose `next` is falsy, or `None` when a
   * request fails before that. A sequence that runs out before a falsy
   * `next` counts as a failed request.
   */
  function Collect(replies: seq<Reply>): Option<seq<RawPlaylist>>
    decreases |replies|
  {
    if replies == [] || replies[0].Failed? then None
    else if !Truthy(replies[0].next) then Some(replies[0].items)
    else
      match Collect(replies[1..])
      case None => None
      case Some(rest) => Some(replies[0].items + rest)
  }

  /** The items of the given replies, concatenated in order. */
  function ConcatItems(replies: seq<Reply>): seq<RawPlaylist> {
    if replies == [] then []
    else ConcatItems(replies[..|replies| - 1]) + (if replies[|replies| - 1].Page? then replies[|replies| - 1].items else [])
  }

  /** Request `k` is the last one: every reply up to it is a page and only its `next` is falsy. */
  ghost predicate StopsAt(replies: seq<Reply>, k: int) {
    && 0 <= k < |replies|
    && (forall j :: 0 <= j <= k ==> replies[j].Page?)
    && (forall j :: 0 <= j < k ==> Truthy(replies[j].next))
    && !Truthy(replies[k].next)
  }

  lemma ConcatItemsCons(r: Reply, rest: seq<Reply>)
    requires r.Page?
    ensures ConcatItems([r] + rest) == r.items + ConcatItems(rest)
    decreases |rest|
  {
    if rest == [] {
      assert ([r] + rest)[..0] == [];
    } else {
      var n := |rest| - 1;
      assert ([r] + rest)[..|rest|] == [r] + rest[..n];
      ConcatItemsCons(r, rest[..n]);
    }
  }

  /**
   * The loop succeeds exactly when some reply ends the cursor chain before
   * any request fails, and then it yields the in-order concatenation of the
   * items of all replies up to that one.
   */
  lemma {:induction false} CollectConcatenates(replies: seq<Reply>)
    ensures Collect(replies).Some? <==> exists k :: StopsAt(replies, k)
    ensures forall k :: StopsAt(replies, k) ==> Collect(replies) == Some(ConcatItems(replies[..k + 1]))
    decreases |replies|
  {
    if replies == [] || replies[0].Failed? {
      forall k | 0 <= k < |replies| ensures !StopsAt(replies, k) {
        assert !replies[0].Page?;
      }
    } else if !Truthy(replies[0].next) {
      assert StopsAt(replies, 0);
      forall k | StopsAt(replies, k)
        ensures Collect(replies) == Some(ConcatItems(replies[..k + 1]))
      {
        assert k == 0;
        assert replies[..1] == [replies[0]];
        assert replies[..1][..0] == [];
        assert ConcatItems(replies[..1]) == ConcatItems([]) + replies[0].items;
        assert ConcatItems(replies[..1]) == replies[0].items;
        assert Collect(replies) == Some(replies[0].items);
      }
    } else {
      var tail := replies[1..];
      CollectConcatenates(tail);
      forall k | StopsAt(replies, k)
        ensures k > 0 && StopsAt(tail, k - 1)
      { }
      forall k | StopsAt(tail, k) ensures StopsAt(replies, k + 1) {
        forall j | 0 <= j <= k + 1 ensures replies[j].Page? {
          if j > 0 { assert replies[j] == tail[j - 1]; }
        }
        forall j | 0 <= j < k + 1 ensures Truthy(replies[j].next) {
          if j > 0 { assert replies[j] == tail[j - 1]; }
        }
      }
      forall k | StopsAt(replies, k)
        ensures Collect(replies) == Some(ConcatItems(replies[..k + 1]))
      {
        assert StopsAt(tail, k - 1);
        assert replies[..k + 1] == [replies[0]] + tail[..k];
        ConcatItemsCons(replies[0], tail[..k]);
      }
    }
  }

  /** The items gathered so far, followed by those still to come, if any come. */
  function Prepend(all: seq<RawPlaylist>, rest: Option<seq<RawPlaylist>>): Option<seq<RawPlaylist>> {
    match rest
    case None => None
    case Some(more) => Some(all + more)
  }

  lemma PrependTwice(a: seq<RawPlaylist>, b: seq<RawPlaylist>, rest: Option<seq<RawPlaylist>>)
    ensures Prepend(a, Prepend(b, rest)) == Prepend(a + b, rest)
  {
    if rest.Some? {
      assert a + (b + rest.value) == (a + b) + rest.value;
    }
  }

  /**
   * The `while (nextUrl)` loop of `fetchPlaylists`. The first URL is a
   * non-empty constant, so the first request is always made; `None` is the
   * exception that leaves the loop.
   */
  method FetchAllPages(replies: seq<Reply>) returns (r: Option<seq<RawPlaylist>>)
    ensures r == Collect(replies)
  {
    var all: seq<RawPlaylist> := [];
    var i := 0;
    var more := true;
    assert replies[0..] == replies;
    assert Prepend([], Collect(replies)) == Collect(replies) by {
      if Collect(replies).Some? { assert [] + Collect(replies).value == Collect(replies).value; }
    }
    while more
      invariant 0 <= i <= |replies|
      invariant more ==> Collect(replies) == Prepend(all, Collect(replies[i..]))
      invariant !more ==> Collect(replies) == Some(all)
      decreases |replies| - i
    {
      if i == |replies| || replies[i].Failed? {
        return None;
      }
      var reply := replies[i];
      assert replies[i..][1..] == replies[i + 1..];
      if Truthy(reply.next) {
        PrependTwice(all, reply.items, Collect(replies[i + 1..]));
      }
      all := all + reply.items;
      more := Truthy(reply.next);
      i := i + 1;
    }
    return Some(all);
  }

  /**
   * What a completed `fetchPlaylists` hands to `setPlaylists`, or `None`
   * when it throws and the playlists stay as they were.
   */
  function FetchResult(replies: seq<Reply>): Option<seq<Playlist>> {
    match Collect(replies)
    case None => None
    case Some(all) => NormalizeAll(RemoveDuplicates(all, RawId))
  }

  /** Whatever a successful fetch stores has pairwise distinct ids. */
  lemma FetchResultDistinct(replies: seq<Reply>)
    requires FetchResult(replies).Some?
    ensures Distinct(FetchResult(replies).value, PlaylistId)
  {
    var all := Collect(replies).value;
    RemoveDuplicatesDistinct(all, RawId);
    NormalizeAllKeepsDistinct(RemoveDuplicates(all, RawId));
  }
}
