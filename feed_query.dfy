/** The bookmark feed: the query the list endpoint builds from its parameters.
    Each stage maps the sequence of bookmark keys it receives to a sub-sequence
    (filters, search) or to a rearrangement of it (sorting). */
module FeedQuery {
  import opened Wrappers
  import opened Text
  import opened Seqs
  import opened UsersModels
  import opened OperationsModels

  /** The tables the feed reads. */
  datatype Tables = Tables(
    users: map<Id, User>,
    videos: map<Id, Video>,
    tags: map<Id, string>,
    bookmarks: map<Id, Bookmark>,
    likes: set<(Id, Id)>,
    follows: set<(Id, Id)>)

  /** The query parameters; `None` is an absent parameter. */
  datatype FeedParams = FeedParams(
    orientation: Option<string>,
    user: Option<string>,
    likedBy: Option<string>,
    following: Option<string>,
    q: Option<string>,
    sort: Option<string>)

  predicate HasOrientation(t: Tables, b: Id, o: string)
  {
    b in t.bookmarks && t.bookmarks[b].video in t.videos
    && t.videos[t.bookmarks[b].video].orientation == Some(o)
  }

  predicate OwnedBy(t: Tables, b: Id, username: string)
  {
    b in t.bookmarks && t.bookmarks[b].user in t.users
    && t.users[t.bookmarks[b].user].username == username
  }

  /** Some user called `username` likes video `v`. */
  predicate LikedBy(t: Tables, v: Id, username: string)
  {
    exists u :: (u, v) in t.likes && u in t.users && t.users[u].username == username
  }

  predicate OnLikedVideo(t: Tables, b: Id, username: string)
  {
    b in t.bookmarks && LikedBy(t, t.bookmarks[b].video, username)
  }

  predicate ByFollowed(t: Tables, b: Id, viewer: Id)
  {
    b in t.bookmarks && (viewer, t.bookmarks[b].user) in t.follows
  }

  predicate TagMatches(t: Tables, tagIds: set<Id>, q: string)
  {
    exists g :: g in tagIds && g in t.tags && IContains(t.tags[g], q)
  }

  /** The four-way case-insensitive search: the bookmark's title, its description,
      its video's title or one of its tag names contains `q`. */
  predicate SearchHit(t: Tables, b: Id, q: string)
  {
    b in t.bookmarks &&
    var bm := t.bookmarks[b];
    IContains(bm.title, q)
    || (bm.description.Some? && IContains(bm.description.value, q))
    || (bm.video in t.videos && IContains(t.videos[bm.video].title, q))
    || TagMatches(t, bm.tags, q)
  }

  predicate OrientationActive(p: FeedParams) { Given(p.orientation) && p.orientation.value != "all" }

  predicate FollowingActive(p: FeedParams, viewer: Option<Id>) { p.following == Some("true") && viewer.Some? }

  /** What the filters ask of one bookmark: each given parameter adds one condition. */
  predicate PassesFilters(t: Tables, p: FeedParams, viewer: Option<Id>, b: Id)
  {
    (OrientationActive(p) ==> HasOrientation(t, b, p.orientation.value))
    && (Given(p.user) ==> OwnedBy(t, b, p.user.value))
    && (Given(p.likedBy) ==> OnLikedVideo(t, b, p.likedBy.value))
    && (FollowingActive(p, viewer) ==> ByFollowed(t, b, viewer.value))
  }

  predicate Selected(t: Tables, p: FeedParams, viewer: Option<Id>, b: Id)
  {
    PassesFilters(t, p, viewer, b) && (Given(p.q) ==> SearchHit(t, b, p.q.value))
  }

  function ByOrientation(qs: seq<Id>, t: Tables, p: FeedParams): (r: seq<Id>)
    ensures forall b :: b in r <==> b in qs && (OrientationActive(p) ==> HasOrientation(t, b, p.orientation.value))
    ensures |r| <= |qs| && (NoDup(qs) ==> NoDup(r))
  {
    if OrientationActive(p) then Filter(qs, b => HasOrientation(t, b, p.orientation.value)) else qs
  }

  function ByOwner(qs: seq<Id>, t: Tables, p: FeedParams): (r: seq<Id>)
    ensures forall b :: b in r <==> b in qs && (Given(p.user) ==> OwnedBy(t, b, p.user.value))
    ensures |r| <= |qs| && (NoDup(qs) ==> NoDup(r))
  {
    if Given(p.user) then Filter(qs, b => OwnedBy(t, b, p.user.value)) else qs
  }

  function ByLikes(qs: seq<Id>, t: Tables, p: FeedParams): (r: seq<Id>)
    ensures forall b :: b in r <==> b in qs && (Given(p.likedBy) ==> OnLikedVideo(t, b, p.likedBy.value))
    ensures |r| <= |qs| && (NoDup(qs) ==> NoDup(r))
  {
    if Given(p.likedBy) then Filter(qs, b => OnLikedVideo(t, b, p.likedBy.value)) else qs
  }

  function ByFollowing(qs: seq<Id>, t: Tables, p: FeedParams, viewer: Option<Id>): (r: seq<Id>)
    ensures forall b :: b in r <==> b in qs && (FollowingActive(p, viewer) ==> ByFollowed(t, b, viewer.value))
    ensures |r| <= |qs| && (NoDup(qs) ==> NoDup(r))
  {
    if FollowingActive(p, viewer) then Filter(qs, b => ByFollowed(t, b, viewer.value)) else qs
  }

  /** `_apply_filters`: the four optional filters, one after the other. */
  function ApplyFilters(qs: seq<Id>, t: Tables, p: FeedParams, viewer: Option<Id>): (r: seq<Id>)
    ensures forall b :: b in r <==> b in qs && PassesFilters(t, p, viewer, b)
    ensures |r| <= |qs| && (NoDup(qs) ==> NoDup(r))
  {
    ByFollowing(ByLikes(ByOwner(ByOrientation(qs, t, p), t, p), t, p), t, p, viewer)
  }

  /** `_apply_search`: with a non-empty `q`, the bookmarks that match it, each once. */
  function ApplySearch(qs: seq<Id>, t: Tables, q: Option<string>): (r: seq<Id>)
    ensures forall b :: b in r <==> b in qs && (Given(q) ==> SearchHit(t, b, q.value))
    ensures Given(q) ==> NoDup(r)
    ensures NoDup(qs) ==> NoDup(r)
  {
    if Given(q) then Distinct(Filter(qs, b => SearchHit(t, b, q.value))) else qs
  }

  function CreatedAt(t: Tables, b: Id): int
  {
    if b in t.bookmarks then t.bookmarks[b].createdAt else 0
  }

  /** `_apply_sorting`: a random order under `sort=random`, newest first otherwise.
      The seed stands for the database's random choices. */
  function ApplySorting(qs: seq<Id>, t: Tables, sort: Option<string>, seed: seq<nat>): (r: seq<Id>)
    ensures multiset(r) == multiset(qs)
    ensures sort != Some("random") ==> SortedDesc(r, b => CreatedAt(t, b))
  {
    if sort == Some("random") then Shuffle(qs, seed) else SortDesc(qs, b => CreatedAt(t, b))
  }

  /** `get_queryset`: the whole pipeline over `all`, an enumeration of the bookmark
      table. */
  function GetQueryset(all: seq<Id>, t: Tables, p: FeedParams, viewer: Option<Id>, seed: seq<nat>): (r: seq<Id>)
    requires NoDup(all)
    ensures forall b :: b in r <==> b in all && Selected(t, p, viewer, b)
    ensures NoDup(r)
    ensures p.sort != Some("random") ==> SortedDesc(r, b => CreatedAt(t, b))
  {
    var filtered := ApplySearch(ApplyFilters(all, t, p, viewer), t, p.q);
    var r := ApplySorting(filtered, t, p.sort, seed);
    PermutationKeepsNoDup(filtered, r);
    assert forall b :: b in r <==> b in multiset(r);
    r
  }
}
