/** The manual bookmark serializer: `validate` checks two lists of required fields
    in order, and `create` gets or creates the video by its source URL, replaces its
    tags, refuses a second bookmark of the same video in the same channel and
    inserts the bookmark with its own tags. */
module ManualBookmark {
  import opened Wrappers
  import opened Seqs
  import opened UsersModels
  import opened OperationsModels
  import opened Store
  import opened OperationsUtils

  /** A JSON value of the request body. */
  datatype Json = JNull | JBool(b: bool) | JNum(n: int) | JStr(s: string) | JList(items: seq<Json>)

  /** Python truthiness of the decoded value. */
  predicate Truthy(j: Json)
  {
    match j
    case JNull => false
    case JBool(b) => b
    case JNum(n) => n != 0
    case JStr(s) => s != ""
    case JList(items) => items != []
  }

  /** `dict.get`: a missing key reads as `None`. */
  function Get(d: map<string, Json>, key: string): Json
  {
    if key in d then d[key] else JNull
  }

  const VideoFields: seq<string> := ["source_url", "title", "thumbnail_url", "embed_url", "orientation", "tags"]
  const BookmarkFields: seq<string> := ["channel_id", "description", "access", "tags"]

  /** The error `validate` raises: the section (`video` or `bookmark`) and the field. */
  datatype FieldError = FieldError(section: string, field: string)

  /** The first field of `fields` whose value in `d` is missing or falsy. */
  function FirstMissing(fields: seq<string>, d: map<string, Json>): (r: Option<string>)
    ensures r.None? <==> forall i :: 0 <= i < |fields| ==> Truthy(Get(d, fields[i]))
    ensures r.Some? ==> exists i :: 0 <= i < |fields| && fields[i] == r.value && !Truthy(Get(d, fields[i]))
                                   && forall j :: 0 <= j < i ==> Truthy(Get(d, fields[j]))
  {
    if fields == [] then None
    else if !Truthy(Get(d, fields[0])) then Some(fields[0])
    else
      var r := FirstMissing(fields[1..], d);
      if r.Some? then
        var i :| 0 <= i < |fields[1..]| && fields[1..][i] == r.value && !Truthy(Get(d, fields[1..][i]))
          && forall j :: 0 <= j < i ==> Truthy(Get(d, fields[1..][j]));
        assert fields[i + 1] == r.value && forall j :: 1 <= j < i + 1 ==> Truthy(Get(d, fields[j])) by {
          forall j | 1 <= j < i + 1 ensures Truthy(Get(d, fields[j])) {
            assert fields[j] == fields[1..][j - 1];
          }
        }
        r
      else
        assert forall i :: 1 <= i < |fields| ==> fields[i] == fields[1..][i - 1];
        r
  }

  /** What `validate` answers: the first missing video field, else the first missing
      bookmark field, else success. */
  function ValidateSpec(video: map<string, Json>, bookmark: map<string, Json>): Option<FieldError>
  {
    match FirstMissing(VideoFields, video)
    case Some(f) => Some(FieldError("video", f))
    case None =>
      match FirstMissing(BookmarkFields, bookmark)
      case Some(f) => Some(FieldError("bookmark", f))
      case None => None
  }

  /** One required-field loop of `validate`. */
  method CheckRequired(section: string, fields: seq<string>, d: map<string, Json>) returns (r: Option<FieldError>)
    ensures r.None? <==> FirstMissing(fields, d).None?
    ensures r.Some? ==> r.value == FieldError(section, FirstMissing(fields, d).value)
  {
    for i := 0 to |fields|
      invariant forall j :: 0 <= j < i ==> Truthy(Get(d, fields[j]))
    {
      if !Truthy(Get(d, fields[i])) {
        return Some(FieldError(section, fields[i]));
      }
    }
    return None;
  }

  /** `ManualBookmarkSerializer.validate`. */
  method Validate(video: map<string, Json>, bookmark: map<string, Json>) returns (r: Option<FieldError>)
    ensures r == ValidateSpec(video, bookmark)
  {
    r := CheckRequired("video", VideoFields, video);
    if r.None? {
      r := CheckRequired("bookmark", BookmarkFields, bookmark);
    }
  }

  /** Video fields are checked before bookmark fields: a payload missing fields in
      both sections is refused on its video section. */
  lemma {:induction false} VideoFieldsFirst(video: map<string, Json>, bookmark: map<string, Json>, f: string)
    requires f in VideoFields && !Truthy(Get(video, f))
    ensures ValidateSpec(video, bookmark).Some?
    ensures ValidateSpec(video, bookmark).value.section == "video"
  {
    var i :| 0 <= i < |VideoFields| && VideoFields[i] == f;
  }

  /** A refusal names a required field that is missing or falsy, and every field
      listed before it was present. */
  lemma {:induction false} ValidateNamesFirstMissing(video: map<string, Json>, bookmark: map<string, Json>)
    requires ValidateSpec(video, bookmark).Some?
    ensures var e := ValidateSpec(video, bookmark).value;
      (e.section == "video" && e.field in VideoFields && !Truthy(Get(video, e.field)))
      || (e.section == "bookmark" && e.field in BookmarkFields && !Truthy(Get(bookmark, e.field))
          && forall f :: f in VideoFields ==> Truthy(Get(video, f)))
  {
    var e := ValidateSpec(video, bookmark).value;
    if FirstMissing(VideoFields, video).None? {
      forall f | f in VideoFields ensures Truthy(Get(video, f)) {
        var i :| 0 <= i < |VideoFields| && VideoFields[i] == f;
      }
    }
  }

  /** The validated payload, decoded. */
  datatype VideoData = VideoData(
    sourceUrl: string, title: string, thumbnailUrl: string, embedUrl: string,
    orientation: string, tags: seq<string>)

  datatype BookmarkData = BookmarkData(channelId: Id, description: string, access: string, tags: seq<string>)

  /** The videos whose source URL is `url`. */
  function WithSource(videos: map<Id, Video>, url: string): set<Id>
  {
    set v | v in videos && videos[v].sourceUrl == Some(url)
  }

  /** `Video.objects.get_or_create(source_url=..., defaults=...)`: one match is
      reused as it is, none means a new video from the payload owned by `user`,
      several is the MultipleObjectsReturned error. */
  method GetOrCreateVideo(db: Db, user: Id, data: VideoData, now: int) returns (r: Result<Id, ApiError>)
    requires db.Valid()
    modifies db`videos, db`nextId
    ensures db.Valid()
    ensures |WithSource(old(db.videos), data.sourceUrl)| >= 2 <==> r.Err?
    ensures r.Err? ==> db.videos == old(db.videos) && r.error.status == 500
    ensures r.Ok? && r.value in old(db.videos) ==>
      db.videos == old(db.videos) && WithSource(old(db.videos), data.sourceUrl) == {r.value}
    ensures r.Ok? && r.value !in old(db.videos) ==>
      WithSource(old(db.videos), data.sourceUrl) == {}
      && db.videos == old(db.videos)[r.value := NewVideo(Some(data.sourceUrl), data.title, Some(data.thumbnailUrl),
                                                          Some(data.embedUrl), Some(data.orientation), Some(user), now)]
  {
    var matches := WithSource(db.videos, data.sourceUrl);
    if |matches| >= 2 {
      return Err(ApiError(500, "MultipleObjectsReturned: get() returned more than one Video"));
    }
    if |matches| == 1 {
      var v :| v in matches;
      var rest := matches - {v};
      assert matches == rest + {v};
      assert rest == {};
      assert matches == {v};
      return Ok(v);
    }
    var id := db.NewId();
    db.videos := db.videos[id := NewVideo(Some(data.sourceUrl), data.title, Some(data.thumbnailUrl),
                                          Some(data.embedUrl), Some(data.orientation), Some(user), now)];
    r := Ok(id);
  }

  /** Replace the tag set of a video by tags that exist. */
  method RetagVideo(db: Db, video: Id, ids: set<Id>)
    requires db.Valid() && video in db.videos && ids <= db.tags.Keys
    modifies db`videos
    ensures db.Valid()
    ensures db.videos == old(db.videos)[video := old(db.videos)[video].(tags := ids)]
  {
    db.videos := db.videos[video := db.videos[video].(tags := ids)];
  }

  /** Replace the tag set of a bookmark by tags that exist. */
  method RetagBookmark(db: Db, bookmark: Id, ids: set<Id>)
    requires db.Valid() && bookmark in db.bookmarks && ids <= db.tags.Keys
    modifies db`bookmarks
    ensures db.Valid()
    ensures db.bookmarks == old(db.bookmarks)[bookmark := old(db.bookmarks)[bookmark].(tags := ids)]
  {
    var b := db.bookmarks[bookmark];
    assert forall x :: x in db.bookmarks ==> SameSlot(db.bookmarks[x], b) ==> x == bookmark;
    db.bookmarks := db.bookmarks[bookmark := b.(tags := ids)];
  }

  /** `video.tags.set(create_or_get_tags(names))`. */
  method SetVideoTags(db: Db, video: Id, names: seq<string>)
    requires db.Valid() && video in db.videos
    modifies db`videos, db`tags, db`nextId
    ensures db.Valid()
    ensures GrowsBy(old(db.tags), db.tags, NormalizedNames(names))
    ensures video in db.videos
    ensures db.videos == old(db.videos)[video := old(db.videos)[video].(tags := db.videos[video].tags)]
    ensures Carries(db.tags, db.videos[video].tags, NormalizedNames(names))
  {
    var ids := CreateOrGetTags(db, names);
    HoldsNames(db.tags, ids, NormalizedNames(names));
    RetagVideo(db, video, Elems(ids));
  }

  /** `bookmark.tags.set(create_or_get_tags(names))`. */
  method SetBookmarkTags(db: Db, bookmark: Id, names: seq<string>)
    requires db.Valid() && bookmark in db.bookmarks
    modifies db`bookmarks, db`tags, db`nextId
    ensures db.Valid()
    ensures GrowsBy(old(db.tags), db.tags, NormalizedNames(names))
    ensures bookmark in db.bookmarks
    ensures db.bookmarks == old(db.bookmarks)[bookmark := old(db.bookmarks)[bookmark].(tags := db.bookmarks[bookmark].tags)]
    ensures Carries(db.tags, db.bookmarks[bookmark].tags, NormalizedNames(names))
  {
    var ids := CreateOrGetTags(db, names);
    HoldsNames(db.tags, ids, NormalizedNames(names));
    RetagBookmark(db, bookmark, Elems(ids));
  }

  /** `Bookmark.objects.create(...)` with no title and no tags, in a slot that holds
      no bookmark yet, then the tags. */
  method InsertTagged(db: Db, user: Id, video: Id, data: BookmarkData, now: int) returns (id: Id)
    requires db.Valid() && user in db.users && video in db.videos && data.channelId in db.channels
    requires !Bookmarked(db.bookmarks, user, data.channelId, video)
    modifies db`tags, db`nextId, db`bookmarks
    ensures db.Valid()
    ensures GrowsBy(old(db.tags), db.tags, NormalizedNames(data.tags))
    ensures Inserted(old(db.bookmarks), db.bookmarks, id)
    ensures db.bookmarks[id] == Bookmark(user, data.channelId, video, "", Some(data.description),
                                         data.access, db.bookmarks[id].tags, now)
    ensures Carries(db.tags, db.bookmarks[id].tags, NormalizedNames(data.tags))
  {
    id := db.InsertBookmark(Bookmark(user, data.channelId, video, "", Some(data.description), data.access, {}, now));
    SetBookmarkTags(db, id, data.tags);
  }

  /** The bookmark half of `create`, once the video `video` is in place: the channel
      lookup (a missing channel is an uncaught DoesNotExist, a 500), the duplicate
      check (a ValidationError, a 400), then the insert and its tags. */
  method AddBookmark(db: Db, user: Id, video: Id, data: BookmarkData, now: int) returns (r: Result<Id, ApiError>)
    requires db.Valid() && user in db.users && video in db.videos
    modifies db`tags, db`nextId, db`bookmarks
    ensures db.Valid()
    ensures GrowsBy(old(db.tags), db.tags, NormalizedNames(data.tags))
    ensures data.channelId !in db.channels ==> r.Err? && r.error.status == 500 && db.bookmarks == old(db.bookmarks)
    ensures data.channelId in db.channels && Bookmarked(old(db.bookmarks), user, data.channelId, video) ==>
      r == Err(ApiError(400, "You have already bookmarked this video in this channel.")) && db.bookmarks == old(db.bookmarks)
    ensures data.channelId in db.channels && !Bookmarked(old(db.bookmarks), user, data.channelId, video) ==> r.Ok?
    ensures r.Err? ==> db.bookmarks == old(db.bookmarks)
    ensures r.Ok? ==>
      (data.channelId in db.channels && !Bookmarked(old(db.bookmarks), user, data.channelId, video)
       && Inserted(old(db.bookmarks), db.bookmarks, r.value)
       && db.bookmarks[r.value] == Bookmark(user, data.channelId, video, "", Some(data.description),
                                            data.access, db.bookmarks[r.value].tags, now)
       && Carries(db.tags, db.bookmarks[r.value].tags, NormalizedNames(data.tags)))
  {
    if data.channelId !in db.channels {
      return Err(ApiError(500, "Channel.DoesNotExist: Channel matching query does not exist."));
    }
    if exists b :: b in db.bookmarks && db.bookmarks[b].user == user && db.bookmarks[b].channel == data.channelId
                   && db.bookmarks[b].video == video {
      return Err(ApiError(400, "You have already bookmarked this video in this channel."));
    }
    var id := InsertTagged(db, user, video, data, now);
    r := Ok(id);
  }

  /** The video half of `create`: get or create the video by its source URL, then
      set its tags from the payload's names. */
  method TaggedVideo(db: Db, user: Id, video: VideoData, now: int) returns (r: Result<Id, ApiError>)
    requires db.Valid()
    modifies db`videos, db`tags, db`nextId
    ensures db.Valid()
    ensures r.Err? <==> |WithSource(old(db.videos), video.sourceUrl)| >= 2
    ensures r.Err? ==> r.error.status == 500 && db.videos == old(db.videos) && db.tags == old(db.tags)
    ensures GrowsBy(old(db.tags), db.tags, NormalizedNames(video.tags))
    ensures r.Ok? ==> r.value in db.videos && Carries(db.tags, db.videos[r.value].tags, NormalizedNames(video.tags))
    ensures r.Ok? && r.value in old(db.videos) ==>
      WithSource(old(db.videos), video.sourceUrl) == {r.value}
      && db.videos == old(db.videos)[r.value := old(db.videos)[r.value].(tags := db.videos[r.value].tags)]
    ensures r.Ok? && r.value !in old(db.videos) ==>
      WithSource(old(db.videos), video.sourceUrl) == {}
      && db.videos == old(db.videos)[r.value := NewVideo(Some(video.sourceUrl), video.title, Some(video.thumbnailUrl),
                                                         Some(video.embedUrl), Some(video.orientation), Some(user), now)
                                                  .(tags := db.videos[r.value].tags)]
  {
    r := GetOrCreateVideo(db, user, video, now);
    if r.Ok? {
      SetVideoTags(db, r.value, video.tags);
    }
  }

  /** `ManualBookmarkSerializer.create`, on a validated payload from `user`. The
      video step and its tags are written before the channel and the duplicate are
      checked, so they stay written when either check fails; `vid` is the video the
      first step settled on. */
  method Create(db: Db, user: Id, video: VideoData, bookmark: BookmarkData, now: int)
    returns (r: Result<Id, ApiError>, vid: Option<Id>)
    requires db.Valid() && user in db.users
    modifies db`videos, db`tags, db`nextId, db`bookmarks
    ensures db.Valid()
    ensures vid.None? <==> |WithSource(old(db.videos), video.sourceUrl)| >= 2
    ensures vid.None? ==>
      r.Err? && r.error.status == 500 && db.videos == old(db.videos) && db.tags == old(db.tags)
      && db.bookmarks == old(db.bookmarks)
    ensures vid.Some? ==>
      (vid.value in db.videos
       && Carries(db.tags, db.videos[vid.value].tags, NormalizedNames(video.tags))
       && db.videos[vid.value].sourceUrl == Some(video.sourceUrl))
    ensures vid.Some? && vid.value in old(db.videos) ==>
      WithSource(old(db.videos), video.sourceUrl) == {vid.value}
      && db.videos == old(db.videos)[vid.value := old(db.videos)[vid.value].(tags := db.videos[vid.value].tags)]
    ensures vid.Some? && vid.value !in old(db.videos) ==>
      WithSource(old(db.videos), video.sourceUrl) == {}
      && db.videos == old(db.videos)[vid.value := NewVideo(Some(video.sourceUrl), video.title, Some(video.thumbnailUrl),
                                                           Some(video.embedUrl), Some(video.orientation), Some(user), now)
                                                    .(tags := db.videos[vid.value].tags)]
    ensures vid.Some? && bookmark.channelId !in db.channels ==>
      r.Err? && r.error.status == 500 && db.bookmarks == old(db.bookmarks)
    ensures (vid.Some? && bookmark.channelId in db.channels
             && Bookmarked(old(db.bookmarks), user, bookmark.channelId, vid.value)) ==>
      r == Err(ApiError(400, "You have already bookmarked this video in this channel.")) && db.bookmarks == old(db.bookmarks)
    ensures (vid.Some? && bookmark.channelId in db.channels
             && !Bookmarked(old(db.bookmarks), user, bookmark.channelId, vid.value)) ==> r.Ok?
    ensures r.Ok? ==>
      (vid.Some? && !Bookmarked(old(db.bookmarks), user, bookmark.channelId, vid.value)
       && Inserted(old(db.bookmarks), db.bookmarks, r.value)
       && db.bookmarks[r.value] == Bookmark(user, bookmark.channelId, vid.value, "", Some(bookmark.description),
                                            bookmark.access, db.bookmarks[r.value].tags, now)
       && Carries(db.tags, db.bookmarks[r.value].tags, NormalizedNames(bookmark.tags)))
    ensures GrowsBy(old(db.tags), db.tags, NormalizedNames(video.tags) + NormalizedNames(bookmark.tags))
  {
    vid := None;
    var got := TaggedVideo(db, user, video, now);
    if got.Err? {
      return Err(got.error), None;
    }
    var v := got.value;
    vid := Some(v);
    ghost var tagsMid := db.tags;
    r := AddBookmark(db, user, v, bookmark, now);
    NamesOfKept(tagsMid, db.tags, db.videos[v].tags);
    GrowsByTrans(old(db.tags), tagsMid, db.tags, NormalizedNames(video.tags), NormalizedNames(bookmark.tags));
  }

  /** Two rounds of growth grow by the names of both. */
  lemma GrowsByTrans(a: map<Id, string>, b: map<Id, string>, c: map<Id, string>, first: seq<string>, second: seq<string>)
    requires GrowsBy(a, b, first) && GrowsBy(b, c, second)
    ensures GrowsBy(a, c, first + second)
  {
  }
}
