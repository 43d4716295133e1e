/** The video endpoints: the like toggle, which keeps the cached `likes_count` of a
    video in step with its VideoLike rows, the like status, and the list of users
    who bookmarked a video. */
module VideoViews {
  import opened Wrappers
  import opened Seqs
  import opened UsersModels
  import opened OperationsModels
  import opened Store

  /** The number of VideoLike rows of video `v`. */
  function LikeCount(likes: set<(Id, Id)>, v: Id): nat
  {
    |set p | p in likes && p.1 == v|
  }

  /** The result of a toggle together with the like table and video table it leaves. */
  datatype ToggleOutcome = ToggleOutcome(
    result: Result<(bool, int), ApiError>,
    likes: set<(Id, Id)>,
    videos: map<Id, Video>)

  /** What the like toggle does: an unknown video is a 404 and nothing changes; an
      existing like is deleted and the counter goes down by one; otherwise a like is
      created and the counter goes up by one. The counter column is a positive integer
      field, so a decrement below zero is refused by the database when the video is
      saved (a 500), after the like row is already gone. */
  function ToggleLikeSpec(likes: set<(Id, Id)>, videos: map<Id, Video>, user: Id, video: Id): (o: ToggleOutcome)
    ensures video !in videos ==> o.result == Err(ApiError(404, "Video not found.")) && o.likes == likes && o.videos == videos
    ensures o.result.Ok? ==> video in videos && o.videos == videos[video := videos[video].(likesCount := o.result.value.1)]
    ensures o.result.Ok? ==> (o.result.value.0 <==> (user, video) in o.likes)
    ensures o.likes - {(user, video)} == likes - {(user, video)}
    ensures o.videos.Keys == videos.Keys
    ensures o.result.Err? ==> o.videos == videos
    ensures video in videos && o.result.Err? ==>
      (user, video) in likes && videos[video].likesCount <= 0 && o.likes == likes - {(user, video)}
  {
    if video !in videos then ToggleOutcome(Err(ApiError(404, "Video not found.")), likes, videos)
    else
      var v := videos[video];
      if (user, video) in likes then
        var count := v.likesCount - 1;
        if count < 0 then ToggleOutcome(Err(ApiError(500, "IntegrityError: likes_count must be non-negative")), likes - {(user, video)}, videos)
        else ToggleOutcome(Ok((false, count)), likes - {(user, video)}, videos[video := v.(likesCount := count)])
      else
        var count := v.likesCount + 1;
        ToggleOutcome(Ok((true, count)), likes + {(user, video)}, videos[video := v.(likesCount := count)])
  }

  /** `VideoLikeToggleView.post`. */
  method ToggleLike(db: Db, user: Id, video: Id) returns (r: Result<(bool, int), ApiError>)
    requires db.Valid() && user in db.users
    modifies db`likes, db`videos
    ensures db.Valid()
    ensures var o := ToggleLikeSpec(old(db.likes), old(db.videos), user, video);
      r == o.result && db.likes == o.likes && db.videos == o.videos
  {
    if video !in db.videos {
      return Err(ApiError(404, "Video not found."));
    }
    var v := db.videos[video];
    if (user, video) in db.likes {
      db.likes := db.likes - {(user, video)};
      v := v.(likesCount := v.likesCount - 1);
      if v.likesCount < 0 {
        return Err(ApiError(500, "IntegrityError: likes_count must be non-negative"));
      }
      db.videos := db.videos[video := v];
      r := Ok((false, v.likesCount));
    } else {
      db.likes := db.likes + {(user, video)};
      v := v.(likesCount := v.likesCount + 1);
      db.videos := db.videos[video := v];
      r := Ok((true, v.likesCount));
    }
  }

  /** The returned counter is the stored one. */
  lemma ToggleReturnsStoredCount(likes: set<(Id, Id)>, videos: map<Id, Video>, user: Id, video: Id)
    ensures var o := ToggleLikeSpec(likes, videos, user, video);
      o.result.Ok? ==> o.videos[video].likesCount == o.result.value.1
  {
  }

  /** Toggling creates a missing like and deletes an existing one. */
  lemma {:induction false} ToggleFlips(likes: set<(Id, Id)>, videos: map<Id, Video>, user: Id, video: Id)
    requires video in videos
    ensures var o := ToggleLikeSpec(likes, videos, user, video);
      ((user, video) in o.likes <==> (user, video) !in likes)
      && ((user, video) !in likes ==> o.result == Ok((true, videos[video].likesCount + 1)))
      && ((user, video) in likes && videos[video].likesCount >= 1 ==>
            o.result == Ok((false, videos[video].likesCount - 1)))
  {
  }

  lemma {:induction false} LikeCountAdd(likes: set<(Id, Id)>, user: Id, video: Id, v: Id)
    requires (user, video) !in likes
    ensures LikeCount(likes + {(user, video)}, v) == LikeCount(likes, v) + (if v == video then 1 else 0)
  {
    var before := set p | p in likes && p.1 == v;
    var after := set p | p in likes + {(user, video)} && p.1 == v;
    if v == video {
      assert after == before + {(user, video)};
    } else {
      assert after == before;
    }
  }

  /** A counter that agrees with the like rows still agrees after a toggle, and the
      toggle then never fails on the counter. */
  lemma {:induction false} ToggleKeepsCount(likes: set<(Id, Id)>, videos: map<Id, Video>, user: Id, video: Id)
    requires video in videos && videos[video].likesCount == LikeCount(likes, video)
    ensures var o := ToggleLikeSpec(likes, videos, user, video);
      o.result.Ok? && o.videos[video].likesCount == LikeCount(o.likes, video)
  {
    if (user, video) in likes {
      var rest := likes - {(user, video)};
      assert likes == rest + {(user, video)};
      LikeCountAdd(rest, user, video, video);
    } else {
      LikeCountAdd(likes, user, video, video);
    }
  }

  /** Two toggles in a row by the same user, the first of which succeeds, restore
      both the like rows and the counter (counters are never negative in the
      store). */
  lemma {:induction false} ToggleTwiceRestores(likes: set<(Id, Id)>, videos: map<Id, Video>, user: Id, video: Id)
    requires CountsNonNegative(videos)
    requires ToggleLikeSpec(likes, videos, user, video).result.Ok?
    ensures var o1 := ToggleLikeSpec(likes, videos, user, video);
      var o2 := ToggleLikeSpec(o1.likes, o1.videos, user, video);
      o2.result.Ok? && o2.likes == likes && o2.videos == videos
  {
    var o1 := ToggleLikeSpec(likes, videos, user, video);
    var o2 := ToggleLikeSpec(o1.likes, o1.videos, user, video);
    var v := videos[video];
    if (user, video) in likes {
      assert o1.videos[video] == v.(likesCount := v.likesCount - 1);
      assert (user, video) !in o1.likes;
      assert o2.videos[video] == v;
      assert o2.likes == likes;
    } else {
      assert o1.videos[video] == v.(likesCount := v.likesCount + 1);
      assert (user, video) in o1.likes;
      var w := o1.videos[video];
      assert o2.result == Ok((false, v.likesCount));
      assert w.(likesCount := v.likesCount) == v;
      assert o2.videos[video] == o1.videos[video := w.(likesCount := v.likesCount)][video];
      assert o2.likes == likes;
    }
    assert o2.videos == videos;
  }

  /** `VideoLikeStatusView.get`: 404 for an unknown video, otherwise whether the
      user's like row exists. */
  function LikeStatus(likes: set<(Id, Id)>, videos: map<Id, Video>, user: Id, video: Id): (r: Result<bool, ApiError>)
    ensures r.Err? <==> video !in videos
    ensures r.Err? ==> r.error.status == 404
    ensures r.Ok? ==> (r.value <==> (user, video) in likes)
  {
    if video !in videos then Err(ApiError(404, "Video not found"))
    else Ok((user, video) in likes)
  }

  /** After a successful toggle the status endpoint reports what the toggle returned. */
  lemma {:induction false} StatusAfterToggle(likes: set<(Id, Id)>, videos: map<Id, Video>, user: Id, video: Id)
    requires ToggleLikeSpec(likes, videos, user, video).result.Ok?
    ensures var o := ToggleLikeSpec(likes, videos, user, video);
      LikeStatus(o.likes, o.videos, user, video) == Ok(o.result.value.0)
  {
    var o := ToggleLikeSpec(likes, videos, user, video);
    assert video in o.videos;
  }

  /** The keys of the bookmarks of video `video`, in the order of `order`. */
  function BookmarksOf(order: seq<Id>, bookmarks: map<Id, Bookmark>, video: Id): (r: seq<Id>)
    ensures forall b :: b in r <==> b in order && b in bookmarks && bookmarks[b].video == video
    ensures NoDup(order) ==> NoDup(r)
  {
    Filter(order, b => b in bookmarks && bookmarks[b].video == video)
  }

  /** The keys of the bookmarks of video `video`. */
  function BookmarkKeysOf(bookmarks: map<Id, Bookmark>, video: Id): set<Id>
  {
    set b | b in bookmarks && bookmarks[b].video == video
  }

  /** `u` owns some bookmark of video `video`. */
  predicate BookmarkedBy(bookmarks: map<Id, Bookmark>, users: map<Id, User>, video: Id, u: User)
  {
    exists b :: b in bookmarks && bookmarks[b].video == video && bookmarks[b].user in users
      && users[bookmarks[b].user] == u
  }

  /** `UsersWhoBookmarkedView.get`: the owner of each bookmark of the video, one entry
      per bookmark (a user with two such bookmarks appears twice). `order` is the
      enumeration the database returns the bookmark rows in. */
  function UsersWhoBookmarked(order: seq<Id>, bookmarks: map<Id, Bookmark>, users: map<Id, User>, video: Id): (r: seq<User>)
    requires forall b :: b in bookmarks ==> bookmarks[b].user in users
    ensures |r| == |BookmarksOf(order, bookmarks, video)|
    ensures forall k :: 0 <= k < |r| ==> BookmarkedBy(bookmarks, users, video, r[k])
    ensures forall k :: 0 <= k < |r| ==>
      var b := BookmarksOf(order, bookmarks, video)[k]; b in bookmarks && r[k] == users[bookmarks[b].user]
  {
    var of := BookmarksOf(order, bookmarks, video);
    var r := seq(|of|, k requires 0 <= k < |of| => users[bookmarks[of[k]].user]);
    assert forall k :: 0 <= k < |r| ==> BookmarkedBy(bookmarks, users, video, r[k]) by {
      forall k | 0 <= k < |r| ensures BookmarkedBy(bookmarks, users, video, r[k]) {
        assert of[k] in of;
      }
    }
    r
  }

  /** Over a duplicate-free enumeration of the bookmark table the list has exactly
      as many entries as the video has bookmarks. */
  lemma {:induction false} UsersWhoBookmarkedCount(order: seq<Id>, bookmarks: map<Id, Bookmark>, users: map<Id, User>, video: Id)
    requires forall b :: b in bookmarks ==> bookmarks[b].user in users
    requires NoDup(order) && forall b :: b in order <==> b in bookmarks
    ensures |UsersWhoBookmarked(order, bookmarks, users, video)| == |BookmarkKeysOf(bookmarks, video)|
  {
    var of := BookmarksOf(order, bookmarks, video);
    NoDupCard(of, BookmarkKeysOf(bookmarks, video));
  }
}
