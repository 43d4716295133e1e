/** The database as one object with a field per table. Tables keyed by primary key
    are maps; the two join tables whose rows are just a pair of keys (video likes and
    follows) are sets of pairs, which makes their `unique_together` constraints hold
    by construction. `Valid` gathers the constraints the schema enforces: unique tag
    names, unique (user, channel, video) bookmarks, foreign keys that point at
    existing rows and the non-negative like counter. */
module Store {
  import opened Wrappers
  import opened UsersModels
  import opened OperationsModels

  /** A row of the moderator audit log. */
  datatype AuditEntry = AuditEntry(moderator: Id, action: string, report: Option<Id>, details: string)

  predicate KeysBelow<V>(m: map<Id, V>, n: nat)
  {
    forall k :: k in m ==> k < n
  }

  /** The unique constraint on `Tag.name`. */
  predicate NamesUnique(tags: map<Id, string>)
  {
    forall a, b :: a in tags && b in tags && tags[a] == tags[b] ==> a == b
  }

  predicate SameSlot(x: Bookmark, y: Bookmark)
  {
    x.user == y.user && x.channel == y.channel && x.video == y.video
  }

  /** The `unique_together = ('user', 'channel', 'video')` constraint on bookmarks. */
  predicate BookmarksUnique(bookmarks: map<Id, Bookmark>)
  {
    forall a, b :: a in bookmarks && b in bookmarks && SameSlot(bookmarks[a], bookmarks[b]) ==> a == b
  }

  /** The tag sets of videos and bookmarks hold existing tags only. */
  predicate TagLinks(videos: map<Id, Video>, bookmarks: map<Id, Bookmark>, tags: map<Id, string>)
  {
    (forall v :: v in videos ==> videos[v].tags <= tags.Keys)
    && (forall b :: b in bookmarks ==> bookmarks[b].tags <= tags.Keys)
  }

  predicate BookmarkLinks(bookmarks: map<Id, Bookmark>, users: map<Id, User>,
                          channels: map<Id, Channel>, videos: map<Id, Video>)
  {
    forall b :: b in bookmarks ==>
      bookmarks[b].user in users && bookmarks[b].channel in channels && bookmarks[b].video in videos
  }

  predicate PairLinks(pairs: set<(Id, Id)>, left: set<Id>, right: set<Id>)
  {
    forall p :: p in pairs ==> p.0 in left && p.1 in right
  }

  predicate CountsNonNegative(videos: map<Id, Video>)
  {
    forall v :: v in videos ==> videos[v].likesCount >= 0
  }

  predicate OwnerLinks(users: map<Id, User>, profiles: map<Id, Profile>,
                       collections: map<Id, Collection>, channels: map<Id, Channel>)
  {
    profiles.Keys <= users.Keys
    && (forall c :: c in collections ==> collections[c].user in users)
    && (forall c :: c in channels ==> channels[c].collection in collections)
  }

  predicate ReportLinks(reports: map<Id, Report>, bookmarks: map<Id, Bookmark>,
                        users: map<Id, User>, assignments: map<Id, Id>)
  {
    (forall r :: r in reports ==>
       reports[r].bookmark in bookmarks && (reports[r].user.Some? ==> reports[r].user.value in users))
    && (forall r :: r in assignments ==> r in reports && assignments[r] in users)
  }

  /** Some bookmark of `user` already holds `video` in `channel`. */
  predicate Bookmarked(bookmarks: map<Id, Bookmark>, user: Id, channel: Id, video: Id)
  {
    exists b :: b in bookmarks && bookmarks[b].user == user && bookmarks[b].channel == channel
      && bookmarks[b].video == video
  }

  /** Every row of `before` is still in `after`, unchanged. */
  predicate Retains<V(==)>(before: map<Id, V>, after: map<Id, V>)
  {
    forall k :: k in before ==> k in after && after[k] == before[k]
  }

  /** `after` is `before` with one new row under the fresh key `k`. */
  predicate Inserted<V(==)>(before: map<Id, V>, after: map<Id, V>, k: Id)
  {
    k !in before && k in after && after.Keys == before.Keys + {k}
    && forall x :: x in before ==> after[x] == before[x]
  }

  class Db {
    var users: map<Id, User>
    var profiles: map<Id, Profile>
    var collections: map<Id, Collection>
    var channels: map<Id, Channel>
    var videos: map<Id, Video>
    var tags: map<Id, string>
    var bookmarks: map<Id, Bookmark>
    /** (user, video) pairs of the VideoLike table. */
    var likes: set<(Id, Id)>
    /** (follower, followed) pairs of the Follow table. */
    var follows: set<(Id, Id)>
    var reports: map<Id, Report>
    /** The moderator assigned to a report (a one-to-one key on the report). */
    var assignments: map<Id, Id>
    var auditLog: seq<AuditEntry>
    /** Every key in use is below `nextId`, so `nextId` is free. Keys start at 1, as
        the database's sequences do. */
    var nextId: nat

    ghost predicate Fresh()
      reads this
    {
      KeysBelow(users, nextId) && KeysBelow(profiles, nextId) && KeysBelow(collections, nextId)
      && KeysBelow(channels, nextId) && KeysBelow(videos, nextId) && KeysBelow(tags, nextId)
      && KeysBelow(bookmarks, nextId) && KeysBelow(reports, nextId)
    }

    ghost predicate Valid()
      reads this
    {
      Fresh()
      && NamesUnique(tags)
      && BookmarksUnique(bookmarks)
      && TagLinks(videos, bookmarks, tags)
      && BookmarkLinks(bookmarks, users, channels, videos)
      && PairLinks(likes, users.Keys, videos.Keys)
      && PairLinks(follows, users.Keys, users.Keys)
      && CountsNonNegative(videos)
      && OwnerLinks(users, profiles, collections, channels)
      && ReportLinks(reports, bookmarks, users, assignments)
    }

    constructor ()
      ensures Valid()
      ensures users == map[] && tags == map[] && videos == map[] && bookmarks == map[]
    {
      users, profiles, collections, channels := map[], map[], map[], map[];
      videos, tags, bookmarks, reports, assignments := map[], map[], map[], map[], map[];
      likes, follows := {}, {};
      auditLog := [];
      nextId := 1;
    }

    /** Inserts a user row under a fresh key. */
    method InsertUser(u: User) returns (id: Id)
      requires Valid()
      modifies this`users, this`nextId
      ensures Valid()
      ensures Inserted(old(users), users, id) && users[id] == u
      ensures id !in profiles
    {
      id := NewId();
      users := users[id := u];
    }

    /** Rewrites the row of an existing user. */
    method PutUser(id: Id, u: User)
      requires Valid() && id in users
      modifies this`users
      ensures Valid()
      ensures users == old(users)[id := u]
    {
      users := users[id := u];
    }

    /** Writes the profile row of an existing user. */
    method PutProfile(user: Id, p: Profile)
      requires Valid() && user in users
      modifies this`profiles
      ensures Valid()
      ensures profiles == old(profiles)[user := p]
    {
      profiles := profiles[user := p];
    }

    /** Inserts a bookmark row whose references exist and whose (user, channel,
        video) slot is free, under a fresh key. */
    method InsertBookmark(row: Bookmark) returns (id: Id)
      requires Valid() && row.user in users && row.channel in channels && row.video in videos
      requires row.tags <= tags.Keys && !Bookmarked(bookmarks, row.user, row.channel, row.video)
      modifies this`bookmarks, this`nextId
      ensures Valid()
      ensures Inserted(old(bookmarks), bookmarks, id) && bookmarks[id] == row
    {
      id := NewId();
      bookmarks := bookmarks[id := row];
    }

    /** Assigns `report` to `moderator`, replacing any earlier assignment. */
    method PutAssignment(report: Id, moderator: Id)
      requires Valid() && report in reports && moderator in users
      modifies this`assignments
      ensures Valid()
      ensures assignments == old(assignments)[report := moderator]
    {
      assignments := assignments[report := moderator];
    }

    /** Rewrites report `id` without changing what it points at. */
    method PutReport(id: Id, r: Report)
      requires Valid() && id in reports
      requires r.bookmark == reports[id].bookmark && r.user == reports[id].user
      modifies this`reports
      ensures Valid()
      ensures reports == old(reports)[id := r]
    {
      reports := reports[id := r];
    }

    /** Appends a row to the moderator audit log. */
    method Log(e: AuditEntry)
      requires Valid()
      modifies this`auditLog
      ensures Valid()
      ensures auditLog == old(auditLog) + [e]
    {
      auditLog := auditLog + [e];
    }

    /** A primary key no row uses yet (the database's sequence). */
    method NewId() returns (id: Id)
      requires Valid()
      modifies this`nextId
      ensures Valid()
      ensures id == old(nextId) && nextId == id + 1
      ensures id !in users && id !in profiles && id !in collections && id !in channels
      ensures id !in videos && id !in tags && id !in bookmarks && id !in reports
    {
      id := nextId;
      nextId := nextId + 1;
    }
  }
}
