/** The users-app serializers: the bookmark create of the plain bookmark endpoint,
    and the profile serializer's partial update, collection list and avatar URL. */
module UserSerializers {
  import opened Wrappers
  import opened Text
  import opened Seqs
  import opened UsersModels
  import opened OperationsModels
  import opened Store
  import opened OperationsUtils
  import opened ManualBookmark
  import opened UsersViews

  // ---------------------------------------------------------------- BookmarkSerializer.create

  /** The request body of the bookmark create endpoint. `channel` and `collection` may
      be absent or null; the character fields arrive as sent. */
  datatype BookmarkInput = BookmarkInput(
    title: string,
    description: Option<string>,
    video: Option<Id>,
    channel: Option<Id>,
    collection: Option<Id>,
    tags: seq<string>)

  const InvalidInput := ApiError(400, "Invalid input.")
  const ChannelNull := ApiError(500, "IntegrityError: NOT NULL constraint failed: channel_id")
  const DuplicateBookmark := ApiError(500, "IntegrityError: duplicate (user, channel, video) bookmark.")

  /** The field validation the serializer runs before `create`: the title must not
      be blank once trimmed, the video must be given and exist, a given channel or
      collection must exist, and no tag name may be blank once trimmed. */
  function InputError(input: BookmarkInput, videos: set<Id>, channels: set<Id>, collections: set<Id>): (e: Option<ApiError>)
    ensures e.None? <==>
      Strip(input.title) != "" && input.video.Some? && input.video.value in videos
      && (input.channel.Some? ==> input.channel.value in channels)
      && (input.collection.Some? ==> input.collection.value in collections)
      && (forall k :: 0 <= k < |input.tags| ==> Strip(input.tags[k]) != "")
    ensures e.Some? ==> e.value.status == 400
  {
    if Strip(input.title) == "" || input.video.None? || input.video.value !in videos
       || (input.channel.Some? && input.channel.value !in channels)
       || (input.collection.Some? && input.collection.value !in collections)
       || (exists k :: 0 <= k < |input.tags| && Strip(input.tags[k]) == "")
    then Some(InvalidInput)
    else None
  }

  /** How the insert of a validated input fails, if it does: a missing channel is
      written as NULL into a NOT NULL column, and a second bookmark of the same
      video in the same channel breaks the unique constraint. Neither is caught. */
  function InsertError(input: BookmarkInput, bookmarks: map<Id, Bookmark>, user: Id): (e: Option<ApiError>)
    requires input.video.Some?
    ensures e.None? <==> input.channel.Some? && !Bookmarked(bookmarks, user, input.channel.value, input.video.value)
    ensures e.Some? ==> e.value.status == 500
  {
    if input.channel.None? then Some(ChannelNull)
    else if Bookmarked(bookmarks, user, input.channel.value, input.video.value) then Some(DuplicateBookmark)
    else None
  }

  /** The names as the serializer's character fields hand them over: trimmed. */
  function TrimmedNames(names: seq<string>): (r: seq<string>)
    ensures |r| == |names|
    ensures forall k :: 0 <= k < |r| ==> r[k] == Strip(names[k])
  {
    seq(|names|, k requires 0 <= k < |names| => Strip(names[k]))
  }

  /** The row `super().create` writes: the trimmed title and description, the
      default access, no tags yet; the collection is dropped. The serializer does
      not list `access` among its fields, so a created bookmark always gets the
      model's default, one of the field's choices. */
  function NewRow(input: BookmarkInput, user: Id, now: int): (b: Bookmark)
    requires input.video.Some? && input.channel.Some?
    ensures b.access == DefaultAccess && b.access in AccessChoices
    ensures b.user == user && b.channel == input.channel.value && b.video == input.video.value
    ensures b.title == Strip(input.title) && b.tags == {} && b.createdAt == now
  {
    Bookmark(user, input.channel.value, input.video.value, Strip(input.title),
             if input.description.Some? then Some(Strip(input.description.value)) else None,
             DefaultAccess, {}, now)
  }

  const DuplicateTagName := ApiError(500, "IntegrityError: duplicate tag name")

  /** Rewriting a name a second time changes nothing. */
  lemma SavedNameIdempotent(name: string)
    ensures SavedName(SavedName(name)) == SavedName(name)
  {
    NormalizeMatchesSave(name);
    NormalizeMatchesSave(SavedName(name));
    NormalizeIdempotent(name);
  }

  /** The name of the tag get_or_create on `name` settles on, read in the tag table
      the loop leaves: the name itself when some tag has it, else its rewritten form. */
  function RawPick(tags: map<Id, string>, name: string): string
  {
    if name in tags.Values then name else SavedName(name)
  }

  /** The names the loop as written has stored after the rounds for `done`, starting
      from the names `vals`: the rewritten form of each name it did not find. */
  function Created(vals: set<string>, done: seq<string>): set<string>
  {
    set j | 0 <= j < |done| && done[j] !in vals :: SavedName(done[j])
  }

  /** The round for `name`, after the rounds for `done`, fails: the lookup of the name
      as given misses, and the insert of its rewritten form hits the unique name. */
  predicate RawFails(vals: set<string>, done: seq<string>, name: string)
  {
    var current := vals + Created(vals, done);
    name !in current && SavedName(name) in current
  }

  /** `ids` holds, position by position, the tags get_or_create returned for `names`. */
  ghost predicate HoldsRaw(tags: map<Id, string>, ids: seq<Id>, names: seq<string>)
  {
    |ids| == |names|
    && forall k :: 0 <= k < |ids| ==> ids[k] in tags && tags[ids[k]] == RawPick(tags, names[k])
  }

  /** A name `Created` holds is its own rewritten form. */
  lemma CreatedFixed(vals: set<string>, done: seq<string>, x: string)
    requires x in Created(vals, done)
    ensures SavedName(x) == x
  {
    var j :| 0 <= j < |done| && done[j] !in vals && x == SavedName(done[j]);
    SavedNameIdempotent(done[j]);
  }

  /** One more round of `Created`. */
  lemma {:induction false} CreatedSnoc(vals: set<string>, done: seq<string>, n: string)
    ensures Created(vals, done + [n]) == Created(vals, done) + (if n !in vals then {SavedName(n)} else {})
  {
    var d := done + [n];
    forall x | x in Created(vals, d) ensures x in Created(vals, done) || (n !in vals && x == SavedName(n)) {
      var j :| 0 <= j < |d| && d[j] !in vals && x == SavedName(d[j]);
      if j < |done| {
        assert d[j] == done[j];
      }
    }
    forall x | x in Created(vals, done) ensures x in Created(vals, d) {
      var j :| 0 <= j < |done| && done[j] !in vals && x == SavedName(done[j]);
      assert d[j] == done[j];
    }
    if n !in vals {
      assert d[|done|] == n;
    }
  }

  /** A new tag under a rewritten name leaves every earlier pick where it was. */
  lemma {:induction false} HoldsRawGrows(tags: map<Id, string>, ids: seq<Id>, names: seq<string>, id: Id, saved: string)
    requires HoldsRaw(tags, ids, names) && id !in tags && saved !in tags.Values && SavedName(saved) == saved
    ensures HoldsRaw(tags[id := saved], ids, names)
  {
    var after := tags[id := saved];
    forall k | 0 <= k < |ids| ensures ids[k] in after && after[ids[k]] == RawPick(after, names[k]) {
      assert after[ids[k]] == tags[ids[k]];
      assert tags[ids[k]] in tags.Values;
    }
  }

  /** The round that finds no tag and stores the rewritten name under `id`. */
  lemma {:induction false} CreatedRound(before: set<string>, tags: map<Id, string>, ids: seq<Id>, done: seq<string>,
                                        n: string, id: Id)
    requires HoldsRaw(tags, ids, done) && tags.Values == before + Created(before, done)
    requires id !in tags && n !in tags.Values && SavedName(n) !in tags.Values
    ensures HoldsRaw(tags[id := SavedName(n)], ids + [id], done + [n])
    ensures tags[id := SavedName(n)].Values == before + Created(before, done + [n])
  {
    var after := tags[id := SavedName(n)];
    SavedNameIdempotent(n);
    HoldsRawGrows(tags, ids, done, id, SavedName(n));
    CreatedSnoc(before, done, n);
    ValuesOfInsert(tags, id, SavedName(n));
    PickOfInsert(tags, id, n);
    HoldsRawSnoc(after, ids, done, id, n);
  }

  /** The tag stored under the rewritten name of a name not found is that name's pick. */
  lemma {:induction false} PickOfInsert(tags: map<Id, string>, id: Id, n: string)
    requires id !in tags && n !in tags.Values
    ensures tags[id := SavedName(n)][id] == RawPick(tags[id := SavedName(n)], n)
  {
    ValuesOfInsert(tags, id, SavedName(n));
  }

  /** Storing a value under a new key adds exactly that value. */
  lemma {:induction false} ValuesOfInsert(tags: map<Id, string>, id: Id, v: string)
    requires id !in tags
    ensures tags[id := v].Values == tags.Values + {v}
  {
    var after := tags[id := v];
    forall x | x in after.Values ensures x in tags.Values || x == v {
      var t :| t in after && after[t] == x;
    }
    forall x | x in tags.Values ensures x in after.Values {
      var t :| t in tags && tags[t] == x;
      assert after[t] == x;
    }
    assert after[id] == v;
  }

  /** The round that finds a tag `t` under the name as given. */
  lemma {:induction false} FoundRound(before: set<string>, tags: map<Id, string>, ids: seq<Id>, done: seq<string>,
                                      n: string, t: Id)
    requires HoldsRaw(tags, ids, done) && tags.Values == before + Created(before, done)
    requires t in tags && tags[t] == n
    ensures HoldsRaw(tags, ids + [t], done + [n])
    ensures tags.Values == before + Created(before, done + [n])
  {
    assert n in tags.Values;
    FoundKeepsCreated(before, done, n);
    HoldsRawSnoc(tags, ids, done, t, n);
  }

  /** Finding a name already stored adds nothing to `Created`. */
  lemma {:induction false} FoundKeepsCreated(before: set<string>, done: seq<string>, n: string)
    requires n in before + Created(before, done)
    ensures Created(before, done + [n]) == Created(before, done)
  {
    CreatedSnoc(before, done, n);
    if n !in before {
      CreatedFixed(before, done, n);
    }
  }

  /** One more pick at the end. */
  lemma {:induction false} HoldsRawSnoc(tags: map<Id, string>, ids: seq<Id>, names: seq<string>, t: Id, n: string)
    requires HoldsRaw(tags, ids, names) && t in tags && tags[t] == RawPick(tags, n)
    ensures HoldsRaw(tags, ids + [t], names + [n])
  {
    var ids', names' := ids + [t], names + [n];
    forall k | 0 <= k < |ids'| ensures ids'[k] in tags && tags[ids'[k]] == RawPick(tags, names'[k]) {
      if k < |ids| {
        assert ids'[k] == ids[k] && names'[k] == names[k];
      }
    }
  }

  /** One round of the loop as written: get_or_create on the name as given. It fails
      exactly when `RawFails` says, and otherwise records the tag it settled on. */
  method RawAppend(db: Db, ghost vals: set<string>, ids: seq<Id>, ghost done: seq<string>, n: string)
    returns (r: Result<seq<Id>, ApiError>)
    requires db.Valid() && HoldsRaw(db.tags, ids, done)
    requires db.tags.Values == vals + Created(vals, done)
    modifies db`tags, db`nextId
    ensures db.Valid() && Retains(old(db.tags), db.tags)
    ensures r.Err? <==> RawFails(vals, done, n)
    ensures r.Err? ==> r.error == DuplicateTagName && db.tags == old(db.tags)
    ensures r.Ok? ==> HoldsRaw(db.tags, r.value, done + [n])
    ensures r.Ok? ==> db.tags.Values == vals + Created(vals, done + [n])
  {
    ghost var tags0 := db.tags;
    var t := GetOrCreateTag(db, n);
    if t.Err? {
      return Err(t.error);
    }
    if t.value in tags0 {
      FoundRound(vals, tags0, ids, done, n, t.value);
    } else {
      CreatedRound(vals, tags0, ids, done, n, t.value);
    }
    r := Ok(ids + [t.value]);
  }

  /** With unique names the tags `ids` picked are exactly the tags whose name is the
      pick of some name. */
  lemma {:induction false} HoldsRawExact(tags: map<Id, string>, ids: seq<Id>, names: seq<string>)
    requires HoldsRaw(tags, ids, names) && NamesUnique(tags)
    ensures Elems(ids) <= tags.Keys
    ensures forall t :: t in Elems(ids) <==> t in tags && exists k :: 0 <= k < |names| && tags[t] == RawPick(tags, names[k])
  {
    forall t | t in tags && (exists k :: 0 <= k < |names| && tags[t] == RawPick(tags, names[k])) ensures t in Elems(ids) {
      var k :| 0 <= k < |names| && tags[t] == RawPick(tags, names[k]);
      assert tags[ids[k]] == tags[t];
      assert ids[k] in Elems(ids);
    }
    forall t | t in Elems(ids) ensures t in tags && exists k :: 0 <= k < |names| && tags[t] == RawPick(tags, names[k]) {
      var k :| 0 <= k < |ids| && ids[k] == t;
    }
  }

  lemma RetainsTrans(a: map<Id, string>, b: map<Id, string>, c: map<Id, string>)
    requires Retains(a, b) && Retains(b, c)
    ensures Retains(a, c)
  {
  }

  /** No round before round `i` fails. */
  ghost predicate NoRawFailBefore(vals: set<string>, names: seq<string>, i: int)
    requires 0 <= i <= |names|
  {
    forall k :: 0 <= k < i ==> !RawFails(vals, names[..k], names[k])
  }

  lemma NoRawFailSnoc(vals: set<string>, names: seq<string>, i: int)
    requires 0 <= i < |names| && NoRawFailBefore(vals, names, i) && !RawFails(vals, names[..i], names[i])
    ensures NoRawFailBefore(vals, names, i + 1)
  {
  }

  /** The loop as written after `i` rounds that all succeeded, starting from the tag
      table `tags0` whose names are `vals`: no old tag changed, the names stored are
      the old ones and those the rounds created, and `ids` holds each round's tag. */
  ghost predicate RoundsDone(vals: set<string>, tags0: map<Id, string>, tags: map<Id, string>,
                             ids: seq<Id>, names: seq<string>, i: int)
  {
    0 <= i <= |names|
    && Retains(tags0, tags)
    && tags.Values == vals + Created(vals, names[..i])
    && HoldsRaw(tags, ids, names[..i])
    && NoRawFailBefore(vals, names, i)
  }

  /** Round `i` of the loop as written. */
  method RawStep(db: Db, ghost vals: set<string>, ghost tags0: map<Id, string>, ids: seq<Id>,
                 names: seq<string>, i: int) returns (r: Result<seq<Id>, ApiError>)
    requires db.Valid() && i < |names| && RoundsDone(vals, tags0, db.tags, ids, names, i)
    modifies db`tags, db`nextId
    ensures db.Valid() && Retains(tags0, db.tags)
    ensures r.Err? <==> RawFails(vals, names[..i], names[i])
    ensures r.Err? ==> r.error == DuplicateTagName
    ensures r.Ok? ==> RoundsDone(vals, tags0, db.tags, r.value, names, i + 1)
  {
    assert names[..i + 1] == names[..i] + [names[i]];
    ghost var prev := db.tags;
    r := RawAppend(db, vals, ids, names[..i], names[i]);
    RetainsTrans(tags0, prev, db.tags);
    if r.Ok? {
      NoRawFailSnoc(vals, names, i);
    }
  }

  /** The rounds of the loop as written: one `Tag.objects.get_or_create(name=...)`
      per name, on the name as given, until the first round that fails. */
  method RawRounds(db: Db, names: seq<string>) returns (r: Result<seq<Id>, ApiError>)
    requires db.Valid()
    modifies db`tags, db`nextId
    ensures db.Valid()
    ensures Retains(old(db.tags), db.tags)
    ensures r.Err? <==> !NoRawFailBefore(old(db.tags).Values, names, |names|)
    ensures r.Err? ==> r.error == DuplicateTagName
    ensures r.Ok? ==> HoldsRaw(db.tags, r.value, names)
  {
    ghost var tags0 := db.tags;
    ghost var vals := tags0.Values;
    var ids: seq<Id> := [];
    RoundsStart(tags0, names);
    for i := 0 to |names|
      invariant db.Valid() && RoundsDone(vals, tags0, db.tags, ids, names, i)
    {
      var t := RawStep(db, vals, tags0, ids, names, i);
      if t.Err? {
        RawFailEnds(vals, names, i);
        return Err(t.error);
      }
      ids := t.value;
    }
    RoundsEnd(vals, tags0, db.tags, ids, names);
    r := Ok(ids);
  }

  /** Before the first round nothing is done. */
  lemma RoundsStart(tags0: map<Id, string>, names: seq<string>)
    ensures RoundsDone(tags0.Values, tags0, tags0, [], names, 0)
  {
    assert names[..0] == [];
    assert Created(tags0.Values, []) == {};
  }

  /** After the last round every name has its tag. */
  lemma RoundsEnd(vals: set<string>, tags0: map<Id, string>, tags: map<Id, string>, ids: seq<Id>, names: seq<string>)
    requires RoundsDone(vals, tags0, tags, ids, names, |names|)
    ensures HoldsRaw(tags, ids, names) && NoRawFailBefore(vals, names, |names|)
  {
    assert names[..|names|] == names;
  }

  /** A failing round `i` means not every round succeeds. */
  lemma RawFailEnds(vals: set<string>, names: seq<string>, i: int)
    requires 0 <= i < |names| && RawFails(vals, names[..i], names[i])
    ensures !NoRawFailBefore(vals, names, |names|)
  {
  }

  /** The tag loop as written. The first failing round ends the request and the
      bookmark inserted before the loop stays without tags; when no round fails the
      bookmark's tags become exactly the tags the rounds settled on. */
  method RawTags(db: Db, bookmark: Id, names: seq<string>) returns (r: Option<ApiError>)
    requires db.Valid() && bookmark in db.bookmarks
    modifies db`bookmarks, db`tags, db`nextId
    ensures db.Valid()
    ensures Retains(old(db.tags), db.tags)
    ensures bookmark in db.bookmarks
    ensures db.bookmarks == old(db.bookmarks)[bookmark := old(db.bookmarks)[bookmark].(tags := db.bookmarks[bookmark].tags)]
    ensures r.Some? <==> exists k :: 0 <= k < |names| && RawFails(old(db.tags).Values, names[..k], names[k])
    ensures r.Some? ==> r == Some(DuplicateTagName) && db.bookmarks == old(db.bookmarks)
    ensures r.None? ==> forall t :: t in db.bookmarks[bookmark].tags <==>
      t in db.tags && exists k :: 0 <= k < |names| && db.tags[t] == RawPick(db.tags, names[k])
  {
    var ids := RawRounds(db, names);
    if ids.Err? {
      return Some(ids.error);
    }
    HoldsRawExact(db.tags, ids.value, names);
    RetagBookmark(db, bookmark, Elems(ids.value));
    r := None;
  }

  /** A plain instance of a failing round: two names not yet stored, neither in its
      rewritten form, that rewrite alike (such as "My Tag" and "my tag"). The later
      one fails whatever comes between them. */
  lemma {:induction false} RawNamesClash(vals: set<string>, names: seq<string>, j: int, k: int)
    requires 0 <= j < k < |names| && names[j] !in vals && names[k] !in vals
    requires SavedName(names[k]) != names[k] && SavedName(names[j]) == SavedName(names[k])
    ensures RawFails(vals, names[..k], names[k])
  {
    assert names[..k][j] == names[j];
    assert SavedName(names[k]) in Created(vals, names[..k]);
    if names[k] in Created(vals, names[..k]) {
      CreatedFixed(vals, names[..k], names[k]);
    }
  }

  /** A row inserted and then given other tags is still the one new row, equal to
      what was inserted but for its tags. */
  lemma Retagged(before: map<Id, Bookmark>, inserted: map<Id, Bookmark>, after: map<Id, Bookmark>,
                 id: Id, b: Bookmark)
    requires Inserted(before, inserted, id) && inserted[id] == b
    requires id in after && after == inserted[id := inserted[id].(tags := after[id].tags)]
    ensures Inserted(before, after, id) && after[id] == b.(tags := after[id].tags)
  {
  }

  /** `BookmarkSerializer.create` as written, called with `user=request.user`. `row`
      is the bookmark the insert wrote, which stays, without tags, when a round of
      the tag loop fails. */
  method CreateBookmarkAsWritten(db: Db, user: Id, input: BookmarkInput, now: int)
    returns (r: Result<Id, ApiError>, row: Option<Id>)
    requires db.Valid() && user in db.users
    modifies db`bookmarks, db`tags, db`nextId
    ensures db.Valid()
    ensures Retains(old(db.tags), db.tags)
    ensures InputError(input, db.videos.Keys, db.channels.Keys, db.collections.Keys).Some? ==>
      r == Err(InvalidInput) && row.None?
    ensures row.None? ==> db.bookmarks == old(db.bookmarks) && db.tags == old(db.tags)
    ensures InputError(input, db.videos.Keys, db.channels.Keys, db.collections.Keys).None? ==>
      (row.None? <==> InsertError(input, old(db.bookmarks), user).Some?)
      && (row.None? ==> r == Err(InsertError(input, old(db.bookmarks), user).value))
    ensures row.Some? ==>
      Inserted(old(db.bookmarks), db.bookmarks, row.value)
      && db.bookmarks[row.value] == NewRow(input, user, now).(tags := db.bookmarks[row.value].tags)
    ensures row.Some? ==>
      (r.Err? <==> exists k :: 0 <= k < |input.tags|
                     && RawFails(old(db.tags).Values, TrimmedNames(input.tags)[..k], TrimmedNames(input.tags)[k]))
    ensures row.Some? && r.Err? ==> r == Err(DuplicateTagName) && db.bookmarks[row.value] == NewRow(input, user, now)
    ensures r.Ok? ==> row == Some(r.value)
    ensures r.Ok? ==> forall t :: t in db.bookmarks[r.value].tags <==>
      t in db.tags && exists k :: 0 <= k < |input.tags| && db.tags[t] == RawPick(db.tags, TrimmedNames(input.tags)[k])
  {
    row := None;
    var e := InputError(input, db.videos.Keys, db.channels.Keys, db.collections.Keys);
    if e.Some? {
      return Err(e.value), None;
    }
    var ie := InsertError(input, db.bookmarks, user);
    if ie.Some? {
      return Err(ie.value), None;
    }
    var id := db.InsertBookmark(NewRow(input, user, now));
    ghost var inserted := db.bookmarks;
    row := Some(id);
    var t := RawTags(db, id, TrimmedNames(input.tags));
    Retagged(old(db.bookmarks), inserted, db.bookmarks, id, NewRow(input, user, now));
    if t.Some? {
      return Err(t.value), row;
    }
    r := Ok(id);
  }

  /** `Tag.save` rewrites a name holding a space: the stored name has none. */
  lemma SpacedNameRewritten(name: string)
    requires ' ' in name
    ensures ' ' !in SavedName(name) && SavedName(name) != name
  {
  }

  /** The lookup of get_or_create uses the name as given while the insert stores
      the rewritten name. Take a name with a space, such as "My Tag": on an empty
      tag table it is created under its rewritten name ("mytag"); once that tag
      exists, get_or_create finds nothing by the given name and its insert is
      refused, so a request naming it twice, or naming it after another bookmark
      did, fails. */
  lemma RawNameCollides(name: string)
    requires ' ' in name
    ensures GetOrCreateTagResult(map[], name, 1) == Ok(1)
    ensures GetOrCreateTagResult(map[1 := SavedName(name)], name, 2).Err?
  {
    SpacedNameRewritten(name);
    var tags := map[1 := SavedName(name)];
    assert name !in tags.Values;
  }

  /** `BookmarkSerializer.create` with its tags resolved through
      `create_or_get_tags`, which never fails: the request then succeeds exactly
      when validation and the insert do, and the bookmark carries one tag per
      distinct normalised name. */
  method CreateBookmark(db: Db, user: Id, input: BookmarkInput, now: int) returns (r: Result<Id, ApiError>)
    requires db.Valid() && user in db.users
    modifies db`bookmarks, db`tags, db`nextId
    ensures db.Valid()
    ensures GrowsBy(old(db.tags), db.tags, NormalizedNames(TrimmedNames(input.tags)))
    ensures r.Err? <==>
      InputError(input, db.videos.Keys, db.channels.Keys, db.collections.Keys).Some?
      || InsertError(input, old(db.bookmarks), user).Some?
    ensures r.Err? ==> db.bookmarks == old(db.bookmarks) && db.tags == old(db.tags)
    ensures r.Ok? ==>
      Inserted(old(db.bookmarks), db.bookmarks, r.value)
      && db.bookmarks[r.value] == NewRow(input, user, now).(tags := db.bookmarks[r.value].tags)
      && Carries(db.tags, db.bookmarks[r.value].tags, NormalizedNames(TrimmedNames(input.tags)))
  {
    var e := InputError(input, db.videos.Keys, db.channels.Keys, db.collections.Keys);
    if e.Some? {
      return Err(e.value);
    }
    var ie := InsertError(input, db.bookmarks, user);
    if ie.Some? {
      return Err(ie.value);
    }
    var id := db.InsertBookmark(NewRow(input, user, now));
    SetBookmarkTags(db, id, TrimmedNames(input.tags));
    r := Ok(id);
  }

  // ---------------------------------------------------------------- UserProfileDetailSerializer

  /** The profile after `update`: a given avatar replaces the stored one, a given bio
      (trimmed, as the character field hands it over) replaces the stored one; an
      absent or null value leaves its field alone. */
  function Patched(p: Profile, bio: Option<string>, avatar: Option<string>): (q: Profile)
    ensures bio.None? ==> q.bio == p.bio
    ensures avatar.None? ==> q.avatar == p.avatar
    ensures avatar.Some? ==> q.avatar == avatar
    ensures bio.Some? ==> q.bio == Some(Strip(bio.value)) && NoSpaceEnds(q.bio.value)
  {
    Profile(if bio.Some? then Some(Strip(bio.value)) else p.bio,
            if avatar.Some? then avatar else p.avatar)
  }

  predicate NoSpaceEnds(s: string)
  {
    s == [] || (!IsSpace(s[0]) && !IsSpace(s[|s| - 1]))
  }

  /** Applying the same patch twice is applying it once. */
  lemma PatchIdempotent(p: Profile, bio: Option<string>, avatar: Option<string>)
    ensures Patched(Patched(p, bio, avatar), bio, avatar) == Patched(p, bio, avatar)
  {
  }

  /** `update` on the profile of `user`. */
  method UpdateProfile(db: Db, user: Id, bio: Option<string>, avatar: Option<string>)
    requires db.Valid() && user in db.profiles
    modifies db`profiles
    ensures db.Valid()
    ensures db.profiles == old(db.profiles)[user := Patched(old(db.profiles)[user], bio, avatar)]
  {
    var p := db.profiles[user];
    if avatar.Some? {
      p := p.(avatar := avatar);
    }
    if bio.Some? {
      p := p.(bio := Some(Strip(bio.value)));
    }
    db.PutProfile(user, p);
  }

  /** `get_collections`: the list the view attached when there is one, otherwise
      the collections of `user` in `order`, the collection table in its default
      order. */
  function ProfileCollections(prefetched: Option<seq<Id>>, collections: map<Id, Collection>,
                              order: seq<Id>, user: Id): (r: seq<Id>)
    ensures prefetched.Some? ==> r == prefetched.value
    ensures prefetched.None? ==>
      forall c :: c in r <==> c in order && c in collections && collections[c].user == user
    ensures prefetched.None? && NoDup(order) ==> NoDup(r)
  {
    if prefetched.Some? then prefetched.value
    else Filter(order, c => c in collections && collections[c].user == user)
  }

  /** `request.build_absolute_uri(location)`: an absolute URL is kept; a path is
      put after the request's origin. Without a request the location is used as
      it is. */
  function AbsoluteUri(origin: Option<string>, location: string): (r: string)
    ensures EndsWith(r, location)
    ensures HasScheme(location) || origin.None? ==> r == location
    ensures !HasScheme(location) && origin.Some? ==> r == origin.value + location && StartsWith(r, origin.value)
  {
    EndsWithAppended(if origin.Some? then origin.value else "", location);
    if origin.None? || HasScheme(location) then location else origin.value + location
  }

  /** The image served when a profile has no usable avatar. */
  const DefaultAvatar: string := "default.jpg"

  /** `get_avatar_url`: the stored avatar when it has a name and the storage has
      the file, otherwise the default image under the media URL. */
  function AvatarUrl(avatar: Option<string>, fileExists: bool, mediaUrl: string, origin: Option<string>): (r: string)
    ensures Given(avatar) && fileExists ==> r == AbsoluteUri(origin, mediaUrl + avatar.value)
    ensures !(Given(avatar) && fileExists) ==> r == AbsoluteUri(origin, mediaUrl + DefaultAvatar)
  {
    var location := if Given(avatar) && fileExists then mediaUrl + avatar.value else mediaUrl + DefaultAvatar;
    AbsoluteUri(origin, location)
  }

  predicate EndsWith(s: string, suffix: string)
  {
    |suffix| <= |s| && s[|s| - |suffix|..] == suffix
  }

  lemma EndsWithTrans(r: string, location: string, file: string)
    requires EndsWith(r, location) && EndsWith(location, file)
    ensures EndsWith(r, file)
  {
    assert r[|r| - |file|..] == r[|r| - |location|..][|location| - |file|..];
  }

  lemma EndsWithAppended(a: string, b: string)
    ensures EndsWith(a + b, b)
  {
    assert (a + b)[|a + b| - |b|..] == b;
  }

  /** The URL always ends with the file it points at: the avatar's name, or the
      default image when the avatar is missing. */
  lemma AvatarUrlEnds(avatar: Option<string>, fileExists: bool, mediaUrl: string, origin: Option<string>)
    ensures var file := if Given(avatar) && fileExists then avatar.value else DefaultAvatar;
      EndsWith(AvatarUrl(avatar, fileExists, mediaUrl, origin), file)
  {
    var r := AvatarUrl(avatar, fileExists, mediaUrl, origin);
    var file := if Given(avatar) && fileExists then avatar.value else DefaultAvatar;
    EndsWithAppended(mediaUrl, file);
    EndsWithTrans(r, mediaUrl + file, file);
  }
}
