/** The `post_save` receiver on users: a newly created account gets its profile, a
    collection named after it and one channel in that collection. */
module UserSignals {
  import opened Wrappers
  import opened UsersModels
  import opened Store

  /** A profile as `Profile.objects.create(user=...)` writes it: no bio, no avatar. */
  const DefaultProfile := Profile(None, None)

  function CollectionDescription(username: string): string { username + "'s collection" }

  function ChannelName(username: string): string { username + "'s channel" }

  function ChannelDescription(username: string): string { "Default channel for " + username }

  /** `user` owns some collection. */
  predicate HasCollection(collections: map<Id, Collection>, user: Id)
  {
    exists c :: c in collections && collections[c].user == user
  }

  /** The default collection of a user called `username` and its channel. */
  predicate IsDefaultPair(collections: map<Id, Collection>, channels: map<Id, Channel>,
                          user: Id, username: string, c: Id, ch: Id)
  {
    c in collections && collections[c] == Collection(user, username, Some(CollectionDescription(username)))
    && ch in channels && channels[ch] == Channel(c, ChannelName(username), Some(ChannelDescription(username)))
  }

  /** `Profile.objects.create(user=user)` for a user without one. */
  method AddProfile(db: Db, user: Id)
    requires db.Valid() && user in db.users && user !in db.profiles
    modifies db`profiles
    ensures db.Valid()
    ensures db.profiles == old(db.profiles)[user := DefaultProfile]
  {
    db.PutProfile(user, DefaultProfile);
  }

  /** The two inserts that give `user` a collection named after it and a channel in
      that collection. */
  method AddDefaultCollection(db: Db, user: Id) returns (c: Id, ch: Id)
    requires db.Valid() && user in db.users
    modifies db`collections, db`channels, db`nextId
    ensures db.Valid()
    ensures Inserted(old(db.collections), db.collections, c)
    ensures Inserted(old(db.channels), db.channels, ch)
    ensures IsDefaultPair(db.collections, db.channels, user, db.users[user].username, c, ch)
  {
    var name := db.users[user].username;
    c := db.NewId();
    db.collections := db.collections[c := Collection(user, name, Some(CollectionDescription(name)))];
    ch := db.NewId();
    db.channels := db.channels[ch := Channel(c, ChannelName(name), Some(ChannelDescription(name)))];
  }

  /** `create_user_profile`: nothing unless the save created the user; then the
      profile, the collection and the channel. A second profile for the same user
      violates the one-to-one key (an IntegrityError, before anything is written). */
  method CreateUserProfile(db: Db, user: Id, created: bool) returns (r: Option<ApiError>)
    requires db.Valid() && user in db.users
    modifies db`profiles, db`collections, db`channels, db`nextId
    ensures db.Valid()
    ensures r.Some? <==> created && user in old(db.profiles)
    ensures !created || r.Some? ==>
      db.profiles == old(db.profiles) && db.collections == old(db.collections) && db.channels == old(db.channels)
    ensures created && r.None? ==>
      db.profiles == old(db.profiles)[user := DefaultProfile]
      && exists c, ch :: Inserted(old(db.collections), db.collections, c) && Inserted(old(db.channels), db.channels, ch)
           && IsDefaultPair(db.collections, db.channels, user, db.users[user].username, c, ch)
  {
    r := None;
    if created {
      if user in db.profiles {
        return Some(ApiError(500, "IntegrityError: the user already has a profile."));
      }
      AddProfile(db, user);
      var c, ch := AddDefaultCollection(db, user);
    }
  }
}

/** The `create_missing_profiles` management command. */
module MissingProfilesCommand {
  import opened Wrappers
  import opened Seqs
  import opened UsersModels
  import opened Store
  import opened UserSignals

  /** The users of `order` that have no profile, in that order. */
  function WithoutProfile(order: seq<Id>, profiles: map<Id, Profile>): (r: seq<Id>)
    ensures forall u :: u in r <==> u in order && u !in profiles
    ensures NoDup(order) ==> NoDup(r)
  {
    Filter(order, u => u !in profiles)
  }

  /** The users that have no profile. */
  function ProfileLess(users: map<Id, User>, profiles: map<Id, Profile>): set<Id>
  {
    set u | u in users && u !in profiles
  }

  /** The profiles of `after` are those of `before` plus default ones for `added`. */
  ghost predicate ProfilesAdded(before: map<Id, Profile>, after: map<Id, Profile>, added: seq<Id>)
  {
    Retains(before, after)
    && (forall u :: u in after <==> u in before || u in added)
    && (forall u :: u in after && u !in before ==> after[u] == DefaultProfile)
  }

  /** The collections of `after` that `before` lacks belong to users of `added` who
      had no collection in `original`. */
  ghost predicate CollectionsAdded(before: map<Id, Collection>, after: map<Id, Collection>, added: seq<Id>,
                             original: map<Id, Collection>)
  {
    Retains(before, after)
    && forall c :: c in after && c !in before ==>
         after[c].user in added && !HasCollection(original, after[c].user)
  }

  /** Collections added for other users do not change whether `user` has one. */
  lemma HasCollectionKept(before: map<Id, Collection>, after: map<Id, Collection>, user: Id)
    requires Retains(before, after)
    requires forall c :: c in after && c !in before ==> after[c].user != user
    ensures HasCollection(after, user) <==> HasCollection(before, user)
  {
    if HasCollection(after, user) {
      var c :| c in after && after[c].user == user;
      assert c in before;
    }
    if HasCollection(before, user) {
      var c :| c in before && before[c].user == user;
      assert c in after && after[c].user == user;
    }
  }

  lemma HasCollectionGrows(before: map<Id, Collection>, after: map<Id, Collection>, user: Id)
    requires Retains(before, after) && HasCollection(before, user)
    ensures HasCollection(after, user)
  {
    var c :| c in before && before[c].user == user;
    assert c in after && after[c].user == user;
  }

  lemma ProfilesAddedStep(profiles0: map<Id, Profile>, before: map<Id, Profile>, added: seq<Id>, user: Id)
    requires ProfilesAdded(profiles0, before, added) && user !in before
    ensures ProfilesAdded(profiles0, before[user := DefaultProfile], added + [user])
  {
  }

  lemma CollectionsAddedStep(collections0: map<Id, Collection>, before: map<Id, Collection>,
                             after: map<Id, Collection>, added: seq<Id>, user: Id)
    requires CollectionsAdded(collections0, before, added, collections0)
    requires CollectionsAdded(before, after, [user], before)
    requires HasCollection(before, user) <==> HasCollection(collections0, user)
    ensures CollectionsAdded(collections0, after, added + [user], collections0)
  {
  }

  /** Every user of `added` that had no collection in `original` has its default
      collection and channel. */
  ghost predicate PairsGiven(original: map<Id, Collection>, collections: map<Id, Collection>,
                             channels: map<Id, Channel>, users: map<Id, User>, added: seq<Id>)
  {
    forall u :: u in added && u in users && !HasCollection(original, u) ==>
      exists c, ch :: IsDefaultPair(collections, channels, u, users[u].username, c, ch)
  }

  /** Rows added later leave a default pair in place. */
  lemma DefaultPairKept(c0: map<Id, Collection>, ch0: map<Id, Channel>, c1: map<Id, Collection>, ch1: map<Id, Channel>,
                        user: Id, username: string)
    requires Retains(c0, c1) && Retains(ch0, ch1)
    requires exists c, ch :: IsDefaultPair(c0, ch0, user, username, c, ch)
    ensures exists c, ch :: IsDefaultPair(c1, ch1, user, username, c, ch)
  {
    var c, ch :| IsDefaultPair(c0, ch0, user, username, c, ch);
    assert IsDefaultPair(c1, ch1, user, username, c, ch);
  }

  /** The collections of `c1` that `c0` lacks are default collections of users of
      `added`, at most one per user. */
  ghost predicate NewCollections(c0: map<Id, Collection>, c1: map<Id, Collection>, users: map<Id, User>, added: seq<Id>)
  {
    (forall c :: c in c1 && c !in c0 ==>
       c1[c].user in added && c1[c].user in users
       && c1[c] == Collection(c1[c].user, users[c1[c].user].username, Some(CollectionDescription(users[c1[c].user].username))))
    && (forall a, b :: a in c1 && a !in c0 && b in c1 && b !in c0 && c1[a].user == c1[b].user ==> a == b)
  }

  /** The channels of `ch1` that `ch0` lacks are default channels of collections of
      `c1` that `c0` lacks, at most one per collection. */
  ghost predicate NewChannels(c0: map<Id, Collection>, ch0: map<Id, Channel>, c1: map<Id, Collection>,
                              ch1: map<Id, Channel>, users: map<Id, User>)
  {
    (forall ch :: ch in ch1 && ch !in ch0 ==>
       ch1[ch].collection in c1 && ch1[ch].collection !in c0 && c1[ch1[ch].collection].user in users
       && IsDefaultPair(c1, ch1, c1[ch1[ch].collection].user, users[c1[ch1[ch].collection].user].username,
                        ch1[ch].collection, ch))
    && (forall a, b :: a in ch1 && a !in ch0 && b in ch1 && b !in ch0 && ch1[a].collection == ch1[b].collection ==> a == b)
  }

  /** What the command adds besides profiles: one default collection for some users
      of `added`, and one default channel in each new collection. */
  ghost predicate NewPairs(c0: map<Id, Collection>, ch0: map<Id, Channel>, c1: map<Id, Collection>,
                           ch1: map<Id, Channel>, users: map<Id, User>, added: seq<Id>)
  {
    NewCollections(c0, c1, users, added) && NewChannels(c0, ch0, c1, ch1, users)
  }

  /** One more user's default collection keeps `NewCollections`. */
  lemma {:induction false} NewCollectionsStep(c0: map<Id, Collection>, cb: map<Id, Collection>, c1: map<Id, Collection>,
                                              users: map<Id, User>, added: seq<Id>, user: Id, c: Id)
    requires NewCollections(c0, cb, users, added) && Retains(c0, cb)
    requires user !in added && user in users
    requires Inserted(cb, c1, c)
    requires c1[c] == Collection(user, users[user].username, Some(CollectionDescription(users[user].username)))
    ensures NewCollections(c0, c1, users, added + [user])
  {
    forall x | x in c1 && x !in c0
      ensures c1[x].user in added + [user] && c1[x].user in users
        && c1[x] == Collection(c1[x].user, users[c1[x].user].username, Some(CollectionDescription(users[c1[x].user].username)))
    {
      if x != c {
        assert x in cb && cb[x] == c1[x];
      }
    }
    forall a, b | a in c1 && a !in c0 && b in c1 && b !in c0 && c1[a].user == c1[b].user ensures a == b {
      if a != c && b != c {
        assert a in cb && b in cb;
      }
    }
  }

  /** One more channel, in a collection new in this step, keeps `NewChannels`. */
  lemma {:induction false} NewChannelsStep(c0: map<Id, Collection>, ch0: map<Id, Channel>, cb: map<Id, Collection>,
                                           chb: map<Id, Channel>, c1: map<Id, Collection>, ch1: map<Id, Channel>,
                                           users: map<Id, User>, user: Id, c: Id, ch: Id)
    requires NewChannels(c0, ch0, cb, chb, users) && Retains(c0, cb) && Retains(ch0, chb)
    requires user in users
    requires Inserted(cb, c1, c) && Inserted(chb, ch1, ch)
    requires IsDefaultPair(c1, ch1, user, users[user].username, c, ch) && c1[c].user == user
    ensures NewChannels(c0, ch0, c1, ch1, users)
  {
    forall x | x in ch1 && x !in ch0
      ensures ch1[x].collection in c1 && ch1[x].collection !in c0 && c1[ch1[x].collection].user in users
        && IsDefaultPair(c1, ch1, c1[ch1[x].collection].user, users[c1[ch1[x].collection].user].username,
                         ch1[x].collection, x)
    {
      if x != ch {
        assert x in chb && chb[x] == ch1[x];
        assert ch1[x].collection in cb && cb[ch1[x].collection] == c1[ch1[x].collection];
      } else {
        assert c !in cb;
      }
    }
    forall a, b | a in ch1 && a !in ch0 && b in ch1 && b !in ch0 && ch1[a].collection == ch1[b].collection ensures a == b {
      if a != ch && b != ch {
        assert a in chb && b in chb;
      }
    }
  }

  /** One more user of the loop, given no pair or exactly one new default pair,
      keeps `NewPairs`. */
  lemma {:induction false} NewPairsStep(c0: map<Id, Collection>, ch0: map<Id, Channel>, cb: map<Id, Collection>,
                                        chb: map<Id, Channel>, c1: map<Id, Collection>, ch1: map<Id, Channel>,
                                        users: map<Id, User>, added: seq<Id>, user: Id)
    requires NewPairs(c0, ch0, cb, chb, users, added) && Retains(c0, cb) && Retains(ch0, chb)
    requires user !in added && user in users
    requires (c1 == cb && ch1 == chb)
      || exists c, ch :: Inserted(cb, c1, c) && Inserted(chb, ch1, ch) && IsDefaultPair(c1, ch1, user, users[user].username, c, ch)
    ensures NewPairs(c0, ch0, c1, ch1, users, added + [user])
  {
    if c1 == cb && ch1 == chb {
      assert NewCollections(c0, c1, users, added + [user]);
    } else {
      var c, ch :| Inserted(cb, c1, c) && Inserted(chb, ch1, ch) && IsDefaultPair(c1, ch1, user, users[user].username, c, ch);
      NewCollectionsStep(c0, cb, c1, users, added, user, c);
      NewChannelsStep(c0, ch0, cb, chb, c1, ch1, users, user, c, ch);
    }
  }

  /** One user of the loop: the profile, then the default collection and channel
      when the user has no collection. */
  method Bootstrap(db: Db, user: Id)
    requires db.Valid() && user in db.users && user !in db.profiles
    modifies db`profiles, db`collections, db`channels, db`nextId
    ensures db.Valid()
    ensures db.profiles == old(db.profiles)[user := DefaultProfile]
    ensures CollectionsAdded(old(db.collections), db.collections, [user], old(db.collections))
    ensures Retains(old(db.channels), db.channels)
    ensures HasCollection(db.collections, user)
    ensures HasCollection(old(db.collections), user) ==>
      db.collections == old(db.collections) && db.channels == old(db.channels)
    ensures !HasCollection(old(db.collections), user) ==>
      exists c, ch :: Inserted(old(db.collections), db.collections, c) && Inserted(old(db.channels), db.channels, ch)
        && IsDefaultPair(db.collections, db.channels, user, db.users[user].username, c, ch)
  {
    AddProfile(db, user);
    if !(exists c :: c in db.collections && db.collections[c].user == user) {
      var c, ch := AddDefaultCollection(db, user);
    }
  }

  /** The loop of `handle` after the users `todo[..i]`, against the state it
      started from. */
  ghost predicate BootDone(profiles0: map<Id, Profile>, collections0: map<Id, Collection>, channels0: map<Id, Channel>,
                           profiles: map<Id, Profile>, collections: map<Id, Collection>, channels: map<Id, Channel>,
                           users: map<Id, User>, todo: seq<Id>, i: nat)
  {
    i <= |todo|
    && ProfilesAdded(profiles0, profiles, todo[..i])
    && CollectionsAdded(collections0, collections, todo[..i], collections0)
    && Retains(channels0, channels)
    && (forall k :: 0 <= k < i ==> HasCollection(collections, todo[k]))
    && PairsGiven(collections0, collections, channels, users, todo[..i])
    && NewPairs(collections0, channels0, collections, channels, users, todo[..i])
  }

  /** Nothing done yet. */
  lemma BootStart(profiles0: map<Id, Profile>, collections0: map<Id, Collection>, channels0: map<Id, Channel>,
                  users: map<Id, User>, todo: seq<Id>)
    ensures BootDone(profiles0, collections0, channels0, profiles0, collections0, channels0, users, todo, 0)
  {
    assert todo[..0] == [];
  }

  /** Every user of `todo` done: what `handle` promises. */
  lemma {:induction false} BootEnd(profiles0: map<Id, Profile>, collections0: map<Id, Collection>, channels0: map<Id, Channel>,
                                   profiles: map<Id, Profile>, collections: map<Id, Collection>, channels: map<Id, Channel>,
                                   users: map<Id, User>, order: seq<Id>, todo: seq<Id>)
    requires todo == WithoutProfile(order, profiles0) && forall u :: u in order <==> u in users
    requires BootDone(profiles0, collections0, channels0, profiles, collections, channels, users, todo, |todo|)
    ensures forall u :: u in users ==> u in profiles
    ensures Retains(profiles0, profiles)
    ensures forall u :: u in profiles && u !in profiles0 ==> profiles[u] == DefaultProfile
    ensures CollectionsAdded(collections0, collections, todo, collections0)
    ensures Retains(channels0, channels)
    ensures forall u :: u in users && u !in profiles0 ==> HasCollection(collections, u)
    ensures forall u :: u in users && u !in profiles0 && !HasCollection(collections0, u) ==>
      exists c, ch :: IsDefaultPair(collections, channels, u, users[u].username, c, ch)
    ensures NewPairs(collections0, channels0, collections, channels, users, todo)
  {
    assert todo[..|todo|] == todo;
    forall u | u in users && u !in profiles0 ensures HasCollection(collections, u) {
      assert u in todo;
      var k :| 0 <= k < |todo| && todo[k] == u;
    }
  }

  /** The user at step `i` has no profile yet. */
  lemma {:induction false} BootUserFree(profiles0: map<Id, Profile>, collections0: map<Id, Collection>,
                                        channels0: map<Id, Channel>, profiles: map<Id, Profile>,
                                        collections: map<Id, Collection>, channels: map<Id, Channel>,
                                        users: map<Id, User>, todo: seq<Id>, i: nat)
    requires i < |todo| && NoDup(todo) && todo[i] !in profiles0
    requires BootDone(profiles0, collections0, channels0, profiles, collections, channels, users, todo, i)
    ensures todo[i] !in todo[..i] && todo[i] !in profiles
  {
    var user := todo[i];
    forall k | 0 <= k < i ensures todo[..i][k] != user { assert todo[..i][k] == todo[k]; }
  }

  /** `Bootstrap` for the user at step `i`, stated on the tables before and after,
      advances `BootDone`. */
  lemma {:induction false} BootStep(profiles0: map<Id, Profile>, collections0: map<Id, Collection>,
                                    channels0: map<Id, Channel>, pb: map<Id, Profile>, cb: map<Id, Collection>,
                                    chb: map<Id, Channel>, p1: map<Id, Profile>, c1: map<Id, Collection>,
                                    ch1: map<Id, Channel>, users: map<Id, User>, todo: seq<Id>, i: nat)
    requires i < |todo| && NoDup(todo) && todo[i] in users && todo[i] !in profiles0
    requires BootDone(profiles0, collections0, channels0, pb, cb, chb, users, todo, i)
    requires todo[i] !in todo[..i] && todo[i] !in pb
    requires p1 == pb[todo[i] := DefaultProfile]
    requires CollectionsAdded(cb, c1, [todo[i]], cb) && Retains(chb, ch1) && HasCollection(c1, todo[i])
    requires HasCollection(cb, todo[i]) ==> c1 == cb && ch1 == chb
    requires !HasCollection(cb, todo[i]) ==>
      exists c, ch :: Inserted(cb, c1, c) && Inserted(chb, ch1, ch)
        && IsDefaultPair(c1, ch1, todo[i], users[todo[i]].username, c, ch)
    ensures BootDone(profiles0, collections0, channels0, p1, c1, ch1, users, todo, i + 1)
  {
    var user := todo[i];
    assert todo[..i + 1] == todo[..i] + [user];
    HasCollectionKept(collections0, cb, user);
    PairsGivenStep(collections0, cb, chb, c1, ch1, users, todo[..i], user);
    ProfilesAddedStep(profiles0, pb, todo[..i], user);
    CollectionsAddedStep(collections0, cb, c1, todo[..i], user);
    NewPairsStep(collections0, channels0, cb, chb, c1, ch1, users, todo[..i], user);
    forall k | 0 <= k < i + 1 ensures HasCollection(c1, todo[k]) {
      if k < i {
        HasCollectionGrows(cb, c1, todo[k]);
      }
    }
  }

  /** The loop's step for `todo[i]`, stated against the state `Handle` started from. */
  method Step(db: Db, todo: seq<Id>, i: nat, ghost profiles0: map<Id, Profile>,
              ghost collections0: map<Id, Collection>, ghost channels0: map<Id, Channel>)
    requires i < |todo| && NoDup(todo) && todo[i] in db.users && todo[i] !in profiles0
    requires db.Valid()
    requires BootDone(profiles0, collections0, channels0, db.profiles, db.collections, db.channels, db.users, todo, i)
    modifies db`profiles, db`collections, db`channels, db`nextId
    ensures db.Valid()
    ensures BootDone(profiles0, collections0, channels0, db.profiles, db.collections, db.channels, db.users, todo, i + 1)
  {
    BootUserFree(profiles0, collections0, channels0, db.profiles, db.collections, db.channels, db.users, todo, i);
    ghost var pb, cb, chb := db.profiles, db.collections, db.channels;
    Bootstrap(db, todo[i]);
    BootStep(profiles0, collections0, channels0, pb, cb, chb, db.profiles, db.collections, db.channels, db.users, todo, i);
  }

  lemma PairsGivenStep(original: map<Id, Collection>, c0: map<Id, Collection>, ch0: map<Id, Channel>,
                       c1: map<Id, Collection>, ch1: map<Id, Channel>, users: map<Id, User>, added: seq<Id>, user: Id)
    requires PairsGiven(original, c0, ch0, users, added) && Retains(c0, c1) && Retains(ch0, ch1)
    requires HasCollection(c0, user) <==> HasCollection(original, user)
    requires user in users && !HasCollection(c0, user) ==>
      exists c, ch :: IsDefaultPair(c1, ch1, user, users[user].username, c, ch)
    ensures PairsGiven(original, c1, ch1, users, added + [user])
  {
    forall u | u in added + [user] && u in users && !HasCollection(original, u)
      ensures exists c, ch :: IsDefaultPair(c1, ch1, u, users[u].username, c, ch)
    {
      if u != user {
        assert u in added;
        DefaultPairKept(c0, ch0, c1, ch1, u, users[u].username);
      }
    }
  }

  /** `Command.handle` over `order`, the user table in the order the query returns
      it: every user without a profile gets a default one, and a default collection
      and channel when it has no collection; the result is how many profiles were
      created. Users that had a profile, and the collections and channels that
      existed, are left as they were. */
  method Handle(db: Db, order: seq<Id>) returns (createdCount: nat)
    requires db.Valid() && NoDup(order) && forall u :: u in order <==> u in db.users
    modifies db`profiles, db`collections, db`channels, db`nextId
    ensures db.Valid()
    ensures createdCount == |ProfileLess(db.users, old(db.profiles))|
    ensures forall u :: u in db.users ==> u in db.profiles
    ensures Retains(old(db.profiles), db.profiles)
    ensures forall u :: u in db.profiles && u !in old(db.profiles) ==> db.profiles[u] == DefaultProfile
    ensures CollectionsAdded(old(db.collections), db.collections, WithoutProfile(order, old(db.profiles)), old(db.collections))
    ensures Retains(old(db.channels), db.channels)
    ensures forall u :: u in db.users && u !in old(db.profiles) ==> HasCollection(db.collections, u)
    ensures forall u :: u in db.users && u !in old(db.profiles) && !HasCollection(old(db.collections), u) ==>
      exists c, ch :: IsDefaultPair(db.collections, db.channels, u, db.users[u].username, c, ch)
    ensures NewPairs(old(db.collections), old(db.channels), db.collections, db.channels, db.users,
                     WithoutProfile(order, old(db.profiles)))
    ensures createdCount == 0 ==>
      db.profiles == old(db.profiles) && db.collections == old(db.collections) && db.channels == old(db.channels)
  {
    var todo := WithoutProfile(order, db.profiles);
    NoDupCard(todo, ProfileLess(db.users, db.profiles));
    if todo == [] {
      return 0;
    }
    ghost var profiles0, collections0, channels0 := db.profiles, db.collections, db.channels;
    BootStart(profiles0, collections0, channels0, db.users, todo);
    for i := 0 to |todo|
      invariant db.Valid()
      invariant BootDone(profiles0, collections0, channels0, db.profiles, db.collections, db.channels, db.users, todo, i)
    {
      Step(db, todo, i, profiles0, collections0, channels0);
    }
    BootEnd(profiles0, collections0, channels0, db.profiles, db.collections, db.channels, db.users, order, todo);
    createdCount := |todo|;
  }
}
