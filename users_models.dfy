/** The records of the users app: users, profiles, collections, channels and
    bookmarks, the choice lists and defaults of their fields, the avatar file name
    rule and the notification record with its read flag. */
module UsersModels {
  import opened Wrappers
  import opened Text

  /** Every row is named by an integer primary key. */
  type Id = nat

  /** An account. `password` stands for whatever `set_password` stores; hashing is
      not modelled. */
  datatype User = User(username: string, email: string, password: string)

  /** A profile belongs to exactly one user (a one-to-one key, so the model keys the
      profile table by user id). `avatar` is the stored file name. */
  datatype Profile = Profile(bio: Option<string>, avatar: Option<string>)

  datatype Collection = Collection(user: Id, name: string, description: Option<string>)

  datatype Channel = Channel(collection: Id, name: string, description: Option<string>)

  datatype Bookmark = Bookmark(
    user: Id,
    channel: Id,
    video: Id,
    title: string,
    description: Option<string>,
    access: string,
    tags: set<Id>,
    createdAt: int)

  /** The values the `access` field offers, and its default. */
  const AccessChoices: seq<string> := ["private", "public", "adult"]
  const DefaultAccess: string := "public"

  /** The index of the last `c` in `s`, or -1 when there is none (str.rfind). */
  function LastIndex(s: string, c: char): (r: int)
    ensures -1 <= r < |s|
    ensures r >= 0 ==> s[r] == c
    ensures forall k :: r < k < |s| ==> s[k] != c
  {
    if s == [] then -1
    else if s[|s| - 1] == c then |s| - 1
    else LastIndex(s[..|s| - 1], c)
  }

  /** The dot at `d` starts the extension of `p` in the sense of POSIX
      `os.path.splitext`: no dot and no `/` follow it, and its path component has a
      character other than a dot before it (".bashrc" has no extension). */
  predicate IsExtSplit(p: string, d: int)
  {
    0 <= d < |p| && p[d] == '.'
    && (forall k :: d < k < |p| ==> p[k] != '.' && p[k] != '/')
    && exists k :: 0 <= k < d && p[k] != '.' && forall m :: k <= m < d ==> p[m] != '/'
  }

  /** The extension that POSIX `os.path.splitext` splits off: from the last dot of
      the final path component to the end, or nothing when no dot starts one. */
  function SplitExt(p: string): (ext: string)
    ensures ext != [] <==> exists d :: IsExtSplit(p, d)
    ensures forall d :: IsExtSplit(p, d) ==> ext == p[d..]
    ensures ext == [] || (ext[0] == '.' && '.' !in ext[1..] && '/' !in ext)
    ensures |ext| <= |p| && ext == p[|p| - |ext|..]
  {
    var sep := LastIndex(p, '/');
    var dot := LastIndex(p, '.');
    ExtSplitOnlyAtLastDot(p);
    if dot > sep && exists k :: sep < k < dot && p[k] != '.' then
      var k :| sep < k < dot && p[k] != '.';
      ExtSplitAtLastDot(p, k);
      p[dot..]
    else []
  }

  /** A dot that starts an extension is the last dot, after the last `/`, with a
      character other than a dot between them. */
  lemma {:induction false} ExtSplitOnlyAtLastDot(p: string)
    ensures forall d :: IsExtSplit(p, d) ==>
      d == LastIndex(p, '.') && LastIndex(p, '/') < d
      && exists k :: LastIndex(p, '/') < k < d && p[k] != '.'
  {
    var sep := LastIndex(p, '/');
    forall d | IsExtSplit(p, d)
      ensures d == LastIndex(p, '.') && sep < d && exists k :: sep < k < d && p[k] != '.'
    {
      var k :| 0 <= k < d && p[k] != '.' && forall m :: k <= m < d ==> p[m] != '/';
      assert sep < k;
    }
  }

  /** The last dot starts an extension when it follows the last `/` with a character
      other than a dot, at `k`, between them; the extension then has no other dot
      and no `/`. */
  lemma {:induction false} ExtSplitAtLastDot(p: string, k: int)
    requires LastIndex(p, '/') < k < LastIndex(p, '.') && p[k] != '.'
    ensures IsExtSplit(p, LastIndex(p, '.'))
    ensures var ext := p[LastIndex(p, '.')..]; ext[0] == '.' && '.' !in ext[1..] && '/' !in ext
  {
    var dot := LastIndex(p, '.');
    assert IsExtSplit(p, dot);
    assert forall i :: dot < i < |p| ==> p[dot..][i - dot] == p[i];
  }

  /** The directory avatars are uploaded to. */
  const AvatarDir: string := "avatars/"

  /** Where an uploaded avatar is stored: the user's name and the file's
      lower-cased extension under `avatars/`. */
  function AvatarPath(username: string, filename: string): (path: string)
    ensures path == AvatarDir + username + LowerStr(SplitExt(filename))
    ensures StartsWith(path, AvatarDir + username)
    ensures var ext := path[|AvatarDir + username|..];
      NoUpper(ext) && |ext| == |SplitExt(filename)| && (ext == [] || ext[0] == '.')
    ensures '/' !in username ==> '/' !in path[|AvatarDir|..]
  {
    var ext := SplitExt(filename);
    var low := LowerStr(ext);
    assert forall x :: x in low ==> x != '/' by {
      forall x | x in low ensures x != '/' {
        var k :| 0 <= k < |low| && low[k] == x;
        assert ext[k] != '/';
      }
    }
    ThreeParts(AvatarDir, username, low);
    AvatarDir + username + low
  }

  /** The stored path keeps the upload's extension, lower-cased: `splitext` of the
      path gives it back, for a user name without `/` that is not all dots. */
  lemma {:induction false} AvatarPathKeepsExtension(username: string, filename: string)
    requires '/' !in username && exists i :: 0 <= i < |username| && username[i] != '.'
    requires SplitExt(filename) != []
    ensures SplitExt(AvatarPath(username, filename)) == LowerStr(SplitExt(filename))
  {
    var i :| 0 <= i < |username| && username[i] != '.';
    var head := AvatarDir + username;
    forall m | |AvatarDir| + i <= m < |head| ensures head[m] != '/' {
      assert head[m] == username[m - |AvatarDir|];
    }
    var low := LowerStr(SplitExt(filename));
    LowerExtension(SplitExt(filename));
    ExtSplitOfJoin(head, |AvatarDir| + i, low);
  }

  /** Lower-casing keeps an extension's leading dot and adds no dot or slash. */
  lemma {:induction false} LowerExtension(ext: string)
    requires ext != [] && ext[0] == '.' && '.' !in ext[1..] && '/' !in ext
    ensures LowerStr(ext) != [] && LowerStr(ext)[0] == '.'
    ensures forall k :: 0 < k < |ext| ==> LowerStr(ext)[k] != '.' && LowerStr(ext)[k] != '/'
  {
    forall k | 0 < k < |ext| ensures LowerStr(ext)[k] != '.' && LowerStr(ext)[k] != '/' {
      assert ext[k] in ext[1..];
    }
  }

  /** A dot-led tail without further dots or slashes, after a component that is
      not all dots, is the extension of the joined path. */
  lemma {:induction false} ExtSplitOfJoin(head: string, i: int, ext: string)
    requires 0 <= i < |head| && head[i] != '.' && forall m :: i <= m < |head| ==> head[m] != '/'
    requires ext != [] && ext[0] == '.'
    requires forall k :: 0 < k < |ext| ==> ext[k] != '.' && ext[k] != '/'
    ensures SplitExt(head + ext) == ext
  {
    var p := head + ext;
    forall k | |head| < k < |p| ensures p[k] != '.' && p[k] != '/' {
      assert p[k] == ext[k - |head|];
    }
    assert IsExtSplit(p, |head|);
    assert p[|head|..] == ext;
  }

  lemma ThreeParts<T>(a: seq<T>, b: seq<T>, c: seq<T>)
    ensures (a + b + c)[..|a + b|] == a + b
    ensures (a + b + c)[|a + b|..] == c
    ensures (a + b + c)[|a|..] == b + c
  {
    assert a + b + c == a + (b + c);
  }

  /** A notification; the actor and target are kept as the text they print as. */
  class Notification {
    var actor: Option<string>
    var verb: string
    var target: Option<string>
    var isRead: bool

    constructor (actor: Option<string>, verb: string, target: Option<string>)
      ensures this.actor == actor && this.verb == verb && this.target == target
      ensures !isRead
    {
      this.actor := actor;
      this.verb := verb;
      this.target := target;
      isRead := false;
    }

    /** The three shapes of the printed notification. */
    function Display(): (r: string)
      reads this
      ensures actor.None? ==> r == "System: " + verb
      ensures actor.Some? ==> StartsWith(r, actor.value + " " + verb)
      ensures actor.Some? && target.None? ==> |r| == |actor.value| + 1 + |verb|
      ensures actor.Some? && target.Some? ==>
        |r| == |actor.value| + |verb| + |target.value| + 2 && r[|r| - |target.value|..] == target.value
      ensures actor.Some? && target.Some? ==> r[..|r| - |target.value|] == actor.value + " " + verb + " "
    {
      match actor
      case None => "System: " + verb
      case Some(a) =>
        var head := a + " " + verb;
        match target
        case None => head
        case Some(t) =>
          assert (head + " " + t)[..|head|] == head;
          assert (head + " " + t)[..|head| + 1] == head + " ";
          head + " " + t
    }

    /** Marks the notification read; `saved` tells whether a write was issued. */
    method MarkAsRead() returns (saved: bool)
      modifies this`isRead
      ensures isRead
      ensures saved == !old(isRead)
    {
      saved := !isRead;
      if saved {
        isRead := true;
      }
    }

    /** Marks the notification unread; `saved` tells whether a write was issued. */
    method MarkAsUnread() returns (saved: bool)
      modifies this`isRead
      ensures !isRead
      ensures saved == old(isRead)
    {
      saved := isRead;
      if saved {
        isRead := false;
      }
    }
  }
}
