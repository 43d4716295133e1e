/** Tag-name normalisation and the helper that turns a list of names into stored
    tags, creating the missing ones. */
module OperationsUtils {
  import opened Wrappers
  import opened Text
  import opened Seqs
  import opened UsersModels
  import opened OperationsModels
  import opened Store

  /** A name in normal form: no upper-case letter, no space, and no whitespace at
      either end. */
  predicate IsNormalTagName(s: string)
  {
    NoUpper(s) && ' ' !in s && (s == [] || (!IsSpace(s[0]) && !IsSpace(s[|s| - 1])))
  }

  /** Lower-cases, removes every space and strips the ends; a falsy name gives "". */
  function NormalizeTagName(name: string): (r: string)
    ensures IsNormalTagName(r)
    ensures |r| <= |name|
  {
    if name == [] then ""
    else
      var low := LowerStr(name);
      var spaceless := RemoveChar(low, ' ');
      var r := Strip(spaceless);
      NoUpperSubset(low, spaceless);
      NoUpperSubset(spaceless, r);
      RemoveCharShorter(low, ' ');
      StripShorter(spaceless);
      r
  }

  lemma NoUpperSubset(a: string, b: string)
    requires NoUpper(a) && forall x :: x in b ==> x in a
    ensures NoUpper(b)
  {
    forall k | 0 <= k < |b| ensures !IsUpper(b[k]) {
      assert b[k] in a;
      var j :| 0 <= j < |a| && a[j] == b[k];
    }
  }

  lemma {:induction false} RemoveCharShorter(s: string, c: char)
    ensures |RemoveChar(s, c)| <= |s|
  {
    if s != [] {
      RemoveCharShorter(s[1..], c);
    }
  }

  lemma StripShorter(s: string)
    ensures |Strip(s)| <= |s|
  {
  }

  /** A normal-form name is left as it is. */
  lemma {:induction false} NormalFormFixed(s: string)
    requires IsNormalTagName(s)
    ensures NormalizeTagName(s) == s
  {
    if s != [] {
      LowerStrKeepsLowered(s);
      assert RemoveChar(s, ' ') == s;
    }
  }

  /** Normalising twice is normalising once. */
  lemma {:induction false} NormalizeIdempotent(s: string)
    ensures NormalizeTagName(NormalizeTagName(s)) == NormalizeTagName(s)
  {
    NormalFormFixed(NormalizeTagName(s));
  }

  /** The names normalisation leaves unchanged are exactly the normal-form names. */
  lemma {:induction false} NormalizeFixedIff(s: string)
    ensures NormalizeTagName(s) == s <==> IsNormalTagName(s)
  {
    if IsNormalTagName(s) {
      NormalFormFixed(s);
    }
  }

  /** The helper computes the same rewrite `Tag.save` applies to a name. */
  lemma {:induction false} NormalizeMatchesSave(s: string)
    ensures NormalizeTagName(s) == SavedName(s)
  {
  }

  /** The non-empty normalised names of `names`, in order: the names the helper
      looks up or creates. */
  function NormalizedNames(names: seq<string>): (r: seq<string>)
    ensures |r| <= |names|
    ensures forall k :: 0 <= k < |r| ==> r[k] != "" && IsNormalTagName(r[k])
  {
    if names == [] then []
    else
      var p := NormalizedNames(names[..|names| - 1]);
      var n := NormalizeTagName(names[|names| - 1]);
      if n != "" then p + [n] else p
  }

  lemma NormalizedNamesSnoc(names: seq<string>, x: string)
    ensures NormalizedNames(names + [x]) ==
      NormalizedNames(names) + (if NormalizeTagName(x) != "" then [NormalizeTagName(x)] else [])
  {
    assert (names + [x])[..|names|] == names;
  }

  lemma NormalizedNamesStep(names: seq<string>, i: nat, n: string)
    requires i < |names| && n == NormalizeTagName(names[i])
    ensures NormalizedNames(names[..i + 1]) == NormalizedNames(names[..i]) + (if n != "" then [n] else [])
  {
    assert names[..i + 1] == names[..i] + [names[i]];
    NormalizedNamesSnoc(names[..i], names[i]);
  }

  /** A name survives into the list exactly when its normalised form is non-empty,
      and nothing else appears in it. */
  lemma {:induction false} NormalizedNamesMembers(names: seq<string>)
    ensures forall i :: 0 <= i < |names| && NormalizeTagName(names[i]) != "" ==>
      NormalizeTagName(names[i]) in NormalizedNames(names)
    ensures forall x :: x in NormalizedNames(names) ==>
      exists i :: 0 <= i < |names| && NormalizeTagName(names[i]) == x
  {
    if names != [] {
      var init := names[..|names| - 1];
      NormalizedNamesMembers(init);
      assert names == init + [names[|names| - 1]];
      NormalizedNamesSnoc(init, names[|names| - 1]);
      forall x | x in NormalizedNames(names)
        ensures exists i :: 0 <= i < |names| && NormalizeTagName(names[i]) == x
      {
        if x in NormalizedNames(init) {
          var i :| 0 <= i < |init| && NormalizeTagName(init[i]) == x;
          assert names[i] == init[i];
        } else {
          assert NormalizeTagName(names[|names| - 1]) == x;
        }
      }
      forall i | 0 <= i < |names| && NormalizeTagName(names[i]) != ""
        ensures NormalizeTagName(names[i]) in NormalizedNames(names)
      {
        if i < |init| {
          assert names[i] == init[i];
        }
      }
    }
  }

  /** The tag called `name`, if there is one. */
  ghost function TagNamed(tags: map<Id, string>, name: string): (r: Option<Id>)
    requires NamesUnique(tags)
    ensures r.Some? ==> r.value in tags && tags[r.value] == name
    ensures r.None? <==> name !in tags.Values
  {
    if exists t :: t in tags && tags[t] == name then
      var t :| t in tags && tags[t] == name; Some(t)
    else None
  }

  /** What `Tag.objects.get_or_create(name=name)` returns: the tag looked up by the
      name as given; otherwise a new tag, which `save` stores under its rewritten
      name; when a tag already holds that rewritten name the insert violates the
      unique constraint, the second lookup by the given name finds nothing again,
      and the IntegrityError escapes (a 500). A new tag gets the key `newKey`. */
  ghost function GetOrCreateTagResult(tags: map<Id, string>, name: string, newKey: Id): (r: Result<Id, ApiError>)
    requires NamesUnique(tags) && newKey !in tags
    ensures r.Ok? && r.value in tags ==> tags[r.value] == name
    ensures r.Ok? && r.value !in tags ==> r.value == newKey && SavedName(name) !in tags.Values
    ensures r.Err? ==> name !in tags.Values && SavedName(name) in tags.Values
  {
    match TagNamed(tags, name)
    case Some(t) => Ok(t)
    case None =>
      if SavedName(name) in tags.Values then Err(ApiError(500, "IntegrityError: duplicate tag name"))
      else Ok(newKey)
  }

  /** A normalised, non-empty name is never refused: get_or_create returns the tag of
      that name, or a new one stored under exactly that name. */
  lemma {:induction false} NormalNameNeverCollides(tags: map<Id, string>, name: string, newKey: Id)
    requires NamesUnique(tags) && newKey !in tags
    requires IsNormalTagName(name) && name != ""
    ensures GetOrCreateTagResult(tags, name, newKey).Ok?
    ensures SavedName(name) == name
  {
    NormalFormFixed(name);
    NormalizeMatchesSave(name);
    assert TagNamed(tags, name).None? ==> name !in tags.Values;
  }

  /** The model of `Tag.objects.get_or_create(name=name)` on the store. */
  method GetOrCreateTag(db: Db, name: string) returns (r: Result<Id, ApiError>)
    requires db.Valid()
    modifies db`tags, db`nextId
    ensures db.Valid()
    ensures r == GetOrCreateTagResult(old(db.tags), name, old(db.nextId))
    ensures r.Ok? && r.value !in old(db.tags) ==> db.tags == old(db.tags)[r.value := SavedName(name)]
    ensures !(r.Ok? && r.value !in old(db.tags)) ==> db.tags == old(db.tags)
  {
    if exists t :: t in db.tags && db.tags[t] == name {
      var t :| t in db.tags && db.tags[t] == name;
      r := Ok(t);
    } else {
      var saved := SavedName(name);
      if exists t :: t in db.tags && db.tags[t] == saved {
        r := Err(ApiError(500, "IntegrityError: duplicate tag name"));
      } else {
        var id := db.NewId();
        db.tags := db.tags[id := saved];
        r := Ok(id);
      }
    }
  }

  /** `ids` names, position by position, stored tags called `names`. */
  ghost predicate Holds(tags: map<Id, string>, ids: seq<Id>, names: seq<string>)
  {
    |ids| == |names| && forall k :: 0 <= k < |ids| ==> ids[k] in tags && tags[ids[k]] == names[k]
  }

  /** `after` keeps every tag of `before` and adds tags named in `names` only. */
  ghost predicate GrowsBy(before: map<Id, string>, after: map<Id, string>, names: seq<string>)
  {
    (forall t :: t in before ==> t in after && after[t] == before[t])
    && (forall t :: t in after && t !in before ==> after[t] in names)
  }

  /** One round of the helper's loop: get or create the tag of a normalised name
      and append it. */
  method AppendTag(db: Db, ghost before: map<Id, string>, ids: seq<Id>, ghost done: seq<string>, n: string)
    returns (ids': seq<Id>)
    requires db.Valid() && Holds(db.tags, ids, done) && GrowsBy(before, db.tags, done)
    requires IsNormalTagName(n) && n != ""
    modifies db`tags, db`nextId
    ensures db.Valid() && Holds(db.tags, ids', done + [n]) && GrowsBy(before, db.tags, done + [n])
  {
    NormalNameNeverCollides(db.tags, n, db.nextId);
    var r := GetOrCreateTag(db, n);
    ids' := ids + [r.value];
  }

  lemma SameNameSameTag(tags: map<Id, string>, ids: seq<Id>, names: seq<string>)
    requires NamesUnique(tags) && Holds(tags, ids, names)
    ensures forall i, j :: 0 <= i < |ids| && 0 <= j < |ids| && names[i] == names[j] ==> ids[i] == ids[j]
  {
  }

  /** The names carried by the tags `ids`. */
  function NamesOf(tags: map<Id, string>, ids: set<Id>): set<string>
    requires ids <= tags.Keys
  {
    set t | t in ids :: tags[t]
  }

  /** The tags `ids` exist and carry exactly the names `names`. */
  predicate Carries(tags: map<Id, string>, ids: set<Id>, names: seq<string>)
  {
    ids <= tags.Keys && NamesOf(tags, ids) == Elems(names)
  }

  /** When `ids` holds `names` position by position in a store with unique names,
      the set of `ids` is exactly the set of tags carrying one of `names`, and those
      tags carry exactly the names of `names`. */
  lemma {:induction false} HoldsNames(tags: map<Id, string>, ids: seq<Id>, names: seq<string>)
    requires NamesUnique(tags) && Holds(tags, ids, names)
    ensures Elems(ids) <= tags.Keys
    ensures forall t :: t in Elems(ids) <==> t in tags && tags[t] in names
    ensures Carries(tags, Elems(ids), names)
  {
    forall t | t in tags && tags[t] in names ensures t in Elems(ids) {
      var k :| 0 <= k < |names| && names[k] == tags[t];
      assert tags[ids[k]] == tags[t];
    }
    forall n | n in Elems(names) ensures n in NamesOf(tags, Elems(ids)) {
      var k :| 0 <= k < |names| && names[k] == n;
      assert ids[k] in Elems(ids);
    }
  }

  /** Adding tags and keeping the old ones as they are leaves the names of old tags
      unchanged. */
  lemma NamesOfKept(before: map<Id, string>, after: map<Id, string>, ids: set<Id>)
    requires ids <= before.Keys && forall t :: t in before ==> t in after && after[t] == before[t]
    ensures ids <= after.Keys && NamesOf(after, ids) == NamesOf(before, ids)
  {
  }

  /** The helper's loop body for `names[i]`: a name that normalises to empty is
      skipped, any other is got or created. */
  method TagStep(db: Db, ghost before: map<Id, string>, ids: seq<Id>, names: seq<string>, i: nat)
    returns (ids': seq<Id>)
    requires i < |names|
    requires db.Valid() && Holds(db.tags, ids, NormalizedNames(names[..i]))
    requires GrowsBy(before, db.tags, NormalizedNames(names[..i]))
    modifies db`tags, db`nextId
    ensures db.Valid() && Holds(db.tags, ids', NormalizedNames(names[..i + 1]))
    ensures GrowsBy(before, db.tags, NormalizedNames(names[..i + 1]))
  {
    var n := NormalizeTagName(names[i]);
    NormalizedNamesStep(names, i, n);
    if n != "" {
      ids' := AppendTag(db, before, ids, NormalizedNames(names[..i]), n);
    } else {
      ids' := ids;
    }
  }

  /** `create_or_get_tags`: one stored tag per name whose normalised form is
      non-empty, in input order, each carrying that normalised name; tags already
      in the store keep their names and only such names are added. */
  method CreateOrGetTags(db: Db, names: seq<string>) returns (ids: seq<Id>)
    requires db.Valid()
    modifies db`tags, db`nextId
    ensures db.Valid()
    ensures |ids| == |NormalizedNames(names)| <= |names|
    ensures Holds(db.tags, ids, NormalizedNames(names))
    ensures forall i, j :: 0 <= i < |ids| && 0 <= j < |ids| && NormalizedNames(names)[i] == NormalizedNames(names)[j] ==>
      ids[i] == ids[j]
    ensures GrowsBy(old(db.tags), db.tags, NormalizedNames(names))
  {
    ids := [];
    for i := 0 to |names|
      invariant db.Valid()
      invariant Holds(db.tags, ids, NormalizedNames(names[..i]))
      invariant GrowsBy(old(db.tags), db.tags, NormalizedNames(names[..i]))
    {
      ids := TagStep(db, old(db.tags), ids, names, i);
    }
    assert names[..|names|] == names;
    SameNameSameTag(db.tags, ids, NormalizedNames(names));
  }
}
