/** The users-app views: the follow toggle and the follow status, the URL handling,
    platform choice and tag suggestions of the video metadata extractor, and the
    copy of a bookmark into a channel of the requester. */
module UsersViews {
  import opened Wrappers
  import opened Text
  import opened Seqs
  import opened UsersModels
  import opened OperationsModels
  import opened Store

  // ---------------------------------------------------------------- follows

  const UserNotFound := ApiError(404, "User not found.")
  const SelfFollow := ApiError(400, "You cannot follow yourself.")

  /** The result of a follow toggle together with the follow table it leaves. */
  datatype FollowOutcome = FollowOutcome(result: Result<bool, ApiError>, follows: set<(Id, Id)>)

  /** What `ToggleFollowView.post` does for `me` and the user keyed `target`: the
      lookup of the target comes first (404), then the self check (400); otherwise an
      existing edge is deleted and a missing one created, and the answer says whether
      `me` now follows the target. */
  function FollowToggleSpec(follows: set<(Id, Id)>, users: set<Id>, me: Id, target: Id): (o: FollowOutcome)
    ensures o.result.Err? <==> target !in users || target == me
    ensures target !in users ==> o.result == Err(UserNotFound)
    ensures target in users && target == me ==> o.result == Err(SelfFollow)
    ensures o.result.Err? ==> o.follows == follows
    ensures o.result.Ok? ==> (o.result.value <==> (me, target) in o.follows)
    ensures o.result.Ok? ==> (o.result.value <==> (me, target) !in follows)
    ensures o.follows - {(me, target)} == follows - {(me, target)}
  {
    if target !in users then FollowOutcome(Err(UserNotFound), follows)
    else if target == me then FollowOutcome(Err(SelfFollow), follows)
    else if (me, target) in follows then FollowOutcome(Ok(false), follows - {(me, target)})
    else FollowOutcome(Ok(true), follows + {(me, target)})
  }

  /** `ToggleFollowView.post` on the store. */
  method ToggleFollow(db: Db, me: Id, target: Id) returns (r: Result<bool, ApiError>)
    requires db.Valid() && me in db.users
    modifies db`follows
    ensures db.Valid()
    ensures var o := FollowToggleSpec(old(db.follows), db.users.Keys, me, target);
      r == o.result && db.follows == o.follows
  {
    if target !in db.users {
      return Err(UserNotFound);
    }
    if target == me {
      return Err(SelfFollow);
    }
    if (me, target) in db.follows {
      db.follows := db.follows - {(me, target)};
      r := Ok(false);
    } else {
      db.follows := db.follows + {(me, target)};
      r := Ok(true);
    }
  }

  /** A second toggle undoes a successful first one and answers the opposite. */
  lemma {:induction false} FollowToggleTwice(follows: set<(Id, Id)>, users: set<Id>, me: Id, target: Id)
    requires FollowToggleSpec(follows, users, me, target).result.Ok?
    ensures var o1 := FollowToggleSpec(follows, users, me, target);
      var o2 := FollowToggleSpec(o1.follows, users, me, target);
      o2.result == Ok(!o1.result.value) && o2.follows == follows
  {
    var o1 := FollowToggleSpec(follows, users, me, target);
    if (me, target) in follows {
      assert o1.follows == follows - {(me, target)};
    } else {
      assert o1.follows == follows + {(me, target)};
    }
  }

  /** The toggle never creates an edge from a user to itself. */
  lemma NoSelfEdge(follows: set<(Id, Id)>, users: set<Id>, me: Id, target: Id, u: Id)
    requires (u, u) !in follows
    ensures (u, u) !in FollowToggleSpec(follows, users, me, target).follows
  {
  }

  /** `CheckFollowStatusView.get`: 404 for an unknown user, then the pair
      (`is_followed`, `is_self`). */
  function FollowStatus(follows: set<(Id, Id)>, users: set<Id>, me: Id, target: Id): (r: Result<(bool, bool), ApiError>)
    ensures r.Err? <==> target !in users
    ensures r.Err? ==> r.error == UserNotFound
    ensures r.Ok? ==> (r.value.1 <==> target == me)
    ensures r.Ok? && target == me ==> !r.value.0
    ensures r.Ok? && target != me ==> (r.value.0 <==> (me, target) in follows)
  {
    if target !in users then Err(UserNotFound)
    else if target == me then Ok((false, true))
    else Ok(((me, target) in follows, false))
  }

  /** After a successful toggle the status endpoint reports what the toggle answered. */
  lemma {:induction false} StatusAfterFollowToggle(follows: set<(Id, Id)>, users: set<Id>, me: Id, target: Id)
    requires FollowToggleSpec(follows, users, me, target).result.Ok?
    ensures var o := FollowToggleSpec(follows, users, me, target);
      FollowStatus(o.follows, users, me, target) == Ok((o.result.value, false))
  {
    var o := FollowToggleSpec(follows, users, me, target);
    assert target in users && target != me;
  }

  // ---------------------------------------------------------------- metadata extractor

  predicate HasScheme(url: string)
  {
    StartsWith(url, "http://") || StartsWith(url, "https://")
  }

  /** The URL the extractor works on: `https://` goes in front of a URL that does not
      start with `http://` or `https://` (the test is case-sensitive). */
  function WithScheme(url: string): (r: string)
    ensures HasScheme(r)
    ensures HasScheme(url) ==> r == url
    ensures !HasScheme(url) ==> StartsWith(r, "https://") && r == "https://" + url
    ensures |url| <= |r| && r[|r| - |url|..] == url
  {
    if HasScheme(url) then url else "https://" + url
  }

  lemma WithSchemeIdempotent(url: string)
    ensures WithScheme(WithScheme(url)) == WithScheme(url)
  {
  }

  predicate IsDelimiter(c: char) { c == '/' || c == '?' || c == '#' }

  /** The text before the first `/`, `?` or `#`. */
  function UpToDelimiter(s: string): (r: string)
    ensures |r| <= |s| && r == s[..|r|]
    ensures forall i :: 0 <= i < |r| ==> !IsDelimiter(r[i])
    ensures |r| < |s| ==> IsDelimiter(s[|r|])
  {
    if s == [] || IsDelimiter(s[0]) then [] else [s[0]] + UpToDelimiter(s[1..])
  }

  /** The length of the `http://` or `https://` a URL starts with. */
  function SchemeLength(url: string): (k: nat)
    requires HasScheme(url)
    ensures k <= |url|
    ensures k == 8 <==> StartsWith(url, "https://")
    ensures k == 7 ==> StartsWith(url, "http://")
  {
    if StartsWith(url, "https://") then 8 else 7
  }

  /** `urlparse(url).netloc.lower()` for a URL with a scheme: what follows the
      scheme's `//`, up to the first `/`, `?` or `#`, lower-cased. */
  function Domain(url: string): (d: string)
    requires HasScheme(url)
    ensures NoUpper(d)
    ensures forall i :: 0 <= i < |d| ==> !IsDelimiter(d[i])
    ensures SchemeLength(url) + |d| <= |url|
    ensures forall i :: 0 <= i < |d| ==>
      !IsDelimiter(url[SchemeLength(url) + i]) && d[i] == Lower(url[SchemeLength(url) + i])
    ensures SchemeLength(url) + |d| < |url| ==> IsDelimiter(url[SchemeLength(url) + |d|])
  {
    var rest := if StartsWith(url, "https://") then url[8..] else url[7..];
    var host := UpToDelimiter(rest);
    LowerStr(host)
  }

  /** The extractors `extract_metadata` chooses between. */
  datatype Platform = YouTube | Vimeo | Pornhub | XVideos | RedTube | XHamster | Generic

  /** The host names a site of platform `p`: it contains one of the site's domains.
      The generic extractor names no site. */
  predicate Names(domain: string, p: Platform)
  {
    match p
    case YouTube => Contains(domain, "youtube.com") || Contains(domain, "youtu.be")
    case Vimeo => Contains(domain, "vimeo.com")
    case Pornhub => Contains(domain, "pornhub.com")
    case XVideos => Contains(domain, "xvideos.com")
    case RedTube => Contains(domain, "redtube.com")
    case XHamster => Contains(domain, "xhamster.com")
    case Generic => false
  }

  /** The position of a platform in the chain of tests; the generic one comes last. */
  function Rank(p: Platform): nat
  {
    match p
    case YouTube => 0
    case Vimeo => 1
    case Pornhub => 2
    case XVideos => 3
    case RedTube => 4
    case XHamster => 5
    case Generic => 6
  }

  /** The platform for a lower-cased host: the first in the chain of tests whose
      domain the host contains, or the generic one when it contains none. */
  function PlatformOf(domain: string): (p: Platform)
    ensures p != Generic ==> Names(domain, p)
    ensures forall q :: Rank(q) < Rank(p) ==> !Names(domain, q)
    ensures p == Generic <==> forall q :: !Names(domain, q)
  {
    var p :=
      if Contains(domain, "youtube.com") || Contains(domain, "youtu.be") then YouTube
      else if Contains(domain, "vimeo.com") then Vimeo
      else if Contains(domain, "pornhub.com") then Pornhub
      else if Contains(domain, "xvideos.com") then XVideos
      else if Contains(domain, "redtube.com") then RedTube
      else if Contains(domain, "xhamster.com") then XHamster
      else Generic;
    assert p != Generic ==> Names(domain, p);
    p
  }

  /** The orientation the extracted video is proposed with: `straight` for the four
      sites whose extractors call the generic one with that default, `sfw` for
      YouTube and Vimeo (their own extractors and their generic fallback) and for
      every other site. */
  function ProposedOrientation(p: Platform): (o: string)
    ensures o in OrientationChoices
    ensures o == "straight" <==> p == Pornhub || p == XVideos || p == RedTube || p == XHamster
    ensures o != "straight" ==> o == "sfw"
  {
    if p == Pornhub || p == XVideos || p == RedTube || p == XHamster then "straight" else "sfw"
  }

  /** `extract_metadata`'s choice of extractor for a URL as the user typed it. */
  function Dispatch(url: string): Platform
  {
    PlatformOf(Domain(WithScheme(url)))
  }

  /** The host ends at the first delimiter. */
  lemma UpToFirstDelimiter(host: string, c: char, rest: string)
    requires forall i :: 0 <= i < |host| ==> !IsDelimiter(host[i])
    requires IsDelimiter(c)
    ensures UpToDelimiter(host + [c] + rest) == host
  {
    var s := host + [c] + rest;
    var r := UpToDelimiter(s);
    assert forall i :: 0 <= i < |host| ==> s[i] == host[i];
    assert s[|host|] == c;
    assert |r| == |host|;
  }

  /** A URL typed without a scheme is dispatched on the host it starts with. */
  lemma SchemelessDispatch(host: string, c: char, rest: string)
    requires !HasScheme(host + [c] + rest) && NoUpper(host)
    requires forall i :: 0 <= i < |host| ==> !IsDelimiter(host[i])
    requires IsDelimiter(c)
    ensures Dispatch(host + [c] + rest) == PlatformOf(host)
  {
    var url := host + [c] + rest;
    var full := WithScheme(url);
    assert full == "https://" + url;
    assert full[8..] == url;
    UpToFirstDelimiter(host, c, rest);
    LowerStrKeepsLowered(host);
  }

  /** A short link typed without a scheme goes to the YouTube extractor. */
  lemma {:induction false} ShortLinkIsYouTube(rest: string)
    ensures Dispatch("youtu.be/" + rest) == YouTube
  {
    var host := "youtu.be";
    var url := host + ['/'] + rest;
    assert url == "youtu.be/" + rest;
    assert !HasScheme(url) by {
      assert url[0] == 'y';
    }
    SchemelessDispatch(host, '/', rest);
    assert OccursAt(host, host, 0);
  }

  /** Only a host naming one of the four adult sites gets `straight` proposed. */
  lemma ExtractedOrientation(url: string)
    ensures ProposedOrientation(Dispatch(url)) in OrientationChoices
    ensures ProposedOrientation(Dispatch(url)) == "straight" ==>
      var d := Domain(WithScheme(url));
      Contains(d, "pornhub.com") || Contains(d, "xvideos.com") || Contains(d, "redtube.com")
      || Contains(d, "xhamster.com")
  {
    var d := Domain(WithScheme(url));
    var p := PlatformOf(d);
    assert Dispatch(url) == p;
    if ProposedOrientation(p) == "straight" {
      assert p != Generic && Names(d, p);
    }
  }

  // ---------------------------------------------------------------- tag suggestions

  predicate IsWordChar(c: char) { IsLetter(c) || IsDigit(c) || c == '_' }

  /** A match of the pattern `\w+`. */
  predicate IsWord(w: string) { w != [] && forall i :: 0 <= i < |w| ==> IsWordChar(w[i]) }

  /** The length of the run of word characters `s` starts with. */
  function RunLength(s: string): (n: nat)
    ensures n <= |s|
    ensures forall i :: 0 <= i < n ==> IsWordChar(s[i])
    ensures n < |s| ==> !IsWordChar(s[n])
  {
    if s == [] || !IsWordChar(s[0]) then 0 else 1 + RunLength(s[1..])
  }

  /** `re.findall(r'\b\w+\b', s)`: the maximal runs of word characters, in order. */
  function Words(s: string): (r: seq<string>)
    ensures forall w :: w in r ==> IsWord(w)
    decreases |s|
  {
    if s == [] then []
    else if !IsWordChar(s[0]) then Words(s[1..])
    else
      var n := RunLength(s);
      [s[..n]] + Words(s[n..])
  }

  /** No word character in `g`: the text between two words. */
  predicate IsGap(g: string) { forall i :: 0 <= i < |g| ==> !IsWordChar(g[i]) }

  /** The gaps and the words laid side by side: `gaps[0] + ws[0] + gaps[1] + ...`. */
  function Join(gaps: seq<string>, ws: seq<string>): (s: string)
    requires |gaps| == |ws| + 1
    decreases |ws|
  {
    if ws == [] then gaps[0] else gaps[0] + ws[0] + Join(gaps[1..], ws[1..])
  }

  /** `s` is `ws` with gaps of non-word characters around them, the gaps between
      two words not empty: the words are the maximal runs of word characters of
      `s`, in order. */
  ghost predicate SplitsInto(s: string, gaps: seq<string>, ws: seq<string>)
  {
    |gaps| == |ws| + 1 && s == Join(gaps, ws)
    && (forall k :: 0 <= k < |gaps| ==> IsGap(gaps[k]))
    && (forall k :: 0 < k < |ws| ==> gaps[k] != [])
    && (forall k :: 0 <= k < |ws| ==> IsWord(ws[k]))
  }

  /** The run of word characters at the front of `w + t` is `w` when the text after
      it starts with no word character. */
  lemma {:induction false} RunLengthOfWord(w: string, t: string)
    requires IsWord(w) && (t == [] || !IsWordChar(t[0]))
    ensures RunLength(w + t) == |w|
    decreases |w|
  {
    if |w| > 1 {
      assert (w + t)[1..] == w[1..] + t;
      RunLengthOfWord(w[1..], t);
    } else {
      assert (w + t)[1..] == t;
    }
  }

  /** A text that starts with a word and splits as `(gaps, ws)`. */
  lemma {:induction false} SplitFront(s: string, gaps: seq<string>, ws: seq<string>)
    requires SplitsInto(s, gaps, ws) && gaps[0] == [] && ws != []
    ensures var rest := Join(gaps[1..], ws[1..]);
      s == ws[0] + rest && SplitsInto(rest, gaps[1..], ws[1..])
      && (rest == [] || !IsWordChar(rest[0]))
  {
    var rest := Join(gaps[1..], ws[1..]);
    if |ws| > 1 {
      assert gaps[1] != [] && rest == gaps[1] + ws[1] + Join(gaps[2..], ws[2..]);
      assert rest[0] == gaps[1][0];
    } else {
      assert rest == gaps[1];
    }
  }

  /** A split of `s[1..]` extends to `s` when `s` starts with a non-word character. */
  lemma {:induction false} SplitGapFront(s: string, g: seq<string>, ws: seq<string>)
    requires s != [] && !IsWordChar(s[0]) && SplitsInto(s[1..], g, ws)
    ensures SplitsInto(s, [[s[0]] + g[0]] + g[1..], ws)
  {
    var gaps := [[s[0]] + g[0]] + g[1..];
    if ws == [] {
      assert s == [s[0]] + s[1..];
    } else {
      assert Join(gaps, ws) == [s[0]] + g[0] + ws[0] + Join(g[1..], ws[1..]);
      assert s == [s[0]] + s[1..];
    }
    assert forall k :: 0 < k < |gaps| ==> gaps[k] == g[k];
  }

  /** A split of the text after a word extends to the word and that text. */
  lemma {:induction false} SplitWordFront(w: string, t: string, g: seq<string>, ws: seq<string>)
    requires IsWord(w) && (t == [] || !IsWordChar(t[0])) && SplitsInto(t, g, ws)
    ensures SplitsInto(w + t, [[]] + g, [w] + ws)
  {
    var gaps := [[]] + g;
    assert Join(gaps, [w] + ws) == w + Join(g, ws);
    assert forall k :: 1 < k < |gaps| ==> gaps[k] == g[k - 1];
  }

  /** `Words` finds the split: its result, with suitable gaps, makes up the text. */
  lemma {:induction false} WordsSplit(s: string)
    ensures exists gaps :: SplitsInto(s, gaps, Words(s))
    decreases |s|
  {
    if s == [] {
      assert Words(s) == [] && Join([[]], []) == [];
      assert SplitsInto(s, [[]], Words(s));
    } else if !IsWordChar(s[0]) {
      WordsSplit(s[1..]);
      var g :| SplitsInto(s[1..], g, Words(s[1..]));
      assert Words(s) == Words(s[1..]);
      SplitGapFront(s, g, Words(s[1..]));
      assert SplitsInto(s, [[s[0]] + g[0]] + g[1..], Words(s));
    } else {
      var n := RunLength(s);
      WordsSplit(s[n..]);
      var g :| SplitsInto(s[n..], g, Words(s[n..]));
      assert Words(s) == [s[..n]] + Words(s[n..]);
      assert s == s[..n] + s[n..];
      SplitWordFront(s[..n], s[n..], g, Words(s[n..]));
      assert SplitsInto(s, [[]] + g, Words(s));
    }
  }

  /** Any split of a text into words separated by non-word gaps is the one `Words`
      finds, so the words are exactly the maximal runs, in order. */
  lemma {:induction false} SplitIsWords(s: string, gaps: seq<string>, ws: seq<string>)
    requires SplitsInto(s, gaps, ws)
    ensures ws == Words(s)
    decreases |s|
  {
    if gaps[0] != [] {
      var g := [gaps[0][1..]] + gaps[1..];
      assert s[0] == gaps[0][0];
      if ws == [] {
        assert s[1..] == gaps[0][1..];
      } else {
        assert s[1..] == gaps[0][1..] + ws[0] + Join(gaps[1..], ws[1..]);
      }
      assert forall k :: 0 < k < |g| ==> g[k] == gaps[k];
      assert SplitsInto(s[1..], g, ws);
      SplitIsWords(s[1..], g, ws);
    } else if ws != [] {
      SplitFront(s, gaps, ws);
      var rest := Join(gaps[1..], ws[1..]);
      RunLengthOfWord(ws[0], rest);
      assert s[..|ws[0]|] == ws[0] && s[|ws[0]|..] == rest;
      SplitIsWords(rest, gaps[1..], ws[1..]);
    }
  }

  /** The words of a text without capitals have none either. */
  lemma {:induction false} WordsOfLowered(s: string)
    requires NoUpper(s)
    ensures forall w :: w in Words(s) ==> NoUpper(w)
    decreases |s|
  {
    if s != [] {
      if !IsWordChar(s[0]) {
        WordsOfLowered(s[1..]);
      } else {
        var n := RunLength(s);
        WordsOfLowered(s[n..]);
        assert Words(s) == [s[..n]] + Words(s[n..]);
      }
    }
  }

  /** The words `extract_tags_from_title` leaves out. */
  const CommonWords: set<string> := {
    "the", "a", "an", "and", "or", "but", "in", "on", "at", "to", "for", "of", "with", "by",
    "is", "are", "was", "were", "be", "been", "being", "have", "has", "had", "do", "does", "did",
    "will", "would", "could", "should", "may", "might", "can", "must", "this", "that", "these", "those",
    "i", "you", "he", "she", "it", "we", "they", "me", "him", "her", "us", "them", "my", "your", "his",
    "its", "our", "their", "video", "videos", "clip", "clips", "watch", "watching", "hd", "free"
  }

  /** `str.isalpha`: non-empty and letters only. */
  predicate IsAlpha(w: string) { w != [] && forall i :: 0 <= i < |w| ==> IsLetter(w[i]) }

  predicate IsLowerAlpha(w: string) { w != [] && forall i :: 0 <= i < |w| ==> IsLowerLetter(w[i]) }

  /** A word worth suggesting: three letters or more, letters only, not a common word. */
  predicate Keeps(w: string) { |w| >= 3 && w !in CommonWords && IsAlpha(w) }

  /** The words of the lower-cased text that are worth suggesting, repeats included. */
  function KeptWords(text: string): (r: seq<string>)
    ensures forall w :: w in r <==> w in Words(LowerStr(text)) && Keeps(w)
  {
    Filter(Words(LowerStr(text)), Keeps)
  }

  /** `extract_tags_from_title`: nothing for an empty text; otherwise the first ten
      distinct lower-case words worth suggesting. Either ten are returned or every
      word worth suggesting is. */
  function ExtractTagsFromTitle(text: string): (r: seq<string>)
    ensures text == [] ==> r == []
    ensures |r| <= 10 && NoDup(r)
    ensures forall w :: w in r ==> Keeps(w) && IsLowerAlpha(w) && w in Words(LowerStr(text))
    ensures |r| == 10 || forall w :: w in Words(LowerStr(text)) && Keeps(w) ==> w in r
  {
    if text == [] then []
    else
      WordsOfLowered(LowerStr(text));
      var d := Distinct(KeptWords(text));
      var r := Take(d, 10);
      assert forall w :: w in r ==> w in d by {
        forall w | w in r ensures w in d {
          var k :| 0 <= k < |r| && r[k] == w;
          assert d[k] == w;
        }
      }
      r
  }

  /** The suggestions come in the order their words first occur in the text. */
  lemma {:induction false} ExtractTagsInOrder(text: string)
    ensures var r := ExtractTagsFromTitle(text);
      forall i, j :: 0 <= i < j < |r| ==>
        IndexOf(Words(LowerStr(text)), r[i]) < IndexOf(Words(LowerStr(text)), r[j])
  {
    if text != [] {
      var r := ExtractTagsFromTitle(text);
      var kept := KeptWords(text);
      var d := Distinct(kept);
      assert r == Take(d, 10);
      DistinctInOrder(kept);
      forall i, j | 0 <= i < j < |r|
        ensures IndexOf(Words(LowerStr(text)), r[i]) < IndexOf(Words(LowerStr(text)), r[j])
      {
        assert r[i] == d[i] && r[j] == d[j];
        FilterInOrder(Words(LowerStr(text)), Keeps, r[i], r[j]);
      }
    }
  }

  /** The suggestions are the first ten: a word worth suggesting is left out only
      when ten were found and all of them occur before it. */
  lemma {:induction false} ExtractTagsFirstTen(text: string)
    ensures var r := ExtractTagsFromTitle(text);
      var words := Words(LowerStr(text));
      forall w :: w in words && Keeps(w) && w !in r ==>
        |r| == 10 && forall i :: 0 <= i < |r| ==> IndexOf(words, r[i]) < IndexOf(words, w)
  {
    var r := ExtractTagsFromTitle(text);
    var words := Words(LowerStr(text));
    if text != [] {
      var kept := KeptWords(text);
      var d := Distinct(kept);
      assert r == Take(d, 10);
      DistinctInOrder(kept);
      forall w | w in words && Keeps(w) && w !in r
        ensures |r| == 10 && forall i :: 0 <= i < |r| ==> IndexOf(words, r[i]) < IndexOf(words, w)
      {
        assert w in d;
        var m :| 0 <= m < |d| && d[m] == w;
        assert forall k :: 0 <= k < |r| ==> r[k] == d[k] && d[k] != w;
        forall i | 0 <= i < |r| ensures IndexOf(words, r[i]) < IndexOf(words, w) {
          assert r[i] == d[i];
          FilterInOrder(words, Keeps, r[i], w);
        }
      }
    }
  }

  function OrEmpty(s: Option<string>): string
  {
    if s.Some? then s.value else ""
  }

  /** The generic extractor's suggestions: the title's, then the description's
      when there is one, de-duplicated in order and cut to ten. */
  function SuggestedTags(title: Option<string>, description: Option<string>): (r: seq<string>)
    ensures |r| <= 10 && NoDup(r)
    ensures forall w :: w in r ==>
      w in ExtractTagsFromTitle(OrEmpty(title))
      || (Given(description) && w in ExtractTagsFromTitle(description.value))
    ensures forall w :: (w in ExtractTagsFromTitle(OrEmpty(title))
                        || (Given(description) && w in ExtractTagsFromTitle(description.value))) && w !in r ==>
      |r| == 10
  {
    var fromTitle := ExtractTagsFromTitle(OrEmpty(title));
    var fromDescription := if Given(description) then ExtractTagsFromTitle(description.value) else [];
    var d := Distinct(fromTitle + fromDescription);
    var r := Take(d, 10);
    assert forall w :: w in r ==> w in d by {
      forall w | w in r ensures w in d {
        var k :| 0 <= k < |r| && r[k] == w;
        assert d[k] == w;
      }
    }
    r
  }

  /** The title's suggestions all survive the merge, first and in their order. */
  lemma {:induction false} TitleTagsFirst(title: Option<string>, description: Option<string>)
    ensures var t := ExtractTagsFromTitle(OrEmpty(title));
      var r := SuggestedTags(title, description);
      |t| <= |r| && r[..|t|] == t
  {
    var t := ExtractTagsFromTitle(OrEmpty(title));
    var fromDescription := if Given(description) then ExtractTagsFromTitle(description.value) else [];
    var d := Distinct(t + fromDescription);
    DistinctOfNoDup(t);
    DistinctAppend(t, fromDescription);
    assert d[..|t|] == t;
    var r := SuggestedTags(title, description);
    assert r == Take(d, 10);
    assert r[..|t|] == d[..|t|];
  }

  /** The merged suggestions are the first ten distinct words of the title's
      suggestions followed by the description's, in that order: they keep the order
      of first occurrence, and a word is left out only when ten were found and all
      of them occur before it. */
  lemma {:induction false} SuggestedFirstTen(title: Option<string>, description: Option<string>)
    ensures var all := ExtractTagsFromTitle(OrEmpty(title))
                       + (if Given(description) then ExtractTagsFromTitle(description.value) else []);
      var r := SuggestedTags(title, description);
      (forall i, j :: 0 <= i < j < |r| ==> IndexOf(all, r[i]) < IndexOf(all, r[j]))
      && forall w :: w in all && w !in r ==>
           |r| == 10 && forall i :: 0 <= i < |r| ==> IndexOf(all, r[i]) < IndexOf(all, w)
  {
    var all := ExtractTagsFromTitle(OrEmpty(title))
               + (if Given(description) then ExtractTagsFromTitle(description.value) else []);
    assert SuggestedTags(title, description) == Take(Distinct(all), 10);
    TakeDistinctInOrder(all, 10);
    TakeDistinctFirst(all, 10);
  }

  /** The generic extractor's title: the scraped one, or "Untitled Video". */
  function GenericTitle(title: Option<string>): (r: string)
    ensures r != ""
    ensures Given(title) ==> r == title.value
  {
    if Given(title) then title.value else "Untitled Video"
  }

  // ---------------------------------------------------------------- collect_bookmark

  /** A key parameter Python counts as true: present and not 0. */
  predicate Present(p: Option<Id>) { p.Some? && p.value != 0 }

  const MissingParameters := ApiError(400, "bookmark, collection, and channel are required.")
  const SourceNotFound := ApiError(404, "Source bookmark not found.")
  const ChannelMissing := ApiError(500, "IntegrityError: the channel does not exist.")
  const AlreadyCollected := ApiError(500, "IntegrityError: duplicate (user, channel, video) bookmark.")

  /** How `collect_bookmark` fails, if it does: the parameter check, the lookup of the
      source bookmark, then the two constraints the insert can violate, neither of
      which the view catches: the channel foreign key and the unique (user, channel,
      video) triple. The collection is only checked for presence. */
  function CollectError(bookmarks: map<Id, Bookmark>, channels: set<Id>, me: Id,
                        bookmark: Option<Id>, collection: Option<Id>, channel: Option<Id>): (e: Option<ApiError>)
    ensures e.None? <==>
      Present(bookmark) && Present(collection) && Present(channel) && bookmark.value in bookmarks
      && channel.value in channels && !Bookmarked(bookmarks, me, channel.value, bookmarks[bookmark.value].video)
    ensures !(Present(bookmark) && Present(collection) && Present(channel)) ==> e == Some(MissingParameters)
    ensures Present(bookmark) && Present(collection) && Present(channel) && bookmark.value !in bookmarks ==>
      e == Some(SourceNotFound)
  {
    if !Present(bookmark) || !Present(collection) || !Present(channel) then Some(MissingParameters)
    else if bookmark.value !in bookmarks then Some(SourceNotFound)
    else if channel.value !in channels then Some(ChannelMissing)
    else if Bookmarked(bookmarks, me, channel.value, bookmarks[bookmark.value].video) then Some(AlreadyCollected)
    else None
  }

  /** Which collection is named makes no difference. */
  lemma CollectionIgnored(bookmarks: map<Id, Bookmark>, channels: set<Id>, me: Id,
                          bookmark: Option<Id>, c1: Id, c2: Id, channel: Option<Id>)
    requires c1 != 0 && c2 != 0
    ensures CollectError(bookmarks, channels, me, bookmark, Some(c1), channel)
         == CollectError(bookmarks, channels, me, bookmark, Some(c2), channel)
  {
  }

  /** `collect_bookmark`: the copy belongs to `me`, sits in the named channel, was
      created `now`, and has the source's video, title, description, access and tags. */
  method CollectBookmark(db: Db, me: Id, bookmark: Option<Id>, collection: Option<Id>, channel: Option<Id>, now: int)
    returns (r: Result<Id, ApiError>)
    requires db.Valid() && me in db.users
    modifies db`bookmarks, db`nextId
    ensures db.Valid()
    ensures var e := CollectError(old(db.bookmarks), db.channels.Keys, me, bookmark, collection, channel);
      (e.Some? ==> r == Err(e.value) && db.bookmarks == old(db.bookmarks))
      && (e.None? ==>
            r.Ok? && Inserted(old(db.bookmarks), db.bookmarks, r.value)
            && db.bookmarks[r.value] == old(db.bookmarks)[bookmark.value].(user := me, channel := channel.value, createdAt := now))
  {
    if !Present(bookmark) || !Present(collection) || !Present(channel) {
      return Err(MissingParameters);
    }
    if bookmark.value !in db.bookmarks {
      return Err(SourceNotFound);
    }
    var orig := db.bookmarks[bookmark.value];
    if channel.value !in db.channels {
      return Err(ChannelMissing);
    }
    if exists b :: b in db.bookmarks && db.bookmarks[b].user == me && db.bookmarks[b].channel == channel.value
                   && db.bookmarks[b].video == orig.video {
      return Err(AlreadyCollected);
    }
    var id := db.InsertBookmark(orig.(user := me, channel := channel.value, createdAt := now));
    r := Ok(id);
  }
}
