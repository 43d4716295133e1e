/** The records of the operations app: tags (which normalise their own name when
    saved or cleaned), videos with their cached like count, and reports. */
module OperationsModels {
  import opened Wrappers
  import opened Text
  import opened UsersModels

  /** The values the `orientation` field of a video offers. */
  const OrientationChoices: seq<string> := ["straight", "gay", "bi", "trans", "sfw"]

  /** The rewrite `Tag.save` applies: a non-empty name is lower-cased, loses its
      spaces and is stripped; the empty name is kept. */
  function SavedName(name: string): string
  {
    if name != "" then Strip(RemoveChar(LowerStr(name), ' ')) else name
  }

  /** A tag row. Its name is unique in the tag table (a unique column), which the
      store's invariant states. */
  class Tag {
    var name: string

    constructor (name: string)
      ensures this.name == name
    {
      this.name := name;
    }

    /** `save` rewrites a non-empty name to its lower-cased, space-free, stripped
        form before it is written; an empty name is written as it is. */
    method Save()
      modifies this`name
      ensures name == SavedName(old(name))
    {
      if name != "" {
        name := Strip(RemoveChar(LowerStr(name), ' '));
      }
    }

    /** `clean` applies the same rewrite and then refuses a name that the rewrite
        emptied; the rewrite stays applied even when it refuses. */
    method Clean() returns (r: Result<(), string>)
      modifies this`name
      ensures name == SavedName(old(name))
      ensures r.Err? <==> old(name) != "" && name == ""
    {
      r := Ok(());
      if name != "" {
        name := Strip(RemoveChar(LowerStr(name), ' '));
        if name == "" {
          r := Err("Tag name cannot be empty after normalization.");
        }
      }
    }
  }

  datatype Video = Video(
    sourceUrl: Option<string>,
    title: string,
    thumbnailUrl: Option<string>,
    embedUrl: Option<string>,
    orientation: Option<string>,
    tags: set<Id>,
    createdAt: int,
    createdBy: Option<Id>,
    likesCount: int)

  /** A video as `objects.create` makes it: no tags yet and a like count of zero. */
  function NewVideo(sourceUrl: Option<string>, title: string, thumbnailUrl: Option<string>,
                    embedUrl: Option<string>, orientation: Option<string>,
                    createdBy: Option<Id>, now: int): (v: Video)
    ensures v.likesCount == 0 && v.tags == {}
    ensures v.sourceUrl == sourceUrl && v.title == title && v.createdBy == createdBy
    ensures v.createdAt == now
  {
    Video(sourceUrl, title, thumbnailUrl, embedUrl, orientation, {}, now, createdBy, 0)
  }

  datatype Report = Report(
    bookmark: Id,
    user: Option<Id>,
    reportType: string,
    createdAt: int,
    resolvedAt: Option<int>,
    isResolved: bool)

  /** A report as it is filed: unresolved and without a resolution time. */
  function NewReport(bookmark: Id, user: Option<Id>, reportType: string, now: int): (r: Report)
    ensures !r.isResolved && r.resolvedAt == None
    ensures r.bookmark == bookmark && r.user == user && r.createdAt == now
  {
    Report(bookmark, user, reportType, now, None, false)
  }
}
