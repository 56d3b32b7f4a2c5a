/** `IconImageProvider.get_image`: resolves an icon id such as
  * "<theme>/<folder>/<name>.png?<suffix>" to a file under the theme folder,
  * falling back to the "default" theme. The file system is passed in as two
  * functions: `isFile` (does this path name a file) and `readFile` (its bytes). */
module IconProvider {
  import opened Wrappers
  import opened Paths

  const DefaultTheme := "default"

  /** The icon handed to the QML side: its bytes and the size (-1, -1),
    * which means "as stored". */
  datatype Icon = Icon(data: seq<bv8>, width: int, height: int)

  /** `segment.rsplit("?")[0]`: the segment up to its first '?', which drops the
    * suffix Silica appends to icon ids. */
  function StripQuery(segment: string): (r: string)
    ensures r <= segment
    ensures '?' !in r
    ensures '?' in segment ==> segment[|r|] == '?'
    ensures '?' !in segment ==> r == segment
  {
    var first := Split(segment, '?')[0];
    assert '?' !in first && first <= segment && ('?' in segment ==> segment[|first|] == '?')
           && ('?' !in segment ==> first == segment) by {
      SplitPiecesLackSeparator(segment, '?');
      FindIsFirst(segment, '?');
    }
    first
  }

  /** The id split on '/', with the query suffix stripped from its last segment. */
  function IconSegments(imageId: string): (segs: seq<string>)
    ensures |segs| == |Split(imageId, '/')| >= 1
    ensures forall i :: 0 <= i < |segs| ==> '/' !in segs[i]
    ensures '?' !in segs[|segs| - 1]
    ensures segs[..|segs| - 1] == Split(imageId, '/')[..|segs| - 1]
    ensures segs[|segs| - 1] == StripQuery(Split(imageId, '/')[|segs| - 1])
  {
    var parts := Split(imageId, '/');
    var last := StripQuery(parts[|parts| - 1]);
    assert forall k :: 0 <= k < |parts| ==> '/' !in parts[k] by {
      SplitPiecesLackSeparator(imageId, '/');
    }
    assert forall c :: c in last ==> c in parts[|parts| - 1];
    parts[|parts| - 1 := last]
  }

  /** The path in the requested theme (the id's first segment names the theme). */
  function RequestedPath(themeFolder: string, imageId: string): string {
    PathJoinAll(themeFolder, IconSegments(imageId))
  }

  /** The same path with only the theme segment replaced by "default". */
  function FallbackPath(themeFolder: string, imageId: string): string {
    PathJoinAll(themeFolder, IconSegments(imageId)[0 := DefaultTheme])
  }

  /** Which file `get_image` reads, if any. */
  function ResolveIcon(themeFolder: string, imageId: string, isFile: string -> bool): (r: Option<string>)
    ensures r.Some? ==> isFile(r.value)
    ensures r.Some? ==> r.value == RequestedPath(themeFolder, imageId) || r.value == FallbackPath(themeFolder, imageId)
    ensures isFile(RequestedPath(themeFolder, imageId)) ==> r == Some(RequestedPath(themeFolder, imageId))
    ensures r.None? <==> !isFile(RequestedPath(themeFolder, imageId)) && !isFile(FallbackPath(themeFolder, imageId))
  {
    var requested := RequestedPath(themeFolder, imageId);
    if isFile(requested) then Some(requested)
    else
      var fallback := FallbackPath(themeFolder, imageId);
      if isFile(fallback) then Some(fallback) else None
  }

  /** `get_image`: the icon's bytes with size (-1, -1), or None when the icon
    * exists neither in the requested theme nor in the default one. */
  function GetImage(themeFolder: string, imageId: string, isFile: string -> bool,
                    readFile: string -> seq<bv8>): (r: Option<Icon>)
    ensures r.Some? <==> ResolveIcon(themeFolder, imageId, isFile).Some?
    ensures r.Some? ==> isFile(ResolveIcon(themeFolder, imageId, isFile).value)
                        && r.value == Icon(readFile(ResolveIcon(themeFolder, imageId, isFile).value), -1, -1)
  {
    match ResolveIcon(themeFolder, imageId, isFile)
    case None => None
    case Some(path) => Some(Icon(readFile(path), -1, -1))
  }

  /** Whatever follows a '?' in the last segment never changes which file is read. */
  lemma IgnoresQuerySuffix(themeFolder: string, imageId: string, suffix: string, isFile: string -> bool)
    requires '/' !in suffix
    ensures IconSegments(imageId + "?" + suffix) == IconSegments(imageId)
    ensures ResolveIcon(themeFolder, imageId + "?" + suffix, isFile) == ResolveIcon(themeFolder, imageId, isFile)
  {
    var p := Split(imageId, '/');
    var n := |p|;
    assert '/' !in "?" + suffix;
    assert imageId + "?" + suffix == imageId + ("?" + suffix);
    SplitAppend(imageId, "?" + suffix, '/');
    var q := Split(imageId + "?" + suffix, '/');
    assert p[n - 1] + ("?" + suffix) == p[n - 1] + "?" + suffix;
    assert q == p[..n - 1] + [p[n - 1] + "?" + suffix];
    SplitFirstIgnoresTail(p[n - 1], suffix, '?');
    assert StripQuery(q[n - 1]) == StripQuery(p[n - 1]);
  }

  /** An icon requested from the default theme has no separate fallback. */
  lemma DefaultThemeHasNoFallback(themeFolder: string, imageId: string, isFile: string -> bool)
    requires IconSegments(imageId)[0] == DefaultTheme
    ensures FallbackPath(themeFolder, imageId) == RequestedPath(themeFolder, imageId)
    ensures ResolveIcon(themeFolder, imageId, isFile).Some? <==> isFile(RequestedPath(themeFolder, imageId))
  {
    var segs := IconSegments(imageId);
    assert segs[0 := DefaultTheme] == segs;
  }

  /** An id without '?' is split on '/' and nothing more. */
  lemma {:induction false} IconSegmentsPlain(imageId: string)
    requires '?' !in imageId
    ensures IconSegments(imageId) == Split(imageId, '/')
  {
    var p := Split(imageId, '/');
    SplitKeepsAbsent(imageId, '/', '?');
    assert '?' !in p[|p| - 1];
  }

  /** The path tried for "<theme>/<rest>", when every segment is plain, is the
    * theme folder, "/", the theme, "/" and the rest. */
  lemma {:induction false} ThemedPath(themeFolder: string, theme: string, rest: string)
    requires themeFolder != "" && themeFolder[|themeFolder| - 1] != '/'
    requires theme != "" && '/' !in theme && '?' !in theme && '?' !in rest
    requires forall i :: 0 <= i < |Split(rest, '/')| ==> Split(rest, '/')[i] != ""
    ensures Split(theme + "/" + rest, '/') == [theme] + Split(rest, '/')
    ensures RequestedPath(themeFolder, theme + "/" + rest) == themeFolder + "/" + theme + "/" + rest
  {
    var id := theme + "/" + rest;
    var p := [theme] + Split(rest, '/');
    assert Split(id, '/') == p by {
      assert id == theme + ['/'] + rest;
      SplitAtFirst(theme, rest, '/');
    }
    assert forall i :: 0 <= i < |p| ==> p[i] != "" by {
      assert forall i :: 1 <= i < |p| ==> p[i] == Split(rest, '/')[i - 1];
    }
    assert '?' !in id;
    RequestedPathIsFolderSlashId(themeFolder, id);
    assert themeFolder + "/" + id == themeFolder + "/" + theme + "/" + rest;
  }

  /** For an id "<theme>/<rest>" of plain segments, the file tried first is in
    * the theme's folder and the fallback is the same file under "default". */
  lemma FallbackPathSwapsTheme(themeFolder: string, theme: string, rest: string)
    requires themeFolder != "" && themeFolder[|themeFolder| - 1] != '/'
    requires theme != "" && '/' !in theme && '?' !in theme && '?' !in rest
    requires forall i :: 0 <= i < |Split(rest, '/')| ==> Split(rest, '/')[i] != ""
    ensures RequestedPath(themeFolder, theme + "/" + rest) == themeFolder + "/" + theme + "/" + rest
    ensures FallbackPath(themeFolder, theme + "/" + rest) == themeFolder + "/" + DefaultTheme + "/" + rest
  {
    ThemedPath(themeFolder, theme, rest);
    assert '/' !in DefaultTheme && '?' !in DefaultTheme;
    ThemedPath(themeFolder, DefaultTheme, rest);
    FallbackIsDefaultRequested(themeFolder, theme, rest);
  }

  /** The fallback path of "<theme>/<rest>" is the path requested for "default/<rest>". */
  lemma FallbackIsDefaultRequested(themeFolder: string, theme: string, rest: string)
    requires '/' !in theme && '?' !in theme && '?' !in rest
    ensures FallbackPath(themeFolder, theme + "/" + rest) == RequestedPath(themeFolder, DefaultTheme + "/" + rest)
  {
    FallbackSegments(theme, rest);
  }

  /** The fallback segments of "<theme>/<rest>" are the segments of "default/<rest>". */
  lemma FallbackSegments(theme: string, rest: string)
    requires '/' !in theme && '?' !in theme && '?' !in rest
    ensures IconSegments(theme + "/" + rest)[0 := DefaultTheme] == IconSegments(DefaultTheme + "/" + rest)
  {
    var id, fallbackId := theme + "/" + rest, DefaultTheme + "/" + rest;
    var q := Split(rest, '/');
    assert IconSegments(id) == [theme] + q by {
      assert id == theme + ['/'] + rest;
      SplitAtFirst(theme, rest, '/');
      IconSegmentsPlain(id);
    }
    assert IconSegments(fallbackId) == [DefaultTheme] + q by {
      assert fallbackId == DefaultTheme + ['/'] + rest;
      assert '/' !in DefaultTheme;
      SplitAtFirst(DefaultTheme, rest, '/');
      IconSegmentsPlain(fallbackId);
    }
    assert ([theme] + q)[0 := DefaultTheme] == [DefaultTheme] + q;
  }

  /** For an id of non-empty segments without a '?', and a theme folder without
    * a trailing slash, the requested path is the folder, a slash and the id. */
  lemma RequestedPathIsFolderSlashId(themeFolder: string, imageId: string)
    requires themeFolder != "" && themeFolder[|themeFolder| - 1] != '/'
    requires '?' !in imageId
    requires forall i :: 0 <= i < |Split(imageId, '/')| ==> Split(imageId, '/')[i] != ""
    ensures RequestedPath(themeFolder, imageId) == themeFolder + "/" + imageId
  {
    IconSegmentsPlain(imageId);
    PiecesArePlain(imageId);
    PathJoinAllPlain(themeFolder, Split(imageId, '/'));
    JoinSplit(imageId, '/');
  }

  /** Non-empty pieces of a split on '/' neither start nor end with a slash. */
  lemma PiecesArePlain(imageId: string)
    requires forall i :: 0 <= i < |Split(imageId, '/')| ==> Split(imageId, '/')[i] != ""
    ensures forall i :: 0 <= i < |Split(imageId, '/')| ==> PlainSegment(Split(imageId, '/')[i])
  {
    var p := Split(imageId, '/');
    SplitPiecesLackSeparator(imageId, '/');
    forall i | 0 <= i < |p|
      ensures PlainSegment(p[i])
    {
      assert p[i][0] in p[i] && p[i][|p[i]| - 1] in p[i];
    }
  }
}
