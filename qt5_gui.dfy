/** The pure helpers of the Qt 5 GUI module: newline conversion for QML text,
  * the version string, and routing of image ids to image providers. */
module Qt5Gui {
  import opened Wrappers
  import opened Paths
  import opened IconProvider

  const LineBreak := "<br>"

  /** Number of occurrences of `c` in `s`. */
  function Count(s: string, c: char): nat {
    if s == [] then 0 else (if s[0] == c then 1 else 0) + Count(s[1..], c)
  }

  /** `newlines2brs`: every '\n' becomes "<br>", since QML breaks lines with that tag. */
  function NewlinesToBrs(text: string): (r: string)
    ensures '\n' !in r
    ensures |r| == |text| + 3 * Count(text, '\n')
  {
    if text == [] then []
    else (if text[0] == '\n' then LineBreak else [text[0]]) + NewlinesToBrs(text[1..])
  }

  /** The reverse rewriting: every "<br>" becomes '\n'. */
  function BrsToNewlines(s: string): string {
    if |s| >= 4 && s[..4] == LineBreak then "\n" + BrsToNewlines(s[4..])
    else if s == [] then []
    else [s[0]] + BrsToNewlines(s[1..])
  }

  /** The conversion works piecewise. */
  lemma {:induction false} NewlinesToBrsAppend(a: string, b: string)
    ensures NewlinesToBrs(a + b) == NewlinesToBrs(a) + NewlinesToBrs(b)
  {
    if a != [] {
      assert (a + b)[1..] == a[1..] + b;
      NewlinesToBrsAppend(a[1..], b);
    } else {
      assert a + b == b;
    }
  }

  lemma {:induction false} CountAppend(a: string, b: string, c: char)
    ensures Count(a + b, c) == Count(a, c) + Count(b, c)
  {
    if a != [] {
      assert (a + b)[1..] == a[1..] + b;
      CountAppend(a[1..], b, c);
    } else {
      assert a + b == b;
    }
  }

  /** Every character keeps its place: character `i` of the text sits at `i`
    * plus three per earlier newline, and a newline there is now "<br>". */
  lemma {:induction false} CharacterPlacement(text: string, i: nat)
    requires i < |text|
    ensures var at := i + 3 * Count(text[..i], '\n');
            var r := NewlinesToBrs(text);
            if text[i] == '\n' then at + 4 <= |r| && r[at..at + 4] == LineBreak
            else at < |r| && r[at] == text[i]
  {
    var at := i + 3 * Count(text[..i], '\n');
    assert text == text[..i] + text[i..];
    NewlinesToBrsAppend(text[..i], text[i..]);
    var head := NewlinesToBrs(text[..i]);
    var tail := NewlinesToBrs(text[i..]);
    var r := head + tail;
    assert |head| == at;
    assert text[i..][0] == text[i] && text[i..][1..] == text[i + 1..];
    if text[i] == '\n' {
      assert tail == LineBreak + NewlinesToBrs(text[i + 1..]);
      assert r[at..at + 4] == tail[..4];
    } else {
      assert tail == [text[i]] + NewlinesToBrs(text[i + 1..]);
      assert r[at] == tail[0];
    }
  }

  /** Text without newlines is passed through unchanged. */
  lemma {:induction false} NewlinesToBrsKeepsPlainText(text: string)
    requires '\n' !in text
    ensures NewlinesToBrs(text) == text
  {
    if text != [] {
      assert '\n' !in text[1..];
      NewlinesToBrsKeepsPlainText(text[1..]);
    }
  }

  /** For text without '<' the conversion is undone by BrsToNewlines. */
  lemma {:induction false} BrsToNewlinesUndoes(text: string)
    requires '<' !in text
    ensures BrsToNewlines(NewlinesToBrs(text)) == text
  {
    if text != [] {
      var rest := NewlinesToBrs(text[1..]);
      assert '<' !in text[1..];
      BrsToNewlinesUndoes(text[1..]);
      if text[0] == '\n' {
        var r := LineBreak + rest;
        assert r[..4] == LineBreak && r[4..] == rest;
      } else {
        var r := [text[0]] + rest;
        assert r[0] == text[0] && r[0] != '<';
        assert r[1..] == rest;
      }
    }
  }

  /** `tsubame_version`: the version string, or "unknown" when there is none. */
  function TsubameVersion(version: Option<string>): (r: string)
    ensures version.None? ==> r == "unknown"
    ensures version.Some? ==> r == version.value
  {
    match version
    case None => "unknown"
    case Some(v) => v
  }

  /** The image providers known to the GUI, by id prefix. */
  datatype ImageProvider = IconImageProvider

  const ImageProviders: map<string, ImageProvider> := map["icon" := IconImageProvider]

  /** Where `_select_image_provider_cb` sends an image id. */
  datatype Route =
    | Routed(providerId: string, imageId: string)
    | MissingProviderId                   // no '/': the unpacking raises ValueError
    | UnknownProvider(providerId: string) // no such provider: the lookup raises KeyError

  function RouteImage(providers: map<string, ImageProvider>, imageId: string): (r: Route)
    ensures r.MissingProviderId? <==> '/' !in imageId
    ensures r.Routed? ==> r.providerId in providers && '/' !in r.providerId
                          && imageId == r.providerId + "/" + r.imageId
    ensures r.UnknownProvider? ==> r.providerId !in providers && '/' !in r.providerId
                                   && |r.providerId| < |imageId| && imageId[..|r.providerId| + 1] == r.providerId + "/"
  {
    match SplitOnce(imageId, '/')
    case None => MissingProviderId
    case Some((providerId, rest)) =>
      assert imageId[..|providerId| + 1] == providerId + "/";
      if providerId in providers then Routed(providerId, rest) else UnknownProvider(providerId)
  }

  /** The prefix picks the provider and everything after the first '/' reaches it
    * unchanged, further slashes included. */
  lemma RouteImageSplitsAtFirstSlash(providers: map<string, ImageProvider>, providerId: string, rest: string)
    requires '/' !in providerId
    ensures RouteImage(providers, providerId + "/" + rest) ==
            if providerId in providers then Routed(providerId, rest) else UnknownProvider(providerId)
  {
    SplitOnceJoin(providerId, rest, '/');
  }

  /** `_select_image_provider_cb`: every failure (a missing '/', an unknown
    * provider) is logged and answered with None. */
  function SelectImageProvider(providers: map<string, ImageProvider>, imageId: string, themeFolder: string,
                               isFile: string -> bool, readFile: string -> seq<bv8>): (r: Option<Icon>)
    ensures !RouteImage(providers, imageId).Routed? ==> r == None
    ensures RouteImage(providers, imageId).Routed? ==>
              r == GetImage(themeFolder, RouteImage(providers, imageId).imageId, isFile, readFile)
  {
    match RouteImage(providers, imageId)
    case Routed(providerId, rest) =>
      (match providers[providerId]
       case IconImageProvider => GetImage(themeFolder, rest, isFile, readFile))
    case _ => None
  }

  /** An "icon/..." id reaches the icon provider with the prefix removed. */
  lemma IconIdsReachIconProvider(rest: string, themeFolder: string,
                                 isFile: string -> bool, readFile: string -> seq<bv8>)
    ensures SelectImageProvider(ImageProviders, "icon/" + rest, themeFolder, isFile, readFile)
            == GetImage(themeFolder, rest, isFile, readFile)
  {
    assert "icon/" + rest == "icon" + "/" + rest;
    RouteImageSplitsAtFirstSlash(ImageProviders, "icon", rest);
  }
}
