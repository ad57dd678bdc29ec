/**
 * The path handling of src/images.rs: where a web image is cached (the
 * host's labels, then the URL's path segments), which encoding a file name's
 * extension selects, and whether `ImageLoader::load` treats a location as a
 * URL or as a file path.
 *
 * URL parsing belongs to the `url` crate; the model receives it as a
 * function `parse` from a location to the URL it denotes, if any. Paths are
 * sequences of components, as `PathBuf::push` builds them.
 */
module Images {
  import opened Wrappers
  import opened Errors

  /** A parsed URL: its scheme, its host if it has one, and its path. */
  datatype Url = Url(scheme: string, host: Option<string>, path: string)

  /**
   * What the `url` crate guarantees of the `http` and `https` URLs it parses
   * (their scheme is special, so they are hierarchical): a host contains no
   * `/`, and the path starts at the root, so `path_segments` is defined.
   * Nothing is assumed of URLs with other schemes.
   */
  predicate WellFormedUrl(u: Url) {
    IsWebScheme(u.scheme) && u.host.Some? ==> '/' !in u.host.value && |u.path| > 0 && u.path[0] == '/'
  }

  datatype ImageFormat = Jpeg | Png | Unknown

  // --------------------------------------------------------- splitting strings

  /** `s.split(c)`: the pieces between the occurrences of `c`; at least one, possibly empty. */
  function Split(s: string, c: char): (parts: seq<string>)
    ensures |parts| >= 1
    ensures forall i | 0 <= i < |parts| :: c !in parts[i]
  {
    if s == [] then
      [""]
    else
      var rest := Split(s[1..], c);
      if s[0] == c then [""] + rest else [[s[0]] + rest[0]] + rest[1..]
  }

  /** A character missing from `s` is missing from each of its pieces. */
  lemma {:induction false} SplitKeepsOut(s: string, c: char, d: char)
    requires d !in s
    ensures forall i | 0 <= i < |Split(s, c)| :: d !in Split(s, c)[i]
  {
    if s != [] {
      assert d !in s[1..] by {
        assert forall k | 0 <= k < |s[1..]| :: s[1..][k] == s[k + 1];
      }
      SplitKeepsOut(s[1..], c, d);
      var rest := Split(s[1..], c);
      if s[0] != c {
        assert forall k | 0 <= k < |rest[0]| :: ([s[0]] + rest[0])[k + 1] == rest[0][k];
      }
    }
  }

  /** The pieces put back together with `c` between them. */
  function Join(parts: seq<string>, c: char): string
    requires |parts| >= 1
  {
    if |parts| == 1 then parts[0] else parts[0] + [c] + Join(parts[1..], c)
  }

  /** Splitting and joining again gives back the string. */
  lemma {:induction false} JoinSplit(s: string, c: char)
    ensures Join(Split(s, c), c) == s
  {
    if s != [] {
      JoinSplit(s[1..], c);
      var rest := Split(s[1..], c);
      if s[0] == c {
        assert Split(s, c)[1..] == rest;
      } else if |rest| == 1 {
        assert Split(s, c) == [[s[0]] + rest[0]];
      } else {
        assert Split(s, c)[1..] == rest[1..];
      }
    }
  }

  /** A piece without `c` stays glued to what follows it. */
  lemma {:induction false} SplitPrefix(x: string, y: string, c: char)
    requires c !in x
    ensures Split(x + y, c) == [x + Split(y, c)[0]] + Split(y, c)[1..]
  {
    var ys := Split(y, c);
    if x == [] {
      assert x + y == y && x + ys[0] == ys[0];
      assert [ys[0]] + ys[1..] == ys;
    } else {
      assert (x + y)[0] == x[0] && (x + y)[1..] == x[1..] + y;
      SplitPrefix(x[1..], y, c);
      var rest := Split(x[1..] + y, c);
      assert rest[0] == x[1..] + ys[0] && rest[1..] == ys[1..];
      assert [x[0]] + (x[1..] + ys[0]) == x + ys[0];
    }
  }

  /** Joining pieces that do not contain the separator and splitting again gives back the pieces. */
  lemma {:induction false} SplitJoin(parts: seq<string>, c: char)
    requires |parts| >= 1 && forall i | 0 <= i < |parts| :: c !in parts[i]
    ensures Split(Join(parts, c), c) == parts
  {
    if |parts| == 1 {
      SplitPrefix(parts[0], "", c);
      assert parts[0] + "" == parts[0];
    } else {
      SplitJoin(parts[1..], c);
      var tail := Join(parts[1..], c);
      assert parts[0] + [c] + tail == parts[0] + ([c] + tail);
      SplitPrefix(parts[0], [c] + tail, c);
      assert ([c] + tail)[1..] == tail;
      assert Split([c] + tail, c) == [""] + parts[1..];
      assert parts[0] + "" == parts[0];
    }
  }

  /** `s` with every `c` replaced by `d`. */
  function Replace(s: string, c: char, d: char): (t: string)
    ensures |t| == |s| && forall i | 0 <= i < |s| :: t[i] == if s[i] == c then d else s[i]
  {
    if s == [] then [] else [if s[0] == c then d else s[0]] + Replace(s[1..], c, d)
  }

  /** Splitting at `c` and joining with `d` replaces every `c` by `d`. */
  lemma {:induction false} SplitJoinWith(s: string, c: char, d: char)
    ensures Join(Split(s, c), d) == Replace(s, c, d)
  {
    if s != [] {
      SplitJoinWith(s[1..], c, d);
      var rest := Split(s[1..], c);
      if s[0] == c {
        assert Split(s, c)[1..] == rest;
      } else if |rest| == 1 {
        assert Split(s, c) == [[s[0]] + rest[0]];
      } else {
        assert Split(s, c)[1..] == rest[1..];
      }
    }
  }

  lemma {:induction false} JoinAppend(a: seq<string>, b: seq<string>, c: char)
    requires |a| >= 1 && |b| >= 1
    ensures Join(a + b, c) == Join(a, c) + [c] + Join(b, c)
  {
    if |a| == 1 {
      assert (a + b)[1..] == b;
    } else {
      assert (a + b)[1..] == a[1..] + b;
      JoinAppend(a[1..], b, c);
    }
  }

  // ------------------------------------------------------ file names and extensions

  /** The normal components of a path: its pieces between separators, less empty ones and `.`. */
  function Components(path: string): (cs: seq<string>)
    ensures forall i | 0 <= i < |cs| :: cs[i] != "" && cs[i] != "." && '/' !in cs[i]
  {
    Normal(Split(path, '/'))
  }

  function Normal(parts: seq<string>): (cs: seq<string>)
    ensures forall i | 0 <= i < |cs| :: cs[i] != "" && cs[i] != "." && cs[i] in parts
  {
    if parts == [] then []
    else if parts[0] == "" || parts[0] == "." then Normal(parts[1..])
    else [parts[0]] + Normal(parts[1..])
  }

  /** `Path::file_name`: the last component, unless there is none or it is `..`. */
  function FileName(path: string): (r: Option<string>)
    ensures r.Some? ==> r.value != "" && r.value != "." && r.value != ".." && '/' !in r.value
  {
    var cs := Components(path);
    if |cs| == 0 || cs[|cs| - 1] == ".." then None else Some(cs[|cs| - 1])
  }

  /** The position of the last `c` in `s`, if any. */
  function LastIndexOf(s: string, c: char): (r: Option<nat>)
    ensures r.Some? ==> r.value < |s| && s[r.value] == c && c !in s[r.value + 1..]
    ensures r.None? ==> c !in s
  {
    if s == [] then None
    else if s[|s| - 1] == c then Some(|s| - 1)
    else
      var r := LastIndexOf(s[..|s| - 1], c);
      assert r.Some? ==> s[r.value + 1..] == s[..|s| - 1][r.value + 1..] + [s[|s| - 1]];
      r
  }

  /**
   * The extension of a file name: what follows its last dot, when that dot is
   * not the name's first character.
   */
  function ExtensionOf(name: string): Option<string> {
    match LastIndexOf(name, '.')
    case None => None
    case Some(i) => if i == 0 then None else Some(name[i + 1..])
  }

  /**
   * A name has an extension `e` exactly when it is a non-empty stem, a dot
   * and `e`, with no dot in `e`; a name without one has no dot past its
   * first character.
   */
  lemma {:induction false} ExtensionOfSplitsName(name: string)
    ensures ExtensionOf(name).Some? ==>
      var e := ExtensionOf(name).value;
      var stem := name[..|name| - |e| - 1];
      |e| + 1 < |name| && name == stem + "." + e && '.' !in e && stem != ""
    ensures ExtensionOf(name).None? ==> forall i | 1 <= i < |name| :: name[i] != '.'
  {
    var r := LastIndexOf(name, '.');
    if r.Some? && r.value > 0 {
      var i := r.value;
      assert name == name[..i] + "." + name[i + 1..];
    } else if r.Some? {
      forall i | 1 <= i < |name| ensures name[i] != '.' {
        assert name[i] == name[1..][i - 1];
      }
    }
  }

  /** `Path::extension`: the extension of the file name, if there is one. */
  function Extension(path: string): Option<string> {
    match FileName(path)
    case None => None
    case Some(name) => ExtensionOf(name)
  }

  /** `to_ascii_lowercase` on one character: `A` to `Z` become `a` to `z`, anything else is kept. */
  function LowerChar(c: char): (d: char)
    ensures 'A' <= c <= 'Z' ==> 'a' <= d <= 'z' && d as int - 'a' as int == c as int - 'A' as int
    ensures !('A' <= c <= 'Z') ==> d == c
  {
    if 'A' <= c <= 'Z' then (c as int - 'A' as int + 'a' as int) as char else c
  }

  /** `to_ascii_lowercase` on a string. */
  function AsciiLower(s: string): (t: string)
    ensures |t| == |s| && forall i | 0 <= i < |s| :: t[i] == LowerChar(s[i])
  {
    if s == [] then [] else [LowerChar(s[0])] + AsciiLower(s[1..])
  }

  lemma AsciiLowerIdempotent(s: string)
    ensures AsciiLower(AsciiLower(s)) == AsciiLower(s)
  {
    assert forall i | 0 <= i < |s| :: AsciiLower(AsciiLower(s))[i] == AsciiLower(s)[i];
  }

  /** The format a lower-cased extension names. */
  function FormatOf(extension: string): (f: ImageFormat) {
    if extension == "jpg" || extension == "jpeg" then Jpeg else if extension == "png" then Png else Unknown
  }

  /** `get_encoding_from_extension`: the format named by the path's extension, in any letter case. */
  function GetEncodingFromExtension(path: string): (f: ImageFormat)
    ensures f == Png <==> Extension(path).Some? && AsciiLower(Extension(path).value) == "png"
    ensures f == Jpeg <==> Extension(path).Some? && AsciiLower(Extension(path).value) in {"jpg", "jpeg"}
  {
    var extension := match Extension(path) case Some(e) => AsciiLower(e) case None => "";
    FormatOf(extension)
  }

  /** Paths whose extensions differ only in letter case get the same format. */
  lemma {:induction false} EncodingIgnoresCase(p: string, q: string)
    requires Extension(p).Some? && Extension(q).Some?
    requires AsciiLower(Extension(p).value) == AsciiLower(Extension(q).value)
    ensures GetEncodingFromExtension(p) == GetEncodingFromExtension(q)
  {
  }

  /** The position of the last `c` is right after the text before it when none follows. */
  lemma {:induction false} LastIndexAfter(x: string, y: string, c: char)
    requires c !in y
    ensures LastIndexOf(x + [c] + y, c) == Some(|x|)
    decreases |y|
  {
    var s := x + [c] + y;
    if y != [] {
      assert s[..|s| - 1] == x + [c] + y[..|y| - 1];
      LastIndexAfter(x, y[..|y| - 1], c);
    }
  }

  /** An upper-case extension names its format. */
  lemma UpperCaseExtension(path: string, name: string, ext: string)
    requires path == "images/Helm.PNG" && name == "Helm.PNG" && ext == "PNG"
    ensures GetEncodingFromExtension(path) == Png
  {
    HelmFileName(path, name);
    assert name == "Helm" + ['.'] + ext;
    LastIndexAfter("Helm", ext, '.');
    assert Extension(path) == Some(ext);
    LowerPng(ext);
  }

  lemma HelmFileName(path: string, name: string)
    requires path == "images/Helm.PNG" && name == "Helm.PNG"
    ensures FileName(path) == Some(name)
  {
    assert path == Join(["images", name], '/');
    SplitJoin(["images", name], '/');
    assert Normal([name]) == [name] by {
      assert [name][1..] == [];
    }
    assert ["images", name][1..] == [name];
  }

  lemma LowerPng(ext: string)
    requires ext == "PNG"
    ensures AsciiLower(ext) == "png"
  {
    assert LowerChar('P') == 'p' && LowerChar('N') == 'n' && LowerChar('G') == 'g';
  }

  /** Only the text after the last dot counts. */
  lemma LastDotExtension(path: string, ext: string)
    requires path == "b.tar.JpEg" && ext == "JpEg"
    ensures GetEncodingFromExtension(path) == Jpeg
  {
    SplitJoin([path], '/');
    assert path == "b.tar" + ['.'] + ext;
    LastIndexAfter("b.tar", ext, '.');
    assert Extension(path) == Some(ext);
    LowerJpeg(ext);
  }

  lemma LowerJpeg(ext: string)
    requires ext == "JpEg"
    ensures AsciiLower(ext) == "jpeg"
  {
    assert LowerChar('J') == 'j' && LowerChar('E') == 'e';
  }

  /** A hidden file's leading dot does not start an extension. */
  lemma HiddenFileHasNoExtension(path: string)
    requires path == ".png"
    ensures GetEncodingFromExtension(path) == Unknown
  {
    SplitJoin([path], '/');
    assert path == "" + ['.'] + "png";
    LastIndexAfter("", "png", '.');
  }

  // ------------------------------------------------------------------- web URLs

  const HTTP_ONLY := InvalidArgumentError("url", "must be an http or https URL")
  const NEEDS_HOST := InvalidArgumentError("url", "must specify a hostname")
  const NEEDS_FILE := InvalidArgumentError("url", "must specify a path to a file")

  predicate IsWebScheme(scheme: string) {
    scheme == "http" || scheme == "https"
  }

  /**
   * The first check of `parse_web_url_and_cache_path` that a location fails,
   * if any: the URL must parse, have a web scheme, have a host, and have a
   * path naming a file, in that order.
   */
  function Rejection(parsed: Option<Url>): (e: Option<AppError>)
    ensures parsed.None? ==> e == Some(UrlParseError)
    ensures parsed.Some? && !IsWebScheme(parsed.value.scheme) ==> e == Some(HTTP_ONLY)
    ensures parsed.Some? && IsWebScheme(parsed.value.scheme) && parsed.value.host.None? ==> e == Some(NEEDS_HOST)
    ensures (parsed.Some? && IsWebScheme(parsed.value.scheme) && parsed.value.host.Some? &&
      (parsed.value.path == "/" || Extension(parsed.value.path).None?)) ==> e == Some(NEEDS_FILE)
    ensures e.None? <==> (parsed.Some? && IsWebScheme(parsed.value.scheme) && parsed.value.host.Some? &&
      parsed.value.path != "/" && Extension(parsed.value.path).Some?)
  {
    match parsed
    case None => Some(UrlParseError)
    case Some(u) =>
      if !IsWebScheme(u.scheme) then Some(HTTP_ONLY)
      else if u.host.None? then Some(NEEDS_HOST)
      else if u.path == "/" || Extension(u.path).None? then Some(NEEDS_FILE)
      else None
  }

  /**
   * `parse_web_url_and_cache_path`, given what `Url::parse` made of the
   * location: the URL with `http` upgraded to `https`, and the cache path
   * made of the host's dot-separated labels followed by the path's segments.
   */
  method ParseWebUrlAndCachePath(parsed: Option<Url>) returns (r: Result<(Url, seq<string>), AppError>)
    requires parsed.Some? ==> WellFormedUrl(parsed.value)
    ensures match Rejection(parsed)
      case Some(e) => r == Err(e)
      case None =>
        var u := parsed.value;
        r == Ok((u.(scheme := "https"), Split(u.host.value, '.') + Split(u.path[1..], '/')))
  {
    if parsed.None? {
      return Err(UrlParseError);
    }
    var url := parsed.value;
    if url.scheme == "http" {
      url := url.(scheme := "https");
    }
    if url.scheme != "https" {
      return Err(HTTP_ONLY);
    }
    if url.host.None? {
      return Err(NEEDS_HOST);
    }
    var host := url.host.value;
    if url.path == "/" || Extension(url.path).None? {
      return Err(NEEDS_FILE);
    }
    var labels := Split(host, '.');
    var cachePath := PushAll([], labels);
    assert cachePath == labels;
    cachePath := PushAll(cachePath, Split(url.path[1..], '/'));
    Accepted(parsed.value);
    return Ok((url, cachePath));
  }

  /**
   * A URL of any other scheme, such as `foo://host` with its empty path,
   * can be given to the checks and is rejected as not http or https.
   */
  lemma OtherSchemeRejected(u: Url)
    requires !IsWebScheme(u.scheme)
    ensures WellFormedUrl(u)
    ensures Rejection(Some(u)) == Some(HTTP_ONLY)
  {
  }

  /** `path.push(fragment)` for each fragment in turn. */
  method PushAll(path: seq<string>, fragments: seq<string>) returns (r: seq<string>)
    ensures r == path + fragments
  {
    r := path;
    for i := 0 to |fragments|
      invariant r == path + fragments[..i]
    {
      r := r + [fragments[i]];
    }
  }

  /**
   * The cache path spells out the URL: its fragments are single components,
   * and joined with `/` they give the host with its dots turned into `/`,
   * followed by the URL's path.
   */
  lemma {:induction false} CachePathSpellsUrl(host: string, path: string)
    requires '/' !in host && |path| >= 1 && path[0] == '/'
    ensures var cachePath := Split(host, '.') + Split(path[1..], '/');
      (forall i | 0 <= i < |cachePath| :: '/' !in cachePath[i]) &&
      Join(cachePath, '/') == Replace(host, '.', '/') + path
  {
    var labels := Split(host, '.');
    var segments := Split(path[1..], '/');
    JoinAppend(labels, segments, '/');
    SplitJoinWith(host, '.', '/');
    JoinSplit(path[1..], '/');
    var spelled := Replace(host, '.', '/');
    assert Join(labels + segments, '/') == spelled + ['/'] + path[1..];
    assert [path[0]] + path[1..] == path;
    assert spelled + ['/'] + path[1..] == spelled + ([path[0]] + path[1..]);
    SplitKeepsOut(host, '.', '/');
  }

  /**
   * The unit test of src/images.rs: the helmet image on the wiki is cached
   * under `oldschool/runescape/wiki/images/Serpentine_helm_detail.png`.
   */
  lemma ItParses(u: Url, host: string, path: string, name: string)
    requires host == "oldschool.runescape.wiki" && name == "Serpentine_helm_detail.png"
    requires path == "/images/" + name && u == Url("https", Some(host), path)
    ensures WellFormedUrl(u) && Rejection(Some(u)).None?
    ensures Split(host, '.') + Split(path[1..], '/') == ["oldschool", "runescape", "wiki", "images", name]
  {
    HelmetAccepted(u, path, name);
    HelmetWellFormed(u, host, path, name);
    HostLabels(host, "oldschool", "runescape", "wiki");
    PathSegments(path, "images", name);
  }

  lemma HelmetWellFormed(u: Url, host: string, path: string, name: string)
    requires host == "oldschool.runescape.wiki" && name == "Serpentine_helm_detail.png"
    requires path == "/images/" + name && u == Url("https", Some(host), path)
    ensures WellFormedUrl(u)
  {
    assert forall i | 0 <= i < |host| :: host[i] != '/';
  }

  lemma HelmetAccepted(u: Url, path: string, name: string)
    requires name == "Serpentine_helm_detail.png" && path == "/images/" + name
    requires u.scheme == "https" && u.host.Some? && u.path == path
    ensures Rejection(Some(u)).None?
  {
    HelmetExtension(path, name);
    assert path != "/" by {
      assert |path| > 1;
    }
    Accepted(u);
  }

  lemma Accepted(u: Url)
    requires IsWebScheme(u.scheme) && u.host.Some? && u.path != "/" && Extension(u.path).Some?
    ensures Rejection(Some(u)).None?
  {
  }

  lemma HostLabels(host: string, a: string, b: string, c: string)
    requires a == "oldschool" && b == "runescape" && c == "wiki" && host == "oldschool.runescape.wiki"
    ensures Split(host, '.') == [a, b, c]
  {
    assert host == a + ['.'] + (b + ['.'] + c);
    assert [a, b, c][1..] == [b, c] && [b, c][1..] == [c];
    assert Join([b, c], '.') == b + ['.'] + c;
    assert Join([a, b, c], '.') == a + ['.'] + (b + ['.'] + c);
    SplitJoin([a, b, c], '.');
  }

  lemma PathSegments(path: string, dir: string, name: string)
    requires dir == "images" && name == "Serpentine_helm_detail.png" && path == "/images/" + name
    ensures Split(path[1..], '/') == [dir, name]
    ensures Split(path, '/') == ["", dir, name]
  {
    assert path[1..] == dir + ['/'] + name;
    assert path == "" + ['/'] + (dir + ['/'] + name);
    assert Join([dir, name], '/') == dir + ['/'] + name by {
      assert [dir, name][1..] == [name];
    }
    assert Join(["", dir, name], '/') == "" + ['/'] + (dir + ['/'] + name) by {
      assert ["", dir, name][1..] == [dir, name];
    }
    SplitJoin([dir, name], '/');
    SplitJoin(["", dir, name], '/');
  }

  lemma HelmetExtension(path: string, name: string)
    requires name == "Serpentine_helm_detail.png" && path == "/images/" + name
    ensures Extension(path) == Some("png")
  {
    PathSegments(path, "images", name);
    assert ["", "images", name][1..] == ["images", name];
    assert ["images", name][1..] == [name];
    assert Normal([name]) == [name] by {
      assert [name][1..] == [];
    }
    assert Normal(["images", name]) == ["images", name];
    assert Components(path) == ["images", name];
    assert name == "Serpentine_helm_detail" + ['.'] + "png";
    LastIndexAfter("Serpentine_helm_detail", "png", '.');
  }

  // ------------------------------------------------------------------- dispatch

  /** Where `ImageLoader::load` sends a location. */
  datatype Source = FromUrl(url: string) | FromFile(path: string)

  /**
   * `ImageLoader::load`: a location that parses as an `http` or `https` URL is
   * fetched from the web; anything else is opened as a file path.
   */
  function LoadRoute(location: string, parsed: Option<Url>): (s: Source)
    ensures s == FromUrl(location) || s == FromFile(location)
  {
    if parsed.Some? && IsWebScheme(parsed.value.scheme) then FromUrl(location) else FromFile(location)
  }

  /**
   * A location goes to the URL loader exactly when that loader gets past
   * parsing and the scheme check; its only remaining objections are a
   * missing host or a path that names no file.
   */
  lemma RouteMatchesWebChecks(location: string, parsed: Option<Url>)
    ensures LoadRoute(location, parsed).FromUrl? <==> Rejection(parsed) != Some(UrlParseError) && Rejection(parsed) != Some(HTTP_ONLY)
    ensures LoadRoute(location, parsed).FromUrl? ==> Rejection(parsed) in {None, Some(NEEDS_HOST), Some(NEEDS_FILE)}
  {
  }
}
