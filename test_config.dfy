/** The helpers of the project's pytest configuration: the image format chosen
    from a file name, the login redirect an anonymous request is expected to
    get (which needs the `path` of Python's `urllib.parse.urlparse`), and the
    baseline rows seeded into the test database. */
module TestConfig {
  import opened Wrappers
  import opened Text

  // ---------------------------------------------------------------------
  // Searching strings.

  /** The first index of a character from `cs`. */
  function Find(s: string, cs: set<char>): (r: Option<nat>)
    ensures r.None? <==> forall i :: 0 <= i < |s| ==> s[i] !in cs
    ensures r.Some? ==> r.value < |s| && s[r.value] in cs && forall j :: 0 <= j < r.value ==> s[j] !in cs
    decreases |s|
  {
    if s == [] then None
    else if s[0] in cs then Some(0)
    else
      var rest := Find(s[1..], cs);
      if rest.Some? then Some(rest.value + 1) else None
  }

  /** The last index of `c`. */
  function FindLast(s: string, c: char): (r: Option<nat>)
    ensures r.None? <==> forall i :: 0 <= i < |s| ==> s[i] != c
    ensures r.Some? ==> r.value < |s| && s[r.value] == c && forall j :: r.value < j < |s| ==> s[j] != c
    decreases |s|
  {
    if s == [] then None
    else if s[|s| - 1] == c then Some(|s| - 1)
    else
      var r := FindLast(s[..|s| - 1], c);
      assert forall i :: 0 <= i < |s| - 1 ==> s[..|s| - 1][i] == s[i];
      r
  }

  predicate NoneOf(s: string, cs: set<char>) {
    forall i :: 0 <= i < |s| ==> s[i] !in cs
  }

  /** A first occurrence after a prefix without any of the characters. */
  lemma {:induction false} FindAfter(a: string, b: string, cs: set<char>)
    requires NoneOf(a, cs)
    ensures Find(a + b, cs) == if Find(b, cs).Some? then Some(|a| + Find(b, cs).value) else None
    decreases |a|
  {
    if a == [] {
      assert a + b == b;
    } else {
      assert (a + b)[0] == a[0];
      assert (a + b)[1..] == a[1..] + b;
      assert NoneOf(a[1..], cs);
      FindAfter(a[1..], b, cs);
    }
  }

  // ---------------------------------------------------------------------
  // `get_test_image`: the format for an image name.

  /** `name.rsplit(".", maxsplit=1)`: None when the name has no dot (the
      unpacking into two names then raises). */
  function RSplitDot(name: string): (r: Option<(string, string)>)
    ensures r.None? <==> forall i :: 0 <= i < |name| ==> name[i] != '.'
    ensures r.Some? ==> name == r.value.0 + "." + r.value.1 && NoneOf(r.value.1, {'.'})
  {
    match FindLast(name, '.')
    case None => None
    case Some(i) =>
      assert name == name[..i] + "." + name[i + 1..];
      Some((name[..i], name[i + 1..]))
  }

  /** The split finds the stem and extension a name was built from. */
  lemma RSplitDotJoin(stem: string, ext: string)
    requires NoneOf(ext, {'.'})
    ensures RSplitDot(stem + "." + ext) == Some((stem, ext))
  {
    var name := stem + "." + ext;
    var i := FindLast(name, '.');
    assert name[|stem|] == '.';
    assert i.Some? && i.value == |stem|;
    assert name[..|stem|] == stem;
    assert name[|stem| + 1..] == ext;
  }

  /** `format_by_ext.get(ext.lower(), ext.upper())`. */
  function FormatByExt(ext: string): (f: string) {
    match AsciiLower(ext)
    case "png" => "PNG"
    case "jpg" => "JPEG"
    case "jpeg" => "JPEG"
    case "webp" => "WEBP"
    case _ => AsciiUpper(ext)
  }

  /** Upper-casing ignores case. */
  lemma UpperOfLower(s: string)
    ensures AsciiUpper(AsciiLower(s)) == AsciiUpper(s)
  {
  }

  /** The format depends on the extension's letters only, not on their case. */
  lemma FormatIgnoresCase(a: string, b: string)
    requires AsciiLower(a) == AsciiLower(b)
    ensures FormatByExt(a) == FormatByExt(b)
  {
    UpperOfLower(a);
    UpperOfLower(b);
  }

  /** The known extensions map to PIL's names; every format is upper case. */
  lemma FormatTable(ext: string)
    ensures AsciiLower(ext) == "png" ==> FormatByExt(ext) == "PNG"
    ensures AsciiLower(ext) in {"jpg", "jpeg"} ==> FormatByExt(ext) == "JPEG"
    ensures AsciiLower(ext) == "webp" ==> FormatByExt(ext) == "WEBP"
    ensures AsciiLower(ext) !in {"png", "jpg", "jpeg", "webp"} ==> FormatByExt(ext) == AsciiUpper(ext)
    ensures AsciiUpper(FormatByExt(ext)) == FormatByExt(ext)
  {
  }

  /** The image format `get_test_image` saves a name with, or the unpacking error. */
  function ImageFormat(name: string): (r: Result<string, string>)
    ensures r.Err? <==> forall i :: 0 <= i < |name| ==> name[i] != '.'
    ensures r.Ok? ==> exists stem, ext :: name == stem + "." + ext && NoneOf(ext, {'.'}) && r.value == FormatByExt(ext)
  {
    match RSplitDot(name)
    case None => Err("not enough values to unpack (expected 2, got 1)")
    case Some((stem, ext)) => Ok(FormatByExt(ext))
  }

  /** Only the text after the last dot counts: `archive.tar.JPG` is a JPEG. */
  lemma ImageFormatOfJoin(stem: string, ext: string)
    requires NoneOf(ext, {'.'})
    ensures ImageFormat(stem + "." + ext) == Ok(FormatByExt(ext))
  {
    RSplitDotJoin(stem, ext);
  }

  // ---------------------------------------------------------------------
  // `urlparse`, as far as `.path` goes.

  /** WHATWG "C0 control or space", stripped from the front of a URL. */
  predicate IsC0OrSpace(c: char) {
    c <= ' '
  }

  /** The characters removed from anywhere in a URL. */
  const UnsafeUrlChars: set<char> := {'\t', '\r', '\n'}

  function LStripC0(s: string): (r: string)
    ensures |r| <= |s| && r == s[|s| - |r|..]
    ensures r == [] || !IsC0OrSpace(r[0])
    ensures s != [] && !IsC0OrSpace(s[0]) ==> r == s
    decreases |s|
  {
    if s != [] && IsC0OrSpace(s[0]) then LStripC0(s[1..]) else s
  }

  function RemoveUnsafe(s: string): (r: string)
    ensures NoneOf(r, UnsafeUrlChars)
    ensures NoneOf(s, UnsafeUrlChars) ==> r == s
    decreases |s|
  {
    if s == [] then []
    else (if s[0] in UnsafeUrlChars then [] else [s[0]]) + RemoveUnsafe(s[1..])
  }

  predicate IsAsciiLetter(c: char) {
    'a' <= c <= 'z' || 'A' <= c <= 'Z'
  }

  /** `scheme_chars`. */
  predicate IsSchemeChar(c: char) {
    IsAsciiLetter(c) || '0' <= c <= '9' || c == '+' || c == '-' || c == '.'
  }

  /** The scheme (lower-cased) and the rest: the text before the first `:`
      when it is non-empty, starts with an ASCII letter and has only scheme characters. */
  function SplitScheme(u: string): (r: (string, string))
    ensures r.0 == "" ==> r.1 == u
    ensures r.0 != "" ==> exists i :: 0 < i < |u| && u[i] == ':' && r.0 == AsciiLower(u[..i]) && r.1 == u[i + 1..]
  {
    match Find(u, {':'})
    case Some(i) =>
      if i > 0 && IsAsciiLetter(u[0]) && forall k :: 0 <= k < i ==> IsSchemeChar(u[k])
      then (AsciiLower(u[..i]), u[i + 1..])
      else ("", u)
    case None => ("", u)
  }

  /** `_splitnetloc(url, 2)` after a leading `//`: the network location runs to the first `/`, `?` or `#`. */
  function SplitNetloc(u: string): (r: (string, string))
    ensures !StartsWith(u, "//") ==> r == ("", u)
    ensures StartsWith(u, "//") ==> u == "//" + r.0 + r.1 && NoneOf(r.0, {'/', '?', '#'})
    ensures StartsWith(u, "//") ==> r.1 == [] || r.1[0] in {'/', '?', '#'}
  {
    if StartsWith(u, "//") then
      var rest := u[2..];
      assert u == "//" + rest;
      match Find(rest, {'/', '?', '#'})
      case None => (rest, [])
      case Some(d) =>
        assert rest == rest[..d] + rest[d..];
        (rest[..d], rest[d..])
    else ("", u)
  }

  /** `url.split(c, 1)` when `c in url`, else the whole text and `""`. */
  function SplitAt(u: string, c: char): (r: (string, string))
    ensures NoneOf(r.0, {c}) && |r.0| <= |u| && u[..|r.0|] == r.0
    ensures NoneOf(u, {c}) ==> r == (u, "")
    ensures !NoneOf(u, {c}) ==> u == r.0 + [c] + r.1
  {
    match Find(u, {c})
    case None => (u, "")
    case Some(i) =>
      assert u == u[..i] + [c] + u[i + 1..];
      (u[..i], u[i + 1..])
  }

  /** Splitting after a stretch without the separator keeps that stretch. */
  lemma SplitAtAfter(a: string, b: string, c: char)
    requires NoneOf(a, {c})
    ensures SplitAt(a + b, c).0 == a + SplitAt(b, c).0
  {
    FindAfter(a, b, {c});
    match Find(b, {c})
    case None =>
      assert NoneOf(a + b, {c});
    case Some(i) =>
      assert (a + b)[..|a| + i] == a + b[..i];
  }

  /** `uses_params`: the schemes whose last path segment can carry `;params`. */
  const UsesParams: set<string> := {"", "ftp", "hdl", "prospero", "http", "imap", "https", "shttp",
    "rtsp", "rtsps", "rtspu", "sip", "sips", "mms", "sftp", "tel"}

  /** `_splitparams`: the `;` that counts is the first one after the last `/`. */
  function SplitParams(u: string): (r: (string, string))
    ensures |r.0| <= |u| && u[..|r.0|] == r.0
    ensures NoneOf(u, {';'}) ==> r == (u, "")
  {
    match FindLast(u, '/')
    case Some(slash) =>
      (var tail := u[slash..];
       match Find(tail, {';'})
       case None => (u, "")
       case Some(i) => (u[..slash + i], u[slash + i + 1..]))
    case None =>
      (match Find(u, {';'})
       case None => (u, "")
       case Some(i) => (u[..i], u[i + 1..]))
  }

  /** The path: the text after the network location up to the query or
      fragment, without the `;params` of its last segment when the scheme has them. */
  function PathPart(scheme: string, afterNetloc: string): (path: string)
    ensures NoneOf(path, {'?', '#'})
  {
    var beforeQuery := SplitAt(SplitAt(afterNetloc, '#').0, '?').0;
    if scheme in UsesParams && !NoneOf(beforeQuery, {';'}) then SplitParams(beforeQuery).0 else beforeQuery
  }

  datatype ParsedUrl = ParsedUrl(scheme: string, netloc: string, path: string)

  /** Whether the network location has an unmatched `[` or `]`. */
  predicate UnbalancedBrackets(netloc: string) {
    (!NoneOf(netloc, {'['}) && NoneOf(netloc, {']'})) || (!NoneOf(netloc, {']'}) && NoneOf(netloc, {'['}))
  }

  /** `urlparse(url)` as far as scheme, network location and path go, with the
      bracket check that makes it raise `Invalid IPv6 URL`. */
  function UrlParse(url: string): (r: Result<ParsedUrl, string>)
    ensures r.Ok? ==> NoneOf(r.value.path, {'?', '#'})
  {
    var u := RemoveUnsafe(LStripC0(url));
    var split := SplitScheme(u);
    var netloc := SplitNetloc(split.1);
    if UnbalancedBrackets(netloc.0) then Err("Invalid IPv6 URL")
    else Ok(ParsedUrl(split.0, netloc.0, PathPart(split.0, netloc.1)))
  }

  lemma NoneOfConcat(a: string, b: string, cs: set<char>)
    requires NoneOf(a, cs) && NoneOf(b, cs)
    ensures NoneOf(a + b, cs)
  {
  }

  /** The path stage on a text that starts with the path. */
  lemma PathBeforeQueryOrFragment(scheme: string, p: string, rest: string)
    requires NoneOf(p, {'?', '#', ';'})
    requires rest == [] || rest[0] in {'?', '#'}
    ensures PathPart(scheme, p + rest) == p
  {
    SplitAtAfter(p, rest, '#');
    var r1 := SplitAt(rest, '#').0;
    assert r1 == [] || r1[0] == '?';
    SplitAtAfter(p, r1, '?');
    assert SplitAt(r1, '?').0 == [];
  }

  /** A URL that needs no cleaning goes through the stages unchanged. */
  lemma UrlParseStages(url: string, scheme: string, afterScheme: string, netloc: string, afterNetloc: string)
    requires url != [] && !IsC0OrSpace(url[0]) && NoneOf(url, UnsafeUrlChars)
    requires SplitScheme(url) == (scheme, afterScheme)
    requires SplitNetloc(afterScheme) == (netloc, afterNetloc)
    requires NoneOf(netloc, {'[', ']'})
    ensures UrlParse(url) == Ok(ParsedUrl(scheme, netloc, PathPart(scheme, afterNetloc)))
  {
    assert RemoveUnsafe(LStripC0(url)) == url;
  }

  /** A site-relative URL keeps its whole path: the part before the query or fragment. */
  lemma RelativeUrlPath(p: string, rest: string)
    requires |p| >= 1 && p[0] == '/' && (|p| == 1 || p[1] != '/')
    requires NoneOf(p, {'?', '#', ';'}) && NoneOf(p, UnsafeUrlChars) && NoneOf(rest, UnsafeUrlChars)
    requires rest == [] || rest[0] in {'?', '#'}
    ensures UrlParse(p + rest).Ok? && UrlParse(p + rest).value.path == p
  {
    var url := p + rest;
    NoneOfConcat(p, rest, UnsafeUrlChars);
    assert url[0] == '/';
    assert SplitScheme(url) == ("", url);
    assert |url| >= 2 ==> url[1] != '/';
    assert SplitNetloc(url) == ("", url);
    UrlParseStages(url, "", url, "", url);
    PathBeforeQueryOrFragment("", p, rest);
  }

  /** The scheme of `scheme://...` is found before the first colon. */
  lemma SchemeOfAbsolute(scheme: string, afterScheme: string)
    requires |scheme| >= 1 && IsAsciiLetter(scheme[0]) && forall k :: 0 <= k < |scheme| ==> IsSchemeChar(scheme[k])
    ensures SplitScheme(scheme + ([':'] + afterScheme)) == (AsciiLower(scheme), afterScheme)
  {
    var url := scheme + ([':'] + afterScheme);
    assert NoneOf(scheme, {':'});
    FindAfter(scheme, [':'] + afterScheme, {':'});
    assert ([':'] + afterScheme)[0] == ':';
    assert url[..|scheme|] == scheme && url[|scheme| + 1..] == afterScheme;
  }

  /** The network location of `//host/path` is the host. */
  lemma NetlocOfAbsolute(host: string, tail: string)
    requires NoneOf(host, {'/', '?', '#'})
    requires tail == [] || tail[0] in {'/', '?', '#'}
    ensures SplitNetloc("//" + (host + tail)) == (host, tail)
  {
    var u := "//" + (host + tail);
    assert StartsWith(u, "//");
    var rest := host + tail;
    assert u[2..] == rest;
    FindAfter(host, tail, {'/', '?', '#'});
    if tail == [] {
      assert rest == host;
    } else {
      assert Find(tail, {'/', '?', '#'}) == Some(0);
      assert rest[..|host|] == host && rest[|host|..] == tail;
    }
  }

  /** An absolute URL loses its scheme, host and query: only the path is left. */
  lemma AbsoluteUrlPath(scheme: string, host: string, p: string, rest: string)
    requires |scheme| >= 1 && IsAsciiLetter(scheme[0]) && forall k :: 0 <= k < |scheme| ==> IsSchemeChar(scheme[k])
    requires NoneOf(host, {'/', '?', '#', '[', ']'}) && NoneOf(host, UnsafeUrlChars)
    requires p == [] || p[0] == '/'
    requires NoneOf(p, {'?', '#', ';'}) && NoneOf(p, UnsafeUrlChars) && NoneOf(rest, UnsafeUrlChars)
    requires rest == [] || rest[0] in {'?', '#'}
    ensures UrlParse(scheme + ([':'] + ("//" + (host + (p + rest))))).Ok?
    ensures UrlParse(scheme + ([':'] + ("//" + (host + (p + rest))))).value.path == p
  {
    var tail := p + rest;
    var afterScheme := "//" + (host + tail);
    var url := scheme + ([':'] + afterScheme);
    NoneOfConcat(p, rest, UnsafeUrlChars);
    NoneOfConcat(host, tail, UnsafeUrlChars);
    NoneOfConcat("//", host + tail, UnsafeUrlChars);
    NoneOfConcat([':'], afterScheme, UnsafeUrlChars);
    assert NoneOf(scheme, UnsafeUrlChars);
    NoneOfConcat(scheme, [':'] + afterScheme, UnsafeUrlChars);
    SchemeOfAbsolute(scheme, afterScheme);
    assert tail == [] || tail[0] in {'/', '?', '#'};
    NetlocOfAbsolute(host, tail);
    assert url[0] == scheme[0];
    UrlParseStages(url, AsciiLower(scheme), afterScheme, host, tail);
    PathBeforeQueryOrFragment(AsciiLower(scheme), p, rest);
  }

  /** `assert_login_redirect`: the client method (`get` unless one is passed)
      and the expected redirect `LOGIN_URL?next=<path of url>`. */
  function ExpectedLoginRedirect(loginUrl: string, url: string, methodName: Option<string>): (r: Result<(string, string), string>)
    ensures r.Ok? <==> UrlParse(url).Ok?
    ensures r.Ok? ==> r.value.0 == (if methodName.Some? then methodName.value else "get")
    ensures r.Ok? ==> r.value.1 == loginUrl + "?next=" + UrlParse(url).value.path
  {
    match UrlParse(url)
    case Err(e) => Err(e)
    case Ok(parsed) => Ok((if methodName.Some? then methodName.value else "get", loginUrl + "?next=" + parsed.path))
  }

  // ---------------------------------------------------------------------
  // `_prepopulate_db_with_data`.

  /** A `Site` row. */
  datatype SiteRow = SiteRow(domain: string, name: string)

  /** The tables the fixture writes: courses, meta-courses and program bindings
      by id, sites by id, site configurations by the site they belong to (one
      entry per row), and notification types as id to code. */
  datatype Baseline = Baseline(bindings: set<int>, courses: set<int>, metaCourses: set<int>,
                               sites: map<int, SiteRow>, siteConfigs: seq<int>, notificationTypes: map<int, string>)

  /** The notification-type enum members as (name, value), in definition order. */
  predicate DistinctValues(members: seq<(string, int)>) {
    forall i, j :: 0 <= i < j < |members| ==> members[i].1 != members[j].1
  }

  /** The notification types after upserting the first members. */
  function UpsertTypes(types: map<int, string>, members: seq<(string, int)>): map<int, string>
    decreases |members|
  {
    if members == [] then types
    else UpsertTypes(types, members[..|members| - 1])[members[|members| - 1].1 := members[|members| - 1].0]
  }

  /** Every member ends up with the row `id = value, code = name`; other rows are untouched. */
  lemma {:induction false} UpsertTypesSpec(types: map<int, string>, members: seq<(string, int)>)
    requires DistinctValues(members)
    ensures forall i :: 0 <= i < |members| ==> members[i].1 in UpsertTypes(types, members) && UpsertTypes(types, members)[members[i].1] == members[i].0
    ensures forall id :: (forall i :: 0 <= i < |members| ==> members[i].1 != id) ==>
      (id in UpsertTypes(types, members) <==> id in types) && (id in types ==> UpsertTypes(types, members)[id] == types[id])
    decreases |members|
  {
    if members != [] {
      var prefix := members[..|members| - 1];
      assert forall i :: 0 <= i < |prefix| ==> prefix[i] == members[i];
      UpsertTypesSpec(types, prefix);
    }
  }

  /** The fixture's `sites_by_domain` after the first (id, domain) pairs: the
      last id upserted with a domain wins. */
  function SitesByDomain(domains: seq<(int, string)>): (m: map<string, int>)
    ensures forall i :: 0 <= i < |domains| ==> domains[i].1 in m
    ensures forall i :: 0 <= i < |domains| && (forall j :: i < j < |domains| ==> domains[j].1 != domains[i].1) ==>
      m[domains[i].1] == domains[i].0
    decreases |domains|
  {
    if domains == [] then map[]
    else
      var prefix := domains[..|domains| - 1];
      var (id, domain) := domains[|domains| - 1];
      assert forall i :: 0 <= i < |prefix| ==> prefix[i] == domains[i];
      SitesByDomain(prefix)[domain := id]
  }

  /** The fixture's effect, given the two fixed (id, domain) pairs and the enum members. */
  function Seeded(b: Baseline, testSite: (int, string), anotherSite: (int, string), members: seq<(string, int)>): Baseline {
    var sites := b.sites[testSite.0 := SiteRow(testSite.1, testSite.1)][anotherSite.0 := SiteRow(anotherSite.1, anotherSite.1)];
    var byDomain := SitesByDomain([testSite, anotherSite]);
    assert [testSite, anotherSite][0] == testSite && [testSite, anotherSite][1] == anotherSite;
    Baseline({}, {}, {}, sites, [byDomain[testSite.1], byDomain[anotherSite.1]], UpsertTypes(b.notificationTypes, members))
  }

  /** With distinct ids and domains the two sites hold their domain as domain
      and name, one configuration exists per site, courses, meta-courses and
      bindings are gone, other sites are kept. */
  lemma SeededSpec(b: Baseline, testSite: (int, string), anotherSite: (int, string), members: seq<(string, int)>)
    requires testSite.0 != anotherSite.0 && testSite.1 != anotherSite.1
    ensures var r := Seeded(b, testSite, anotherSite, members);
      r.sites[testSite.0] == SiteRow(testSite.1, testSite.1) &&
      r.sites[anotherSite.0] == SiteRow(anotherSite.1, anotherSite.1) &&
      r.siteConfigs == [testSite.0, anotherSite.0] &&
      r.bindings == {} && r.courses == {} && r.metaCourses == {} &&
      (forall id :: id != testSite.0 && id != anotherSite.0 ==> (id in r.sites <==> id in b.sites) && (id in b.sites ==> r.sites[id] == b.sites[id]))
  {
    var domains := [testSite, anotherSite];
    assert domains[0] == testSite && domains[1] == anotherSite;
  }

  /** Seeding twice leaves what seeding once leaves. */
  lemma SeededIdempotent(b: Baseline, testSite: (int, string), anotherSite: (int, string), members: seq<(string, int)>)
    requires DistinctValues(members)
    ensures Seeded(Seeded(b, testSite, anotherSite, members), testSite, anotherSite, members) == Seeded(b, testSite, anotherSite, members)
  {
    var once := Seeded(b, testSite, anotherSite, members);
    UpsertTypesSpec(b.notificationTypes, members);
    UpsertTypesSpec(once.notificationTypes, members);
    var t1 := once.notificationTypes;
    var t2 := UpsertTypes(t1, members);
    forall id | id in t1 || id in t2
      ensures id in t1 && id in t2 && t1[id] == t2[id]
    {
      if i :| 0 <= i < |members| && members[i].1 == id {
      }
    }
    assert t1 == t2;
  }

  /** The test database, written in place by the fixture. */
  class TestDatabase {
    var bindings: set<int>
    var courses: set<int>
    var metaCourses: set<int>
    var sites: map<int, SiteRow>
    var siteConfigs: seq<int>
    var notificationTypes: map<int, string>

    constructor (b: Baseline)
      ensures State() == b
    {
      bindings, courses, metaCourses := b.bindings, b.courses, b.metaCourses;
      sites, siteConfigs, notificationTypes := b.sites, b.siteConfigs, b.notificationTypes;
    }

    function State(): Baseline
      reads this
    {
      Baseline(bindings, courses, metaCourses, sites, siteConfigs, notificationTypes)
    }

    /** `_prepopulate_db_with_data`. */
    method Prepopulate(testSite: (int, string), anotherSite: (int, string), members: seq<(string, int)>)
      modifies this
      ensures State() == Seeded(old(State()), testSite, anotherSite, members)
    {
      bindings := {};
      courses := {};
      metaCourses := {};
      siteConfigs := [];
      var domains := [testSite, anotherSite];
      var sitesByDomain: map<string, int> := map[];
      var i := 0;
      while i < |domains|
        invariant 0 <= i <= |domains|
        invariant sitesByDomain == SitesByDomain(domains[..i])
        invariant sites == if i == 0 then old(sites) else if i == 1 then old(sites)[testSite.0 := SiteRow(testSite.1, testSite.1)]
                           else old(sites)[testSite.0 := SiteRow(testSite.1, testSite.1)][anotherSite.0 := SiteRow(anotherSite.1, anotherSite.1)]
        invariant bindings == {} && courses == {} && metaCourses == {} && siteConfigs == []
        invariant notificationTypes == old(notificationTypes)
      {
        var (siteId, domain) := domains[i];
        assert domains[..i + 1][..i] == domains[..i];
        sites := sites[siteId := SiteRow(domain, domain)];
        sitesByDomain := sitesByDomain[domain := siteId];
        i := i + 1;
      }
      assert domains[..i] == domains;
      assert domains[0] == testSite && domains[1] == anotherSite;
      var site1 := sitesByDomain[testSite.1];
      var site2 := sitesByDomain[anotherSite.1];
      siteConfigs := siteConfigs + [site1];
      siteConfigs := siteConfigs + [site2];
      var j := 0;
      while j < |members|
        invariant 0 <= j <= |members|
        invariant notificationTypes == UpsertTypes(old(notificationTypes), members[..j])
        invariant bindings == {} && courses == {} && metaCourses == {} && siteConfigs == [site1, site2]
        invariant sites == old(sites)[testSite.0 := SiteRow(testSite.1, testSite.1)][anotherSite.0 := SiteRow(anotherSite.1, anotherSite.1)]
      {
        assert members[..j + 1][..j] == members[..j];
        notificationTypes := notificationTypes[members[j].1 := members[j].0];
        j := j + 1;
      }
      assert members[..j] == members;
    }
  }
}
