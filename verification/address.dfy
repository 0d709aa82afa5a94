/** The address classifier: a structural stand-in for java.net.URL, the per-task domain
    string, the href prefixing rules of the link loop and extractFileExt. */
module Address {
  import opened Wrappers
  import opened Strings

  /** What the crawler reads of a java.net.URL: getProtocol, getAuthority (empty when
      absent), getHost, getPath, and the query and fragment kept verbatim in rest.
      Equality is structural. */
  datatype Url = Url(protocol: string, authority: string, host: string, path: string, rest: string)

  /** Protocols java.net.URL has a built-in handler for (jar is left out). */
  const KnownProtocols: set<string> := {"http", "https", "ftp", "file", "mailto", "jrt"}

  /** SKIPPED_EXTS: extensions that are claimed but never crawled; compared case-sensitively. */
  const SkippedExts: seq<string> := ["jpg", "jpeg", "png", "gif", "tiff", "bmp", "svg"]

  predicate IsSlash(c: char) { c == '/' }
  predicate IsDot(c: char) { c == '.' }

  /** URL.isValidProtocol: a letter, then letters, digits, '.', '+' or '-'. */
  predicate IsScheme(s: string) {
    |s| > 0 && IsAsciiLetter(s[0]) &&
    forall i :: 1 <= i < |s| ==> IsAsciiLetter(s[i]) || IsAsciiDigit(s[i]) || s[i] in {'.', '+', '-'}
  }

  /** URLStreamHandler.parseURL's port check: an empty port is allowed, any other must be
      a number Integer.parseInt accepts and at least -1 (the "no port" value). */
  predicate PortOk(port: string) {
    port == "" || (ParseInt(port).Some? && ParseInt(port).value >= -1)
  }

  /** The host of an authority, as URLStreamHandler.parseURL finds it: with more than one
      '@' the authority is not server-based and the host is empty; otherwise the user info
      up to the '@' and the port after the first ':' are dropped, and a bad port is a
      malformed URL. Hosts in brackets (IPv6 literals) get no special treatment. */
  function HostOf(authority: string): (r: Option<string>)
    ensures r.Some? ==> '@' !in r.value && ':' !in r.value
    ensures r.None? ==> ':' in authority
  {
    var at := IndexOfAny(authority, {'@'});
    if at < |authority| && '@' in authority[at + 1..] then Some("")
    else
      var hp := if at < |authority| then authority[at + 1..] else authority;
      var colon := IndexOfAny(hp, {':'});
      assert colon < |hp| ==> hp[colon] in authority;
      assert forall i :: 0 <= i < colon ==> hp[i] in hp[..colon];
      if colon < |hp| && !PortOk(hp[colon + 1..]) then None else Some(hp[..colon])
  }

  /** Two '@' anywhere in an authority leave the host empty, whatever the port. */
  lemma HostOfTwoAts(authority: string, i: int, j: int)
    requires 0 <= i < j < |authority| && authority[i] == '@' && authority[j] == '@'
    ensures HostOf(authority) == Some("")
  {
    var at := IndexOfAny(authority, {'@'});
    assert authority[at + 1..][j - at - 1] == '@';
  }

  /** Without user info, the host is what comes before the ':', and the port text
      decides whether the URL is malformed. */
  lemma HostOfPort(host: string, port: string)
    requires '@' !in host && ':' !in host && '@' !in port
    ensures HostOf(host + ":" + port) == if PortOk(port) then Some(host) else None
  {
    var hp := host + ":" + port;
    HostPort(host, port);
    NoAt(host, port);
    IndexOfAnyAt(hp, {'@'}, |hp|);
  }

  /** With user info and one '@', the host is what lies between the '@' and the ':'. */
  lemma HostOfUserPort(user: string, host: string, port: string)
    requires '@' !in user && '@' !in host && ':' !in host && '@' !in port
    ensures HostOf(user + "@" + host + ":" + port) == if PortOk(port) then Some(host) else None
  {
    NoAt(host, port);
    assert user + "@" + host + ":" + port == user + "@" + (host + ":" + port);
    HostOfSkipUser(user, host + ":" + port);
    HostOfPort(host, port);
  }

  /** User info before a single '@' does not change the host. */
  lemma HostOfSkipUser(user: string, rest: string)
    requires '@' !in user && '@' !in rest
    ensures HostOf(user + "@" + rest) == HostOf(rest)
  {
    var a := user + "@" + rest;
    IndexOfAnyAt(a, {'@'}, |user|) by {
      assert forall i :: 0 <= i < |user| ==> a[i] == user[i];
    }
    assert a[|user| + 1..] == rest;
    IndexOfAnyAt(rest, {'@'}, |rest|);
  }

  lemma NoAt(host: string, port: string)
    requires '@' !in host && '@' !in port
    ensures '@' !in host + ":" + port
    ensures forall i :: 0 <= i < |host + ":" + port| ==> (host + ":" + port)[i] !in {'@'}
  {
  }

  lemma HostPort(host: string, port: string)
    requires ':' !in host
    ensures var hp := host + ":" + port;
            IndexOfAny(hp, {':'}) == |host| && hp[..|host|] == host && hp[|host| + 1..] == port
  {
    var hp := host + ":" + port;
    IndexOfAnyAt(hp, {':'}, |host|) by {
      assert forall i :: 0 <= i < |host| ==> hp[i] == host[i];
    }
    assert hp[..|host|] == host;
    assert hp[|host| + 1..] == port;
  }

  /** The protocol checks every parsed URL passes. */
  predicate ProtocolOk(p: string) {
    IsScheme(p) && ToLower(p) == p && p in KnownProtocols
  }

  /** The shape of a URL read by the generic parser: an authority free of '/', '?' and
      '#' with its host, a path free of '?' and '#', and the query and fragment. */
  predicate HierarchicalShape(u: Url) {
    && (forall i :: 0 <= i < |u.authority| ==> u.authority[i] !in {'/', '?', '#'})
    && HostOf(u.authority) == Some(u.host)
    && (forall i :: 0 <= i < |u.path| ==> u.path[i] !in {'?', '#'})
    && (u.rest == "" || u.rest[0] in {'?', '#'})
  }

  /** The shape of a mailto URL: no authority or host, no fragment, an address that is
      not all white space, and a query after the last '?' if there is one. */
  predicate MailtoShape(u: Url) {
    && u.authority == "" && u.host == ""
    && '#' !in u.path && '#' !in u.rest
    && (u.rest == "" ==> '?' !in u.path)
    && (u.rest != "" ==> u.rest[0] == '?' && '?' !in u.rest[1..])
    && !AllWhitespace(u.path + u.rest)
  }

  /** The shape of every URL the parser produces. */
  predicate WellFormed(u: Url) {
    && ProtocolOk(u.protocol)
    && if u.protocol == "mailto" then MailtoShape(u) else HierarchicalShape(u)
  }

  lemma LowerScheme(s: string)
    requires IsScheme(s)
    ensures IsScheme(ToLower(s)) && ToLower(ToLower(s)) == ToLower(s)
  {
  }

  /** The authority and what follows it, once the scheme and its ':' are gone. Four
      slashes start a UNC name, which has no authority. */
  function SplitAuthority(r: string): (at: (string, string))
    ensures forall i :: 0 <= i < |at.0| ==> at.0[i] !in {'/', '?', '#'}
    ensures !StartsWith(r, "//") || StartsWith(r, "////") ==> at == ("", r)
    ensures StartsWith(r, "//") && !StartsWith(r, "////") ==>
              r == "//" + at.0 + at.1 && (at.1 == "" || at.1[0] in {'/', '?', '#'})
  {
    if StartsWith(r, "//") && !StartsWith(r, "////") then
      var a := r[2..];
      var e := IndexOfAny(a, {'/', '?', '#'});
      assert r == "//" + a[..e] + a[e..];
      (a[..e], a[e..])
    else ("", r)
  }

  /** The URL made of a checked protocol other than mailto and the text after its ':'. */
  function ParseHierarchical(protocol: string, r: string): (u: Option<Url>)
    requires ProtocolOk(protocol) && protocol != "mailto"
    ensures u.Some? ==> WellFormed(u.value) && u.value.protocol == protocol
    ensures u.None? <==> HostOf(SplitAuthority(r).0).None?
  {
    var (authority, tail) := SplitAuthority(r);
    var q := IndexOfAny(tail, {'?', '#'});
    match HostOf(authority)
    case None => None
    case Some(host) => Some(Url(protocol, authority, host, tail[..q], tail[q..]))
  }

  predicate IsQuery(c: char) { c == '?' }

  /** The mailto handler's parseURL: everything before the fragment is the address, the
      fragment is dropped, and an address that is empty or all white space is the
      "No email address" error, which new URL reports as malformed. */
  function ParseMailto(r: string): (u: Option<Url>)
    ensures u.Some? ==> WellFormed(u.value) && u.value.protocol == "mailto"
    ensures u.None? <==> AllWhitespace(r[..IndexOfAny(r, {'#'})])
    ensures u.Some? ==> u.value.path + u.value.rest == r[..IndexOfAny(r, {'#'})]
  {
    var file := r[..IndexOfAny(r, {'#'})];
    if AllWhitespace(file) then None
    else
      MailtoProtocol();
      Some(MailtoUrl(file))
  }

  lemma MailtoProtocol()
    ensures ProtocolOk("mailto")
  {
    ToLowerNoUpper("mailto");
  }

  /** A mailto URL: the address up to the last '?' and the query from it. */
  function MailtoUrl(file: string): (u: Url)
    requires '#' !in file && !AllWhitespace(file)
    ensures u.protocol == "mailto" && MailtoShape(u) && u.path + u.rest == file
  {
    var q := LastIndexWhere(file, IsQuery);
    if q < 0 then
      assert file + "" == file;
      Url("mailto", "", "", file, "")
    else
      var path, rest := file[..q], file[q..];
      assert path + rest == file;
      assert forall i :: 0 <= i < |rest| - 1 ==> rest[1..][i] == file[q + 1 + i];
      Url("mailto", "", "", path, rest)
  }

  /** The text after a checked protocol's ':', read by that protocol's handler. */
  function ParseAfter(protocol: string, r: string): (u: Option<Url>)
    requires ProtocolOk(protocol)
    ensures u.Some? ==> WellFormed(u.value) && u.value.protocol == protocol
  {
    if protocol == "mailto" then ParseMailto(r) else ParseHierarchical(protocol, r)
  }

  /** The "url:" prefix new URL skips, in any case. */
  predicate HasUrlPrefix(s: string) {
    |s| >= 4 && ToLower(s[..4]) == "url:"
  }

  /** new URL(spec) without a context URL; None is a MalformedURLException: no
      protocol before the first '/', an invalid or unknown protocol, or an error of the
      protocol's handler. The spec is trimmed and a leading "url:" skipped first. */
  function ParseUrl(spec: string): (r: Option<Url>)
    ensures r.Some? ==> ':' in spec
    ensures r.Some? ==> WellFormed(r.value)
  {
    var t := Trim(spec);
    ParseScheme(if HasUrlPrefix(t) then t[4..] else t)
  }

  /** The protocol up to the first ':' (when no '/' comes first) and the rest. */
  function ParseScheme(s: string): (r: Option<Url>)
    ensures r.Some? ==> ':' in s
    ensures r.Some? ==> WellFormed(r.value)
  {
    var c := IndexOfAny(s, {':', '/'});
    if c == |s| || s[c] != ':' || !IsScheme(s[..c]) then None
    else
      var protocol := ToLower(s[..c]);
      LowerScheme(s[..c]);
      if protocol !in KnownProtocols then None
      else ParseAfter(protocol, s[c + 1..])
  }

  /** The CrawlerTask domain: protocol://authority, or for an authority-less URL the
      protocol and the path up to its last '/'; None is the exception substring(0, -1)
      throws when that path holds no '/'. */
  function Domain(u: Url): (r: Option<string>)
    ensures r.None? <==> u.authority == "" && '/' !in u.path
    ensures u.authority != "" ==> r == Some(u.protocol + "://" + u.authority)
  {
    if u.authority != "" then Some(u.protocol + "://" + u.authority)
    else
      var i := LastIndexWhere(u.path, IsSlash);
      if i < 0 then None else Some(u.protocol + ":" + u.path[..i])
  }

  /** Without an authority the domain is the protocol and the path's directory. */
  lemma DomainOfPath(u: Url, dir: string, name: string)
    requires u.authority == "" && u.path == dir + "/" + name && '/' !in name
    ensures Domain(u) == Some(u.protocol + ":" + dir)
  {
    forall i | |dir| < i < |u.path|
      ensures !IsSlash(u.path[i])
    {
      assert u.path[i] == name[i - |dir| - 1];
    }
    LastIndexAt(u.path, IsSlash, |dir|);
    assert u.path[..|dir|] == dir;
  }

  /** The link loop's prefixing of a raw href; None means the href is skipped without
      being counted (empty, or a fragment). "//" is tested before "/". */
  function Normalize(href: string, u: Url, domain: string): (r: Option<string>)
    ensures r.None? <==> href == "" || href[0] == '#'
    ensures r.Some? ==> |href| <= |r.value| && r.value[|r.value| - |href|..] == href
  {
    if href == "" || StartsWith(href, "#") then None
    else if StartsWith(href, "//") then Some(u.protocol + ":" + href)
    else if StartsWith(href, "/") then Some(domain + href)
    else Some(href)
  }

  /** The three prefixing rules: a protocol-relative href gets the page's protocol, a
      root-relative one the task's domain, and any other kept href stays as it is. */
  lemma NormalizeCases(href: string, u: Url, domain: string)
    requires href != "" && href[0] != '#'
    ensures StartsWith(href, "//") ==> Normalize(href, u, domain) == Some(u.protocol + ":" + href)
    ensures StartsWith(href, "/") && !StartsWith(href, "//") ==> Normalize(href, u, domain) == Some(domain + href)
    ensures href[0] != '/' ==> Normalize(href, u, domain) == Some(href)
  {
  }

  /** The part of an href from its last '/' on. */
  function FileName(href: string): string
    requires '/' in href
  {
    href[LastIndexWhere(href, IsSlash)..]
  }

  /** extractFileExt: the last non-empty '.'-piece of the file name, or "" when the
      file name has no '.'; None is the exception substring(-1) throws without '/'. */
  function ExtractFileExt(href: string): (r: Option<string>)
    ensures r.None? <==> '/' !in href
  {
    var i := LastIndexWhere(href, IsSlash);
    if i < 0 then None
    else
      var fileName := FileName(href);
      if |fileName| > 0 && '.' in fileName then
        FileNameParts(fileName);
        var parts := JavaSplit(fileName, IsDot);
        Some(parts[|parts| - 1])
      else Some("")
  }

  /** The '.'-pieces of a file name that holds a '.': the pieces of the name without its
      trailing dots, the last of which is everything after the last inner '.'. */
  lemma FileNameParts(fileName: string)
    requires |fileName| > 0 && fileName[0] == '/' && '.' in fileName
    ensures var core := StripTrailing(fileName, IsDot);
            var parts := JavaSplit(fileName, IsDot);
            && |core| > 0
            && parts == Split(core, IsDot)
            && parts[|parts| - 1] == core[LastIndexWhere(core, IsDot) + 1..]
  {
    var core := StripTrailing(fileName, IsDot);
    var i :| 0 <= i < |fileName| && fileName[i] == '.';
    JavaSplitStripped(fileName, IsDot, i);
    SplitLast(core, IsDot);
  }

  /** e occurs in fileName at k, at its start or after a '.', with only dots after it. */
  ghost predicate ExtensionAt(e: string, fileName: string, k: int) {
    && 0 <= k && k + |e| <= |fileName|
    && fileName[k..k + |e|] == e
    && (k == 0 || fileName[k - 1] == '.')
    && forall j :: k + |e| <= j < |fileName| ==> fileName[j] == '.'
  }

  /** e is the extension of fileName: a non-empty '.'-free piece that starts the name or
      follows a '.', with only dots after it. */
  ghost predicate IsExtensionOf(e: string, fileName: string) {
    e != "" && '.' !in e && exists k :: ExtensionAt(e, fileName, k)
  }

  /** What extractFileExt promises: no extension without a '.' after the last '/', and
      otherwise the last dot-separated piece, which never holds a '.'. */
  lemma ExtractFileExtSpec(href: string)
    requires '/' in href
    ensures ExtractFileExt(href).Some?
    ensures '.' !in FileName(href) ==> ExtractFileExt(href) == Some("")
    ensures '.' in FileName(href) ==> IsExtensionOf(ExtractFileExt(href).value, FileName(href))
  {
    var fileName := FileName(href);
    if '.' in fileName {
      FileNameParts(fileName);
      var core := StripTrailing(fileName, IsDot);
      var l := LastIndexWhere(core, IsDot);
      var e := core[l + 1..];
      assert e == ExtractFileExt(href).value;
      ExtensionFound(fileName, core, l);
    }
  }

  lemma ExtensionFound(fileName: string, core: string, l: int)
    requires core == StripTrailing(fileName, IsDot) && |core| > 0
    requires l == LastIndexWhere(core, IsDot)
    ensures IsExtensionOf(core[l + 1..], fileName)
  {
    var e := core[l + 1..];
    assert fileName[l + 1..l + 1 + |e|] == e;
    assert ExtensionAt(e, fileName, l + 1);
    assert '.' !in e by {
      forall j | 0 <= j < |e|
        ensures e[j] != '.'
      {
        assert e[j] == core[l + 1 + j];
      }
    }
  }

  /** A leading "url:" is skipped before the protocol is read. */
  lemma UrlPrefixSkipped(body: string)
    requires body != "" && !IsBlank(body[|body| - 1])
    ensures ParseUrl("url:" + body) == ParseScheme(body)
  {
    ToLowerNoUpper("url:");
    UrlPrefixOf("url:", body);
  }

  /** The same in any mix of cases, as String.regionMatches with ignoreCase compares. */
  lemma UrlPrefixOf(p: string, body: string)
    requires |p| == 4 && ToLower(p) == "url:" && !IsBlank(p[0])
    requires body != "" && !IsBlank(body[|body| - 1])
    ensures ParseUrl(p + body) == ParseScheme(body)
  {
    var t := p + body;
    assert t[0] == p[0] && t[|t| - 1] == body[|body| - 1];
    TrimUnchanged(t);
    assert t[..4] == p && t[4..] == body;
  }

  /** A mailto URL with an empty address is malformed. */
  lemma MailtoEmpty()
    ensures ParseUrl("mailto:") == None
  {
    MailtoProtocol();
    SchemePrefix("mailto", "");
    assert "mailto" + ":" + "" == "mailto:";
  }

  /** The mailto handler does not read an authority: "//x/y" is the address. */
  lemma MailtoSlashes()
    ensures ParseUrl("mailto://x/y") == Some(Url("mailto", "", "", "//x/y", ""))
  {
    var u := Url("mailto", "", "", "//x/y", "");
    MailtoProtocol();
    assert u.path + u.rest == "//x/y";
    assert !AllWhitespace(u.path + u.rest) by {
      assert !IsJavaWhitespace((u.path + u.rest)[0]);
    }
    assert Render(u) == "mailto://x/y";
    ParseRender(u);
  }

  /** Four slashes make a UNC name: no authority, and the slashes stay in the path. */
  lemma UncName()
    ensures ParseUrl("file:////srv/x") == Some(Url("file", "", "", "////srv/x", ""))
  {
    ToLowerNoUpper("file");
    var r := "////srv/x";
    assert r[..4] == "////";
    assert "file" + ":" + r == "file:////srv/x";
    UncParse("file", r);
  }

  /** A UNC spelling parses to a URL with no authority and all the slashes in its path. */
  lemma UncParse(p: string, r: string)
    requires ProtocolOk(p) && p != "mailto"
    requires StartsWith(r, "////") && '?' !in r && '#' !in r && !IsBlank(r[|r| - 1])
    ensures ParseUrl(p + ":" + r) == Some(Url(p, "", "", r, ""))
  {
    assert (p + ":" + r)[|p + ":" + r| - 1] == r[|r| - 1];
    SchemePrefix(p, r);
    UncHierarchical(p, r);
  }

  lemma UncHierarchical(p: string, r: string)
    requires ProtocolOk(p) && p != "mailto"
    requires StartsWith(r, "////") && '?' !in r && '#' !in r
    ensures ParseHierarchical(p, r) == Some(Url(p, "", "", r, ""))
  {
    IndexOfAnyAt("", {'@'}, 0);
    IndexOfAnyAt("", {':'}, 0);
    IndexOfAnyAt(r, {'?', '#'}, |r|);
    assert r[..|r|] == r && r[|r|..] == "";
  }

  /** Two '@' in an authority give an empty host, so the port is never read. */
  lemma TwoAtsHost()
    ensures HostOf("a@b@c:x") == Some("")
  {
    HostOfTwoAts("a@b@c:x", 1, 3);
  }

  /** Integer.parseInt takes a sign, so "+80" and "-1" are ports; an empty port is none. */
  lemma PortsAccepted()
    ensures PortOk("") && PortOk("80") && PortOk("+80") && PortOk("-1")
  {
    assert DecimalValue("80") == 80;
    assert DecimalValue("1") == 1;
  }

  /** A port below -1, a bare sign, a value beyond a Java int or a non-digit is malformed. */
  lemma PortsRejected()
    ensures !PortOk("-2") && !PortOk("+") && !PortOk("99999999999") && !PortOk("8a")
  {
    assert DecimalValue("2") == 2;
    DecimalAtLeast("99999999999");
    assert Pow10(10) > IntMax;
  }

  /** An href without a scheme, like "page.html", is a malformed URL. */
  lemma RelativeIsBad(href: string)
    requires ':' !in href
    ensures ParseUrl(href) == None
  {
  }

  /** The text after the scheme's ':' that spells u: "//" and the authority when there
      is one, then the path, query and fragment. */
  function Tail(u: Url): string {
    (if u.authority != "" then "//" + u.authority else "") + u.path + u.rest
  }

  /** URL.toExternalForm: the spelling of a URL. */
  function Render(u: Url): (s: string)
    ensures |s| > |u.protocol|
  {
    u.protocol + ":" + Tail(u)
  }

  /** The URLs whose spelling parses back to them: a path after an authority starts
      with '/', a path without one does not start with "//", and the spelling does not
      end in a blank that trimming would take off. */
  predicate Renderable(u: Url) {
    && WellFormed(u)
    && (u.protocol != "mailto" && u.authority != "" ==> u.path == "" || u.path[0] == '/')
    && (u.protocol != "mailto" && u.authority == "" ==> !StartsWith(u.path, "//"))
    && !IsBlank(Render(u)[|Render(u)| - 1])
  }

  /** Parsing the spelling of a URL gives the URL back. */
  lemma ParseRender(u: Url)
    requires Renderable(u)
    ensures ParseUrl(Render(u)) == Some(u)
  {
    if u.protocol == "mailto" {
      RenderMailto(u);
    } else {
      RenderHierarchical(u);
    }
  }

  lemma RenderMailto(u: Url)
    requires Renderable(u) && u.protocol == "mailto"
    ensures ParseUrl(Render(u)) == Some(u)
  {
    assert MailtoShape(u);
    assert u.authority == "";
    TailNoAuthority(u);
    SchemePrefix(u.protocol, Tail(u));
    MailtoRender(u);
  }

  lemma RenderHierarchical(u: Url)
    requires Renderable(u) && u.protocol != "mailto"
    ensures ParseUrl(Render(u)) == Some(u)
  {
    SchemePrefix(u.protocol, Tail(u));
    SplitAuthorityTail(u);
    QueryStart(u.path, u.rest);
  }

  lemma TailNoAuthority(u: Url)
    requires u.authority == ""
    ensures Tail(u) == u.path + u.rest
  {
  }

  /** The mailto handler reads an address and its query back as they were spelt. */
  lemma MailtoRender(u: Url)
    requires u.protocol == "mailto" && MailtoShape(u)
    ensures ParseMailto(u.path + u.rest) == Some(u)
  {
    var file := u.path + u.rest;
    IndexOfAnyAt(file, {'#'}, |file|) by {
      forall i | 0 <= i < |file|
        ensures file[i] != '#'
      {
        if i < |u.path| {
          assert file[i] == u.path[i];
        } else {
          assert file[i] == u.rest[i - |u.path|];
        }
      }
    }
    assert file[..|file|] == file;
    if u.rest == "" {
      assert file == u.path;
      LastIndexAt(file, IsQuery, -1);
    } else {
      forall i | |u.path| < i < |file|
        ensures !IsQuery(file[i])
      {
        assert file[i] == u.rest[1..][i - |u.path| - 1];
      }
      LastIndexAt(file, IsQuery, |u.path|);
      assert file[..|u.path|] == u.path;
      assert file[|u.path|..] == u.rest;
    }
  }

  /** The path of a spelling ends where the query or fragment starts. */
  lemma QueryStart(path: string, rest: string)
    requires forall i :: 0 <= i < |path| ==> path[i] !in {'?', '#'}
    requires rest == "" || rest[0] in {'?', '#'}
    ensures var t := path + rest;
            IndexOfAny(t, {'?', '#'}) == |path| && t[..|path|] == path && t[|path|..] == rest
  {
    IndexOfAnyAt(rest, {'?', '#'}, 0);
    IndexOfAnyConcat(path, rest, {'?', '#'});
  }

  /** A lower-case known scheme and its ':' are read off the front of a spelling. */
  lemma SchemePrefix(p: string, body: string)
    requires IsScheme(p) && ToLower(p) == p && p in KnownProtocols
    requires !IsBlank((p + ":" + body)[|p + ":" + body| - 1])
    ensures ParseUrl(p + ":" + body) == ParseAfter(p, body)
  {
    var s := p + ":" + body;
    SchemeParts(p, body);
    TrimUnchanged(s);
    SchemeAt(s, p, body);
  }

  lemma SchemeParts(p: string, body: string)
    requires |p| > 0
    ensures var s := p + ":" + body;
            |s| == |p| + 1 + |body| && s[0] == p[0] && s[..|p|] == p && s[|p|] == ':' && s[|p| + 1..] == body
  {
    var s := p + ":" + body;
    assert s[..|p|] == p;
    assert s[|p| + 1..] == body;
  }

  /** ParseUrl on an untrimmed spelling whose first ':' or '/' is the ':' after a known scheme. */
  lemma SchemeAt(s: string, p: string, body: string)
    requires IsScheme(p) && ToLower(p) == p && p in KnownProtocols
    requires Trim(s) == s && |s| > |p| && s[..|p|] == p && s[|p|] == ':' && s[|p| + 1..] == body
    ensures ParseUrl(s) == ParseAfter(p, body)
  {
    NoUrlPrefix(s, p);
    SchemeNoStop(s, p);
    IndexOfAnyAt(s, {':', '/'}, |p|);
    ParseAtColon(s, |p|);
  }

  /** No scheme character is a ':' or a '/'. */
  lemma SchemeNoStop(s: string, p: string)
    requires IsScheme(p) && |s| >= |p| && s[..|p|] == p
    ensures forall i :: 0 <= i < |p| ==> s[i] !in {':', '/'}
  {
    forall i | 0 <= i < |p|
      ensures s[i] !in {':', '/'}
    {
      assert s[i] == s[..|p|][i];
    }
  }

  /** No known protocol starts with the letter of "url:". */
  lemma NoUrlPrefix(s: string, p: string)
    requires p in KnownProtocols && |s| > |p| && s[..|p|] == p
    ensures !HasUrlPrefix(s)
  {
    assert s[0] == p[0];
    if |s| >= 4 {
      assert ToLower(s[..4])[0] == LowerChar(s[0]);
    }
  }

  lemma ParseAtColon(s: string, c: nat)
    requires !HasUrlPrefix(s) && Trim(s) == s && c < |s| && IndexOfAny(s, {':', '/'}) == c && s[c] == ':'
    requires IsScheme(s[..c]) && ToLower(s[..c]) in KnownProtocols
    ensures ParseUrl(s) == ParseAfter(ToLower(s[..c]), s[c + 1..])
  {
  }

  lemma SplitAuthorityTail(u: Url)
    requires forall i :: 0 <= i < |u.authority| ==> u.authority[i] !in {'/', '?', '#'}
    requires u.rest == "" || u.rest[0] in {'?', '#'}
    requires u.authority != "" ==> u.path == "" || u.path[0] == '/'
    requires u.authority == "" ==> !StartsWith(u.path, "//")
    ensures SplitAuthority(Tail(u)) == (u.authority, u.path + u.rest)
  {
    var tail := u.path + u.rest;
    if u.authority != "" {
      assert Tail(u) == "//" + u.authority + tail;
      AuthorityPrefix(u.authority, tail);
    } else {
      assert Tail(u) == tail;
      NoDoubleSlash(u.path, u.rest);
    }
  }

  lemma AuthorityPrefix(a: string, tail: string)
    requires a != "" && forall i :: 0 <= i < |a| ==> a[i] !in {'/', '?', '#'}
    requires tail == "" || tail[0] in {'/', '?', '#'}
    ensures SplitAuthority("//" + a + tail) == (a, tail)
  {
    var r := "//" + a + tail;
    AuthorityStart(a, tail);
    var b := a + tail;
    IndexOfAnyAt(tail, {'/', '?', '#'}, 0);
    IndexOfAnyConcat(a, tail, {'/', '?', '#'});
    assert b[..|a|] == a && b[|a|..] == tail;
  }

  lemma AuthorityStart(a: string, tail: string)
    requires a != "" && a[0] != '/'
    ensures StartsWith("//" + a + tail, "//") && !StartsWith("//" + a + tail, "////")
    ensures ("//" + a + tail)[2..] == a + tail
  {
    var r := "//" + a + tail;
    assert r[..2] == "//";
    assert r[2] == a[0];
  }

  lemma NoDoubleSlash(path: string, rest: string)
    requires !StartsWith(path, "//")
    requires rest == "" || rest[0] in {'?', '#'}
    ensures !StartsWith(path + rest, "//")
  {
    var t := path + rest;
    if |t| >= 2 {
      if |path| >= 2 {
        assert t[..2] == path[..2];
      } else {
        assert t[1] == (if |path| == 1 then rest[0] else rest[1]);
        if |path| == 0 {
          assert t[0] == rest[0];
        }
      }
    }
  }

  /** The extension of an href whose last segment is base.e, with e free of dots. */
  lemma ExtractFileExtOf(href: string, dir: string, base: string, e: string)
    requires href == dir + "/" + base + "." + e
    requires '/' !in base && '/' !in e && '.' !in e && e != ""
    ensures ExtractFileExt(href) == Some(e)
  {
    assert href[|dir|] == '/';
    forall i | |dir| < i < |href|
      ensures !IsSlash(href[i])
    {
      if i <= |dir| + |base| {
        assert href[i] == base[i - |dir| - 1];
      } else if i > |dir| + |base| + 1 {
        assert href[i] == e[i - |dir| - |base| - 2];
      }
    }
    LastIndexAt(href, IsSlash, |dir|);
    var fileName := FileName(href);
    assert fileName == "/" + base + "." + e;
    ExtractFileExtSpec(href);
    LastPiece(fileName, "/" + base, e, ExtractFileExt(href).value);
  }

  /** The only extension of name.e, for a dot-free e, is e. */
  lemma LastPiece(fileName: string, name: string, e: string, x: string)
    requires fileName == name + "." + e && '.' !in e && e != ""
    requires IsExtensionOf(x, fileName)
    ensures x == e
  {
    var n, m := |fileName|, |fileName| - |e|;
    var k :| ExtensionAt(x, fileName, k);
    assert fileName[m - 1] == '.';
    assert forall j :: m <= j < n ==> fileName[j] == e[j - m];
    assert fileName[n - 1] != '.';
    forall j | k <= j < k + |x|
      ensures fileName[j] != '.'
    {
      assert fileName[j] == x[j - k];
    }
    assert k + |x| == n;
    assert fileName[m..] == e;
  }
}
