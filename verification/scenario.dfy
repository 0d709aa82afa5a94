/** The repository's own test, restated on a small web: in0.html links to in1.html and,
    through an absolute URL, to a page on another host; in1.html links back to in0.html.
    The pages are written for this model so that the test's assertions apply. */
module Scenario {
  import opened Wrappers
  import opened Strings
  import opened FreqMap
  import opened Words
  import opened Address
  import opened Crawler

  const Text0: string := "wd word2 ABC word2 &&& word3"
  const Text1: string := "word2 word2 abcd word4"

  /** in0.html cut at its separators: the words and the separators between them. */
  const Pieces0: seq<string> := ["wd"] + ["word2"] + ["ABC"] + ["word2"] + [""] + [""] + [""] + [""] + ["word3"]
  const Seps0: seq<char> := [] + [' '] + [' '] + [' '] + [' '] + ['&'] + ['&'] + ['&'] + [' ']
  const Lowered0: seq<string> := [] + ["wd"] + ["word2"] + ["abc"] + ["word2"] + [""] + [""] + [""] + [""] + ["word3"]
  const Pieces1: seq<string> := ["word2"] + ["word2"] + ["abcd"] + ["word4"]
  const Seps1: seq<char> := [] + [' '] + [' '] + [' ']
  const Lowered1: seq<string> := [] + ["word2"] + ["word2"] + ["abcd"] + ["word4"]

  lemma {:induction false} JoinStep(ps: seq<string>, cs: seq<char>, c: char, p: string)
    requires |ps| == |cs| + 1
    ensures JoinBy(ps + [p], cs + [c]) == JoinBy(ps, cs) + [c] + p
  {
    assert (ps + [p])[..|ps|] == ps;
    assert (cs + [c])[..|cs|] == cs;
  }

  lemma {:induction false} LowerStep(ps: seq<string>, p: string)
    ensures LowerAll(ps + [p]) == LowerAll(ps) + [ToLower(p)]
  {
  }

  lemma {:induction false} CountStep(ts: seq<string>, w: string)
    ensures CountTokens(ts + [w]) == if |w| < 3 then CountTokens(ts) else Bump(CountTokens(ts), w)
  {
    assert (ts + [w])[..|ts|] == ts;
  }

  lemma {:induction false} Text0Head()
    ensures JoinBy(["wd"] + ["word2"] + ["ABC"] + ["word2"], [] + [' '] + [' '] + [' ']) == "wd word2 ABC word2"
  {
    var ps: seq<string>, cs: seq<char> := ["wd"], [];
    JoinStep(ps, cs, ' ', "word2");
    ps, cs := ps + ["word2"], cs + [' '];
    assert JoinBy(ps, cs) == "wd word2";
    JoinStep(ps, cs, ' ', "ABC");
    ps, cs := ps + ["ABC"], cs + [' '];
    assert JoinBy(ps, cs) == "wd word2 ABC";
    JoinStep(ps, cs, ' ', "word2");
  }

  lemma {:induction false} Text0Pieces()
    ensures JoinBy(Pieces0, Seps0) == Text0
  {
    var ps: seq<string>, cs: seq<char> := ["wd"] + ["word2"] + ["ABC"] + ["word2"], [] + [' '] + [' '] + [' '];
    Text0Head();
    JoinStep(ps, cs, ' ', "");
    ps, cs := ps + [""], cs + [' '];
    JoinStep(ps, cs, '&', "");
    ps, cs := ps + [""], cs + ['&'];
    assert JoinBy(ps, cs) == "wd word2 ABC word2 &";
    JoinStep(ps, cs, '&', "");
    ps, cs := ps + [""], cs + ['&'];
    JoinStep(ps, cs, '&', "");
    ps, cs := ps + [""], cs + ['&'];
    assert JoinBy(ps, cs) == "wd word2 ABC word2 &&&";
    JoinStep(ps, cs, ' ', "word3");
  }

  lemma {:induction false} Text1Pieces()
    ensures JoinBy(Pieces1, Seps1) == Text1
  {
    var ps: seq<string>, cs: seq<char> := ["word2"], [];
    JoinStep(ps, cs, ' ', "word2");
    ps, cs := ps + ["word2"], cs + [' '];
    assert JoinBy(ps, cs) == "word2 word2";
    JoinStep(ps, cs, ' ', "abcd");
    ps, cs := ps + ["abcd"], cs + [' '];
    assert JoinBy(ps, cs) == "word2 word2 abcd";
    JoinStep(ps, cs, ' ', "word4");
    ps, cs := ps + ["word4"], cs + [' '];
    assert JoinBy(ps, cs) == "word2 word2 abcd word4";
  }

  lemma {:induction false} Lower0()
    ensures LowerAll(Pieces0) == Lowered0
  {
    ToLowerNoUpper("wd");
    ToLowerNoUpper("word2");
    ToLowerNoUpper("word3");
    ToLowerNoUpper("");
    assert ToLower("ABC") == "abc" by {
      assert LowerChar('A') == 'a' && LowerChar('B') == 'b' && LowerChar('C') == 'c';
    }
    var ps: seq<string> := ["wd"];
    assert LowerAll(ps) == [] + ["wd"];
    LowerStep(ps, "word2");
    ps := ps + ["word2"];
    LowerStep(ps, "ABC");
    ps := ps + ["ABC"];
    LowerStep(ps, "word2");
    ps := ps + ["word2"];
    LowerStep(ps, "");
    ps := ps + [""];
    LowerStep(ps, "");
    ps := ps + [""];
    LowerStep(ps, "");
    ps := ps + [""];
    LowerStep(ps, "");
    ps := ps + [""];
    LowerStep(ps, "word3");
    ps := ps + ["word3"];
  }

  lemma {:induction false} Lower1()
    ensures LowerAll(Pieces1) == Lowered1
  {
    ToLowerNoUpper("word2");
    ToLowerNoUpper("abcd");
    ToLowerNoUpper("word4");
    var ps: seq<string> := ["word2"];
    assert LowerAll(ps) == [] + ["word2"];
    LowerStep(ps, "word2");
    ps := ps + ["word2"];
    LowerStep(ps, "abcd");
    ps := ps + ["abcd"];
    LowerStep(ps, "word4");
    ps := ps + ["word4"];
  }

  lemma {:induction false} CountNew(ts: seq<string>, w: string, m: Counts)
    requires CountTokens(ts) == m && |w| >= 3 && w !in m
    ensures CountTokens(ts + [w]) == m[w := 1]
  {
    CountStep(ts, w);
  }

  lemma {:induction false} CountAgain(ts: seq<string>, w: string, m: Counts)
    requires CountTokens(ts) == m && |w| >= 3 && w in m
    ensures CountTokens(ts + [w]) == m[w := m[w] + 1]
  {
    CountStep(ts, w);
  }

  lemma {:induction false} CountShort(ts: seq<string>, w: string)
    requires |w| < 3
    ensures CountTokens(ts + [w]) == CountTokens(ts)
  {
    CountStep(ts, w);
  }

  /** The shape of in1.html's words: one word twice, then two others once each. */
  lemma {:induction false} CountTwiceOnceOnce(b: string, c: string, e: string)
    requires |b| >= 3 && |c| >= 3 && |e| >= 3 && b != c && b != e && c != e
    ensures CountTokens([] + [b] + [b] + [c] + [e]) == map[b := 2, c := 1, e := 1]
  {
    var m0: Counts := map[];
    CountNew([], b, m0);
    var m1 := m0[b := 1];
    CountAgain([] + [b], b, m1);
    assert m1[b := m1[b] + 1] == map[b := 2];
    CountNew([] + [b] + [b], c, map[b := 2]);
    CountNew([] + [b] + [b] + [c], e, map[b := 2, c := 1]);
  }

  /** The first four words of in0.html: a short one, a word, another, the first again. */
  lemma {:induction false} CountHead0(a: string, b: string, c: string)
    requires |a| < 3 && |b| >= 3 && |c| >= 3 && b != c
    ensures CountTokens([] + [a] + [b] + [c] + [b]) == map[b := 2, c := 1]
  {
    CountShort([], a);
    CountNew([] + [a], b, map[]);
    CountNew([] + [a] + [b], c, map[b := 1]);
    CountAgain([] + [a] + [b] + [c], b, map[b := 1, c := 1]);
    Recount(b, c);
  }

  lemma {:induction false} Recount(b: string, c: string)
    requires b != c
    ensures map[b := 1, c := 1][b := map[b := 1, c := 1][b] + 1] == map[b := 2, c := 1]
  {
  }

  /** The shape of in0.html's words: those four, four empty pieces and a last word. */
  lemma {:induction false} CountShape0(a: string, b: string, c: string, e: string)
    requires |a| < 3 && |b| >= 3 && |c| >= 3 && |e| >= 3 && b != c && b != e && c != e
    ensures CountTokens([] + [a] + [b] + [c] + [b] + [""] + [""] + [""] + [""] + [e]) == map[b := 2, c := 1, e := 1]
  {
    var ts := [] + [a] + [b] + [c] + [b];
    CountHead0(a, b, c);
    CountShort(ts, "");
    CountShort(ts + [""], "");
    CountShort(ts + [""] + [""], "");
    CountShort(ts + [""] + [""] + [""], "");
    CountNew(ts + [""] + [""] + [""] + [""], e, map[b := 2, c := 1]);
  }

  lemma {:induction false} Count0()
    ensures CountTokens(Lowered0) == map["word2" := 2, "abc" := 1, "word3" := 1]
  {
    assert "word2"[4] != "word3"[4];
    CountShape0("wd", "word2", "abc", "word3");
  }

  lemma {:induction false} Count1()
    ensures CountTokens(Lowered1) == map["word2" := 2, "abcd" := 1, "word4" := 1]
  {
    assert "word2"[4] != "word4"[4];
    CountTwiceOnceOnce("word2", "abcd", "word4");
  }

  /** in0.html counts word2 twice and abc and word3 once; wd is too short and the
      ampersands are separators. */
  lemma {:induction false} Tally0()
    ensures Tally(Text0) == map["word2" := 2, "abc" := 1, "word3" := 1]
  {
    Text0Pieces();
    TallyJoin(Pieces0, Seps0);
    Lower0();
    Count0();
  }

  lemma {:induction false} Tally1()
    ensures Tally(Text1) == map["word2" := 2, "abcd" := 1, "word4" := 1]
  {
    Text1Pieces();
    TallyJoin(Pieces1, Seps1);
    Lower1();
    Count1();
  }

  /** A resource in a directory of the class path, as a file: URL. */
  function FileUrl(dir: string, name: string): Url {
    Url("file", "", "", dir + "/" + name + ".html", "")
  }

  /** A page on a web server. */
  function HttpUrl(host: string, name: string): Url {
    Url("http", host, host, "/" + name + ".html", "")
  }

  /** A link to a page of the same directory, relative to its domain. */
  function HtmlRef(name: string): string {
    "/" + name + ".html"
  }

  /** An absolute link to a page on a web server. */
  function HttpRef(host: string, name: string): string {
    "http://" + host + "/" + name + ".html"
  }

  /** A name that can stand in a path: no '/', '.', '?' or '#'. */
  predicate PlainName(name: string) {
    forall i :: 0 <= i < |name| ==> name[i] !in {'/', '.', '?', '#'}
  }

  /** A directory of the form /d: no '?' or '#', and not "//" at its start. */
  predicate PlainDir(dir: string) {
    && |dir| >= 2 && dir[0] == '/' && dir[1] != '/'
    && forall i :: 0 <= i < |dir| ==> dir[i] !in {'?', '#'}
  }

  /** A host name without user info, port or path characters. */
  predicate PlainHost(host: string) {
    host != "" && forall i :: 0 <= i < |host| ==> host[i] !in {'/', '?', '#', '@', ':'}
  }

  lemma {:induction false} NoChar(s: string, c: char)
    requires PlainName(s) && c in {'/', '.', '?', '#'}
    ensures c !in s
  {
  }

  lemma {:induction false} HtmlTail(name: string)
    requires PlainName(name)
    ensures var p := name + ".html";
            '/' !in p && forall i :: 0 <= i < |p| ==> p[i] !in {'?', '#'}
  {
    var p := name + ".html";
    forall i | 0 <= i < |p|
      ensures p[i] !in {'/', '?', '#'}
    {
      if i < |name| {
        assert p[i] == name[i];
      }
    }
  }

  lemma {:induction false} FileUrlDomain(dir: string, name: string)
    requires PlainName(name)
    ensures Domain(FileUrl(dir, name)) == Some("file:" + dir)
  {
    HtmlTail(name);
    DomainOfPath(FileUrl(dir, name), dir, name + ".html");
    assert "file" + ":" == "file:";
  }

  lemma {:induction false} HttpUrlDomain(host: string, name: string)
    requires host != ""
    ensures Domain(HttpUrl(host, name)) == Some("http://" + host)
  {
    assert "http" + "://" == "http://";
  }

  lemma {:induction false} FileScheme()
    ensures IsScheme("file") && ToLower("file") == "file" && "file" in KnownProtocols
    ensures IsScheme("http") && ToLower("http") == "http" && "http" in KnownProtocols
  {
    ToLowerNoUpper("file");
    ToLowerNoUpper("http");
  }

  lemma {:induction false} HostOfPlain(host: string)
    requires PlainHost(host)
    ensures HostOf(host) == Some(host)
  {
    IndexOfAnyAt(host, {'@'}, |host|);
    IndexOfAnyAt(host, {':'}, |host|);
    assert host[..|host|] == host;
  }

  lemma {:induction false} FileUrlRenderable(dir: string, name: string)
    requires PlainDir(dir) && PlainName(name)
    ensures Renderable(FileUrl(dir, name))
    ensures Render(FileUrl(dir, name)) == "file:" + dir + HtmlRef(name)
  {
    FileScheme();
    EmptyHost();
    FilePath(dir, name);
    FileSpelling(dir, name);
  }

  lemma {:induction false} EmptyHost()
    ensures HostOf("") == Some("")
  {
    IndexOfAnyAt("", {'@'}, 0);
    IndexOfAnyAt("", {':'}, 0);
  }

  /** The path of a resource file holds no '?' or '#' and does not start with "//". */
  lemma {:induction false} FilePath(dir: string, name: string)
    requires PlainDir(dir) && PlainName(name)
    ensures var p := FileUrl(dir, name).path;
            (forall i :: 0 <= i < |p| ==> p[i] !in {'?', '#'}) && !StartsWith(p, "//")
  {
    var p := FileUrl(dir, name).path;
    HtmlTail(name);
    forall i | 0 <= i < |p|
      ensures p[i] !in {'?', '#'}
    {
      if i < |dir| {
        assert p[i] == dir[i];
      } else if i > |dir| {
        assert p[i] == (name + ".html")[i - |dir| - 1];
      }
    }
    assert p[1] == dir[1];
  }

  lemma {:induction false} FileSpelling(dir: string, name: string)
    ensures var r := Render(FileUrl(dir, name));
            r == "file:" + dir + HtmlRef(name) && r[|r| - 1] == 'l'
  {
    assert Render(FileUrl(dir, name)) == "file:" + dir + HtmlRef(name);
  }

  lemma {:induction false} HttpUrlRenderable(host: string, name: string)
    requires PlainHost(host) && PlainName(name)
    ensures Renderable(HttpUrl(host, name))
    ensures Render(HttpUrl(host, name)) == HttpRef(host, name)
  {
    FileScheme();
    HostOfPlain(host);
    HttpPath(name);
    HttpSpelling(host, name);
  }

  lemma {:induction false} HttpPath(name: string)
    requires PlainName(name)
    ensures var p := "/" + name + ".html";
            forall i :: 0 <= i < |p| ==> p[i] !in {'?', '#'}
  {
    var p := "/" + name + ".html";
    HtmlTail(name);
    forall i | 0 <= i < |p|
      ensures p[i] !in {'?', '#'}
    {
      if i > 0 {
        assert p[i] == (name + ".html")[i - 1];
      }
    }
  }

  lemma {:induction false} HttpSpelling(host: string, name: string)
    requires host != ""
    ensures var r := Render(HttpUrl(host, name));
            r == HttpRef(host, name) && r[|r| - 1] == 'l'
  {
    assert Render(HttpUrl(host, name)) == HttpRef(host, name);
  }

  lemma {:induction false} FileUrlParse(dir: string, name: string)
    requires PlainDir(dir) && PlainName(name)
    ensures ParseUrl("file:" + dir + HtmlRef(name)) == Some(FileUrl(dir, name))
  {
    FileUrlRenderable(dir, name);
    ParseRender(FileUrl(dir, name));
  }

  lemma {:induction false} HttpUrlParse(host: string, name: string)
    requires PlainHost(host) && PlainName(name)
    ensures ParseUrl(HttpRef(host, name)) == Some(HttpUrl(host, name))
  {
    HttpUrlRenderable(host, name);
    ParseRender(HttpUrl(host, name));
  }

  lemma {:induction false} HtmlExt(dir: string, name: string)
    requires PlainName(name)
    ensures ExtractFileExt(dir + HtmlRef(name)) == Some("html")
  {
    NoChar(name, '/');
    ExtractFileExtOf(dir + HtmlRef(name), dir, name, "html");
  }

  /** A relative link to a page of the parent's directory is a target one level down. */
  lemma {:induction false} ClassifyFile(parent: Task, dir: string, name: string)
    requires TaskOk(parent) && parent.domain == "file:" + dir
    requires PlainDir(dir) && PlainName(name)
    ensures var u := FileUrl(dir, name);
            Classify(parent, HtmlRef(name)) == Target(u, "html", Some(Task(u, parent.depth + 1, "file:" + dir)))
  {
    var href := HtmlRef(name);
    assert href[0] == '/';
    assert !StartsWith(href, "//") by {
      if |name| > 0 {
        assert href[1] == name[0];
      } else {
        assert href[1] == '.';
      }
    }
    assert Normalize(href, parent.url, parent.domain) == Some("file:" + dir + href);
    FileUrlParse(dir, name);
    HtmlExt("file:" + dir, name);
    FileUrlDomain(dir, name);
  }

  lemma {:induction false} HttpRefSplit(host: string, name: string)
    ensures HttpRef(host, name) == ("http://" + host) + HtmlRef(name)
  {
  }

  /** An absolute link to a web server is a target too; the spawn decision rejects it. */
  lemma {:induction false} ClassifyHttp(parent: Task, host: string, name: string)
    requires TaskOk(parent)
    requires PlainHost(host) && PlainName(name)
    ensures var u := HttpUrl(host, name);
            Classify(parent, HttpRef(host, name)) == Target(u, "html", Some(Task(u, parent.depth + 1, "http://" + host)))
  {
    var href := HttpRef(host, name);
    assert href[0] == 'h';
    assert Normalize(href, parent.url, parent.domain) == Some(href);
    HttpUrlParse(host, name);
    HttpRefSplit(host, name);
    HtmlExt("http://" + host, name);
    HttpUrlDomain(host, name);
  }

  /** The names the test's little web is built from: the resource directory, in0 and
      in1 in it, and a page on another host. */
  datatype Site = Site(dir: string, host: string, first: string, second: string, outside: string)
  {
    predicate Ok() {
      && PlainDir(dir) && PlainHost(host)
      && PlainName(first) && PlainName(second) && PlainName(outside) && first != second
    }

    function Seed(): Url { FileUrl(dir, first) }
    function Page1(): Url { FileUrl(dir, second) }
    function Other(): Url { HttpUrl(host, outside) }

    /** The root task and the one subtask the crawl spawns. */
    function Root(): Task { Task(Seed(), 0, "file:" + dir) }
    function Sub(): Task { Task(Page1(), 1, "file:" + dir) }

    /** The first page links to a fragment, to the second page and to the other host;
        the second page links back to the first. */
    function Hrefs0(): seq<string> { ["#", HtmlRef(second), HttpRef(host, outside)] }
    function Hrefs1(): seq<string> { [HtmlRef(first)] }

    function Web(): Web {
      map[Seed() := Page(Text0, Hrefs0()), Page1() := Page(Text1, Hrefs1()), Other() := Page("word1", [])]
    }

    /** The links of the two pages once classified. */
    function Links0(): seq<Link> {
      [Ignored, Target(Page1(), "html", Some(Sub())), Target(Other(), "html", Some(Task(Other(), 1, "http://" + host)))]
    }
    function Links1(): seq<Link> { [Target(Seed(), "html", Some(Task(Seed(), 2, "file:" + dir)))] }
  }

  /** The page name can be read back from a file address. */
  lemma {:induction false} FileName(dir: string, name: string)
    ensures var p := FileUrl(dir, name).path;
            |p| == |dir| + |name| + 6 && p[|dir| + 1..|p| - 5] == name
  {
    var p := FileUrl(dir, name).path;
    assert p == dir + ("/" + name + ".html");
  }

  /** The three addresses are different. */
  lemma {:induction false} Apart(s: Site)
    requires s.Ok()
    ensures s.Seed() != s.Page1() && s.Seed() != s.Other() && s.Page1() != s.Other()
  {
    FileName(s.dir, s.first);
    FileName(s.dir, s.second);
  }

  lemma {:induction false} TasksOk(s: Site)
    requires s.Ok()
    ensures TaskOk(s.Root()) && TaskOk(s.Sub())
  {
    FileUrlDomain(s.dir, s.first);
    FileUrlDomain(s.dir, s.second);
  }

  lemma {:induction false} Classified0(s: Site)
    requires s.Ok()
    ensures TaskOk(s.Root()) && ClassifyAll(s.Root(), s.Hrefs0()) == s.Links0()
  {
    Link0(s);
    Link1(s);
    Link2(s);
  }

  lemma {:induction false} Link0(s: Site)
    requires s.Ok()
    ensures TaskOk(s.Root()) && ClassifyAll(s.Root(), s.Hrefs0())[0] == Ignored
  {
    TasksOk(s);
    ClassifyAllAt(s.Root(), s.Hrefs0(), 0);
  }

  lemma {:induction false} Link1(s: Site)
    requires s.Ok()
    ensures TaskOk(s.Root()) && ClassifyAll(s.Root(), s.Hrefs0())[1] == s.Links0()[1]
  {
    TasksOk(s);
    Want1(s);
    ClassifyFile(s.Root(), s.dir, s.second);
    LinkAt(s.Root(), s.Hrefs0(), 1, HtmlRef(s.second), s.Links0()[1]);
  }

  lemma {:induction false} Want1(s: Site)
    ensures s.Hrefs0()[1] == HtmlRef(s.second) && s.Root().domain == "file:" + s.dir
    ensures var u := FileUrl(s.dir, s.second);
            s.Links0()[1] == Target(u, "html", Some(Task(u, s.Root().depth + 1, "file:" + s.dir)))
  {
  }

  lemma {:induction false} Link2(s: Site)
    requires s.Ok()
    ensures TaskOk(s.Root()) && ClassifyAll(s.Root(), s.Hrefs0())[2] == s.Links0()[2]
  {
    TasksOk(s);
    Want2(s);
    ClassifyHttp(s.Root(), s.host, s.outside);
    LinkAt(s.Root(), s.Hrefs0(), 2, HttpRef(s.host, s.outside), s.Links0()[2]);
  }

  lemma {:induction false} LinkAt(parent: Task, hrefs: seq<string>, i: int, href: string, l: Link)
    requires TaskOk(parent) && 0 <= i < |hrefs| && hrefs[i] == href && Classify(parent, href) == l
    ensures ClassifyAll(parent, hrefs)[i] == l
  {
    ClassifyAllAt(parent, hrefs, i);
  }

  lemma {:induction false} Want2(s: Site)
    ensures s.Hrefs0()[2] == HttpRef(s.host, s.outside)
    ensures var u := HttpUrl(s.host, s.outside);
            s.Links0()[2] == Target(u, "html", Some(Task(u, s.Root().depth + 1, "http://" + s.host)))
  {
  }

  lemma {:induction false} Classified1(s: Site)
    requires s.Ok()
    ensures TaskOk(s.Sub()) && ClassifyAll(s.Sub(), s.Hrefs1()) == s.Links1()
  {
    TasksOk(s);
    WantBack(s);
    ClassifyFile(s.Sub(), s.dir, s.first);
    ClassifyAllAt(s.Sub(), s.Hrefs1(), 0);
  }

  lemma {:induction false} WantBack(s: Site)
    ensures |s.Hrefs1()| == 1 && s.Hrefs1()[0] == HtmlRef(s.first) && s.Sub().domain == "file:" + s.dir
    ensures var u := FileUrl(s.dir, s.first);
            s.Links1() == [Target(u, "html", Some(Task(u, s.Sub().depth + 1, "file:" + s.dir)))]
  {
  }

  // Evaluating the crawl one call at a time.

  lemma {:induction false} RunTaskPage(web: Web, maxDepth: int, t: Task, st: State, text: string, hrefs: seq<string>, ls: seq<Link>)
    requires TaskOk(t) && Fetch(web, t.url) == Page(text, hrefs) && text != "" && t.depth != maxDepth
    requires ClassifyAll(t, hrefs) == ls
    ensures Targets(ls) <= Linked(web)
    ensures forall i :: 0 <= i < |ls| && ls[i].Target? ==> Fits(t, ls[i])
    ensures var rl := RunLinks(web, maxDepth, t, Tally(text), ls, st);
            RunTask(web, maxDepth, t, st) == Run(rl.counts, rl.state, [t] + rl.ran)
  {
    TargetsLinked(web, t);
  }

  lemma {:induction false} RunLinksQuiet(web: Web, maxDepth: int, t: Task, own: Counts, ls: seq<Link>,
                                         v: set<Url>, n: nat, skipped: nat, bad: nat)
    requires TaskOk(t) && Targets(ls) <= Linked(web)
    requires forall i :: 0 <= i < |ls| && ls[i].Target? ==> Fits(t, ls[i])
    requires ScanLinks(t, v, ls) == Scan([], skipped, bad, v, false)
    ensures RunLinks(web, maxDepth, t, own, ls, State(v, n)) == Run(own, State(v, n), [])
  {
    RunMergeNone(web, maxDepth, own, State(v, n));
  }

  lemma {:induction false} RunMergeNone(web: Web, maxDepth: int, own: Counts, st: State)
    ensures RunMerge(web, maxDepth, [], own, st) == Run(own, st, [])
  {
    assert RunChildren(web, maxDepth, [], own, st) == Run(own, st, []);
  }

  lemma {:induction false} RunLinksOne(web: Web, maxDepth: int, t: Task, own: Counts, ls: seq<Link>,
                                       v0: set<Url>, n: nat, k: Task, skipped: nat, bad: nat, v: set<Url>)
    requires TaskOk(t) && Targets(ls) <= Linked(web)
    requires forall i :: 0 <= i < |ls| && ls[i].Target? ==> Fits(t, ls[i])
    requires ScanLinks(t, v0, ls) == Scan([k], skipped, bad, v, false)
    ensures TaskOk(k)
    ensures RunLinks(web, maxDepth, t, own, ls, State(v0, n)) == RunMerge(web, maxDepth, [k], own, State(v, n))
  {
    assert Child(t, Scan([k], skipped, bad, v, false).children[0]);
  }

  lemma {:induction false} RunMergeOne(web: Web, maxDepth: int, k: Task, own: Counts, st: State)
    requires TaskOk(k)
    ensures var c := RunTask(web, maxDepth, k, st);
            RunMerge(web, maxDepth, [k], own, st) == Run(Merge(own, c.counts), c.state.(processed := c.state.processed + 1), c.ran)
  {
    RunChildrenOne(web, maxDepth, k, own, st);
  }

  lemma {:induction false} RunChildrenOne(web: Web, maxDepth: int, k: Task, acc: Counts, st: State)
    requires TaskOk(k)
    ensures var c := RunTask(web, maxDepth, k, st);
            RunChildren(web, maxDepth, [k], acc, st) == Run(Merge(acc, c.counts), c.state, c.ran)
  {
    assert [k][1..] == [];
  }

  lemma {:induction false} Fits0(s: Site)
    requires s.Ok()
    ensures forall i :: 0 <= i < |s.Links0()| && s.Links0()[i].Target? ==> Fits(s.Root(), s.Links0()[i])
  {
    TasksOk(s);
    HttpUrlDomain(s.host, s.outside);
  }

  lemma {:induction false} Fits1(s: Site)
    requires s.Ok()
    ensures forall i :: 0 <= i < |s.Links1()| && s.Links1()[i].Target? ==> Fits(s.Sub(), s.Links1()[i])
  {
    TasksOk(s);
  }

  /** The root's link loop: the fragment is not counted, the second page is claimed
      and spawned, the other host is skipped. */
  lemma {:induction false} Scan0(s: Site)
    requires s.Ok()
    ensures forall i :: 0 <= i < |s.Links0()| && s.Links0()[i].Target? ==> Fits(s.Root(), s.Links0()[i])
    ensures ScanLinks(s.Root(), {s.Seed()}, s.Links0()) == Scan([s.Sub()], 1, 0, {s.Seed(), s.Page1()}, false)
  {
    Fits0(s);
    Apart(s);
    var r, l, v := s.Root(), s.Links0(), {s.Seed(), s.Page1()};
    assert Decide(r, {s.Seed()}, l[0]) == Dropped;
    assert "html" !in SkippedExts;
    assert Decide(r, {s.Seed()}, l[1]) == Spawned(s.Sub(), v);
    assert Decide(r, v, l[2]) == Skipped(v);
    assert ScanLinks(r, v, l[3..]) == Scan([], 0, 0, v, false);
    assert ScanLinks(r, v, l[2..]) == Scan([], 1, 0, v, false);
    assert ScanLinks(r, {s.Seed()}, l[1..]) == Scan([s.Sub()], 1, 0, v, false);
  }

  /** The second page's only link leads back to the first, which is already claimed. */
  lemma {:induction false} Scan1(s: Site)
    requires s.Ok()
    ensures forall i :: 0 <= i < |s.Links1()| && s.Links1()[i].Target? ==> Fits(s.Sub(), s.Links1()[i])
    ensures ScanLinks(s.Sub(), {s.Seed(), s.Page1()}, s.Links1()) == Scan([], 1, 0, {s.Seed(), s.Page1()}, false)
  {
    Fits1(s);
    var t, l, v := s.Sub(), s.Links1(), {s.Seed(), s.Page1()};
    assert Decide(t, v, l[0]) == Skipped(v);
    assert ScanLinks(t, v, l[1..]) == Scan([], 0, 0, v, false);
  }

  lemma {:induction false} FetchPages(s: Site)
    requires s.Ok()
    ensures Fetch(s.Web(), s.Root().url) == Page(Text0, s.Hrefs0())
    ensures Fetch(s.Web(), s.Sub().url) == Page(Text1, s.Hrefs1())
  {
    Apart(s);
  }

  /** A page whose link loop claims nothing runs alone: its tally, the state unchanged. */
  lemma {:induction false} RunQuiet(web: Web, maxDepth: int, t: Task, text: string, hrefs: seq<string>, ls: seq<Link>,
                                    v: set<Url>, n: nat, skipped: nat, bad: nat)
    requires TaskOk(t) && Fetch(web, t.url) == Page(text, hrefs) && text != "" && t.depth != maxDepth
    requires ClassifyAll(t, hrefs) == ls
    requires ScanLinks(t, v, ls) == Scan([], skipped, bad, v, false)
    ensures RunTask(web, maxDepth, t, State(v, n)) == Run(Tally(text), State(v, n), [t])
  {
    RunTaskPage(web, maxDepth, t, State(v, n), text, hrefs, ls);
    RunLinksQuiet(web, maxDepth, t, Tally(text), ls, v, n, skipped, bad);
    Single(t);
  }

  lemma {:induction false} Single<T>(a: T)
    ensures [a] + [] == [a]
  {
  }

  /** The second page runs alone: its tally, and the state unchanged. */
  lemma {:induction false} RunSub(s: Site)
    requires s.Ok()
    ensures TaskOk(s.Sub())
    ensures var v := {s.Seed(), s.Page1()};
            RunTask(s.Web(), MaxDepthDefault, s.Sub(), State(v, 1)) == Run(Tally(Text1), State(v, 1), [s.Sub()])
  {
    var v := {s.Seed(), s.Page1()};
    TasksOk(s);
    FetchPages(s);
    Classified1(s);
    Scan1(s);
    RunQuiet(s.Web(), MaxDepthDefault, s.Sub(), Text1, s.Hrefs1(), s.Links1(), v, 1, 1, 0);
  }

  /** A page whose link loop spawns exactly one subtask: its tally merged with the
      child's, the child counted as processed, the child's tasks after it. */
  lemma {:induction false} RunOneChild(web: Web, maxDepth: int, t: Task, text: string, hrefs: seq<string>, ls: seq<Link>,
                    v0: set<Url>, n: nat, k: Task, skipped: nat, bad: nat, v: set<Url>,
                    kc: Counts, v': set<Url>, n': nat, kran: seq<Task>)
    requires TaskOk(t) && Fetch(web, t.url) == Page(text, hrefs) && text != "" && t.depth != maxDepth
    requires ClassifyAll(t, hrefs) == ls
    requires ScanLinks(t, v0, ls) == Scan([k], skipped, bad, v, false)
    requires TaskOk(k) && RunTask(web, maxDepth, k, State(v, n)) == Run(kc, State(v', n'), kran)
    ensures RunTask(web, maxDepth, t, State(v0, n)) == Run(Merge(Tally(text), kc), State(v', n' + 1), [t] + kran)
  {
    RunTaskPage(web, maxDepth, t, State(v0, n), text, hrefs, ls);
    RunLinksOne(web, maxDepth, t, Tally(text), ls, v0, n, k, skipped, bad, v);
    RunMergeOne(web, maxDepth, k, Tally(text), State(v, n));
  }

  /** The root runs, spawns the second page and absorbs its map. */
  lemma {:induction false} RunRoot(s: Site)
    requires s.Ok()
    ensures TaskOk(s.Root())
    ensures RunTask(s.Web(), MaxDepthDefault, s.Root(), State({s.Seed()}, 1)) ==
              Run(Merge(Tally(Text0), Tally(Text1)), State({s.Seed(), s.Page1()}, 2), [s.Root(), s.Sub()])
  {
    var v := {s.Seed(), s.Page1()};
    TasksOk(s);
    FetchPages(s);
    Classified0(s);
    Scan0(s);
    RunSub(s);
    RunOneChild(s.Web(), MaxDepthDefault, s.Root(), Text0, s.Hrefs0(), s.Links0(), {s.Seed()}, 1,
                s.Sub(), 1, 0, v, Tally(Text1), v, 1, [s.Sub()]);
    Pair(s.Root(), s.Sub());
  }

  lemma {:induction false} Pair<T>(a: T, b: T)
    ensures [a] + [b] == [a, b]
  {
  }

  /** crawl(url) is the root task's run from the state with only the seed claimed. */
  lemma {:induction false} CrawlRoot(web: Web, maxDepth: int, seed: Url, root: Task, run: Run)
    requires NewTask(seed, 0) == Some(root)
    requires RunTask(web, maxDepth, root, State({seed}, 1)) == run
    ensures Crawl(web, maxDepth, seed) == Some(Outcome(run.counts, run.state.visited, run.state.processed, run.ran))
  {
  }

  lemma {:induction false} RootTask(s: Site)
    requires s.Ok()
    ensures NewTask(s.Seed(), 0) == Some(s.Root())
  {
    FileUrlDomain(s.dir, s.first);
  }

  /** The crawl of the test's little web. */
  lemma {:induction false} CrawlSite(s: Site)
    requires s.Ok()
    ensures Crawl(s.Web(), MaxDepthDefault, s.Seed()) ==
              Some(Outcome(Merge(Tally(Text0), Tally(Text1)), {s.Seed(), s.Page1()}, 2, [s.Root(), s.Sub()]))
  {
    RootTask(s);
    RunRoot(s);
    CrawlRoot(s.Web(), MaxDepthDefault, s.Seed(), s.Root(),
              Run(Merge(Tally(Text0), Tally(Text1)), State({s.Seed(), s.Page1()}, 2), [s.Root(), s.Sub()]));
  }

  /** The two page maps merged, with five different words. */
  lemma {:induction false} MergeFive(a: string, b: string, c: string, d: string, e: string)
    requires a != b && a != c && a != d && a != e && b != c && b != d && b != e && c != d && c != e && d != e
    ensures Merge(map[a := 2, b := 1, c := 1], map[a := 2, d := 1, e := 1]) == map[a := 4, b := 1, c := 1, d := 1, e := 1]
  {
  }

  const Expected: Counts := map["word2" := 4, "abc" := 1, "word3" := 1, "abcd" := 1, "word4" := 1]

  /** The whole outcome of crawling the little web from its first page. */
  lemma {:induction false} CrawlOutcome(s: Site)
    requires s.Ok()
    ensures Crawl(s.Web(), MaxDepthDefault, s.Seed()) ==
              Some(Outcome(Expected, {s.Seed(), s.Page1()}, 2, [s.Root(), s.Sub()]))
  {
    CrawlSite(s);
    Tally0();
    Tally1();
    MergeFive("word2", "abc", "word3", "abcd", "word4");
  }

  /** The assertions of the repository's unit test: two addresses visited, two pages
      processed, the other host's word and the separator run absent, and the counts of
      the five words of the two pages. */
  lemma {:induction false} CrawlTest(s: Site)
    requires s.Ok()
    ensures var r := Crawl(s.Web(), MaxDepthDefault, s.Seed());
            && r.Some?
            && |r.value.visited| == 2
            && r.value.processed == 2
            && "word1" !in r.value.counts && "&&&" !in r.value.counts
            && Get(r.value.counts, "word2") == 4
            && Get(r.value.counts, "abc") == 1
            && Get(r.value.counts, "abcd") == 1
            && Get(r.value.counts, "word3") == 1
            && Get(r.value.counts, "word4") == 1
  {
    CrawlOutcome(s);
    Apart(s);
    TwoApart(s.Seed(), s.Page1());
    ExpectedWords();
  }

  lemma {:induction false} TwoApart<T>(a: T, b: T)
    requires a != b
    ensures |{a, b}| == 2
  {
  }

  lemma {:induction false} ExpectedWords()
    ensures "word1" !in Expected && "&&&" !in Expected
    ensures Get(Expected, "word2") == 4 && Get(Expected, "abc") == 1 && Get(Expected, "abcd") == 1
    ensures Get(Expected, "word3") == 1 && Get(Expected, "word4") == 1
  {
  }

  /** The test's own layout: in0.html and in1.html in one resource directory. */
  lemma {:induction false} ResourceSite()
    ensures Site("/res", "example.org", "in0", "in1", "other").Ok()
  {
  }
}
