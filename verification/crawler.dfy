/** The crawl: CrawlerTask.compute run on one fixed sequential schedule. A task
    fetches its page, tallies it, runs its whole link loop (claiming every child in
    the visited set), then runs its children in the order they were claimed and
    merges their maps into its own. The visited set and processedCount are threaded
    through as explicit state. */
module Crawler {
  import opened Wrappers
  import opened FreqMap
  import opened Words
  import opened Address

  /** MAX_DEPTH_DEFAULT: the depth limit when none is given. */
  const MaxDepthDefault: int := 10

  /** What fetching and parsing one address yields: nothing (an IOException, no
      document or no body), or the body text and the href attribute of every <a>
      element in document order ("" for an <a> without href). */
  datatype Page = Unreachable | Page(text: string, hrefs: seq<string>)

  /** The web as the crawler sees it; an address outside the map cannot be fetched. */
  type Web = map<Url, Page>

  function Fetch(web: Web, u: Url): Page {
    if u in web then web[u] else Unreachable
  }

  /** A CrawlerTask: its address, its depth below the root and its domain. */
  datatype Task = Task(url: Url, depth: nat, domain: string)

  /** The domain was derived from the task's own address. */
  predicate TaskOk(t: Task) {
    Domain(t.url) == Some(t.domain)
  }

  /** The CrawlerTask constructor; None is the exception it throws when there is no domain. */
  function NewTask(url: Url, depth: nat): (t: Option<Task>)
    ensures t.Some? <==> Domain(url).Some?
    ensures t.Some? ==> TaskOk(t.value) && t.value.url == url && t.value.depth == depth
  {
    match Domain(url)
    case None => None
    case Some(d) => Some(Task(url, depth, d))
  }

  /** The address an href on the page at u stands for, when it parses. */
  function Resolve(u: Url, href: string): Option<Url> {
    match Domain(u)
    case None => None
    case Some(d) =>
      match Normalize(href, u, d)
      case None => None
      case Some(s) => ParseUrl(s)
  }

  /** Every address some page of the web links to: no crawl can claim anything else. */
  function Linked(web: Web): set<Url> {
    set u, h | u in web && web[u].Page? && h in web[u].hrefs && Resolve(u, h).Some? :: Resolve(u, h).value
  }

  /** What an href is once prefixed, parsed and its extension taken; none of this
      depends on the visited set. */
  datatype Link =
    | Ignored                                             // empty or fragment-only
    | Malformed                                           // new URL throws
    | NoSlash                                             // extractFileExt throws
    | Target(url: Url, ext: string, child: Option<Task>)  // child: the would-be subtask

  /** The href handling of the link loop up to the spawn decision. */
  function Classify(parent: Task, href: string): (l: Link)
    requires TaskOk(parent)
    ensures l.Ignored? <==> href == "" || href[0] == '#'
    ensures l.Malformed? <==> !l.Ignored? && Resolve(parent.url, href).None?
    ensures l.NoSlash? <==> !l.Ignored? && !l.Malformed? && ExtractFileExt(Normalize(href, parent.url, parent.domain).value).None?
    ensures l.Target? ==> Resolve(parent.url, href) == Some(l.url) && Fits(parent, l)
    ensures l.Target? ==> ExtractFileExt(Normalize(href, parent.url, parent.domain).value) == Some(l.ext)
  {
    match Normalize(href, parent.url, parent.domain)
    case None => Ignored
    case Some(s) =>
      match ParseUrl(s)
      case None => Malformed
      case Some(url) =>
        match ExtractFileExt(s)
        case None => NoSlash
        case Some(ext) => Target(url, ext, NewTask(url, parent.depth + 1))
  }

  /** A target's would-be subtask is built from its own address, one level deeper. */
  predicate Fits(parent: Task, l: Link)
    requires l.Target?
  {
    l.child.Some? ==> l.child.value.url == l.url && l.child.value.depth == parent.depth + 1 && TaskOk(l.child.value)
  }

  /** Every href of a page, classified in order. */
  function ClassifyAll(parent: Task, hrefs: seq<string>): (ls: seq<Link>)
    requires TaskOk(parent)
    ensures |ls| == |hrefs|
    ensures forall i :: 0 <= i < |ls| && ls[i].Target? ==> Fits(parent, ls[i])
    decreases |hrefs|
  {
    if |hrefs| == 0 then [] else [Classify(parent, hrefs[0])] + ClassifyAll(parent, hrefs[1..])
  }

  /** The i-th link is the classification of the i-th href. */
  lemma {:induction false} ClassifyAllAt(parent: Task, hrefs: seq<string>, i: int)
    requires TaskOk(parent) && 0 <= i < |hrefs|
    ensures ClassifyAll(parent, hrefs)[i] == Classify(parent, hrefs[i])
    decreases |hrefs|
  {
    if i > 0 {
      ClassifyAllAt(parent, hrefs[1..], i - 1);
    }
  }

  /** The addresses some links stand for. */
  function Targets(ls: seq<Link>): set<Url> {
    set i | 0 <= i < |ls| && ls[i].Target? :: ls[i].url
  }

  lemma TargetsTail(ls: seq<Link>)
    requires |ls| > 0
    ensures Targets(ls[1..]) <= Targets(ls)
    ensures ls[0].Target? ==> ls[0].url in Targets(ls)
  {
    forall x | x in Targets(ls[1..])
      ensures x in Targets(ls)
    {
      var i :| 0 <= i < |ls[1..]| && ls[1..][i].Target? && ls[1..][i].url == x;
      assert ls[i + 1].url == x;
    }
  }

  /** Every address a task can claim is linked from its page. */
  lemma TargetsLinked(web: Web, t: Task)
    requires TaskOk(t) && t.url in web && web[t.url].Page?
    ensures Targets(ClassifyAll(t, web[t.url].hrefs)) <= Linked(web)
  {
    var hrefs := web[t.url].hrefs;
    var ls := ClassifyAll(t, hrefs);
    forall x | x in Targets(ls)
      ensures x in Linked(web)
    {
      var i :| 0 <= i < |ls| && ls[i].Target? && ls[i].url == x;
      ClassifyAllAt(t, hrefs, i);
      assert Resolve(t.url, hrefs[i]) == Some(x);
      assert hrefs[i] in hrefs;
    }
  }

  predicate AllOk(ts: seq<Task>) {
    forall i :: 0 <= i < |ts| ==> TaskOk(ts[i])
  }

  /** A child of parent: one level deeper, on the parent's own host. */
  predicate Child(parent: Task, c: Task) {
    c.depth == parent.depth + 1 && c.url.host == parent.url.host && TaskOk(c)
  }

  /** What one iteration of the link loop does. */
  datatype Step =
    | Dropped                                  // not counted
    | Bad                                      // badCount++
    | Skipped(visited: set<Url>)               // skipCount++
    | Spawned(child: Task, visited: set<Url>)  // a new subtask
    | Aborted(visited: set<Url>)               // an exception ends the loop

  /** The spawn decision sameHost && visited.add(url) && ext not skipped, evaluated left
      to right with short-circuit; the subtask is built only after the add. */
  function Decide(parent: Task, visited: set<Url>, l: Link): (r: Step)
    requires l.Target? ==> Fits(parent, l)
    ensures r.Dropped? <==> l.Ignored?
    ensures r.Bad? <==> l.Malformed?
    ensures r.Skipped? || r.Spawned? || r.Aborted? ==>
              && visited <= r.visited
              && forall x :: x in r.visited - visited ==> l.Target? && x == l.url && x.host == parent.url.host
    ensures r.Spawned? ==>
              && Child(parent, r.child)
              && l.Target? && r.child.url == l.url && l.ext !in SkippedExts
              && r.child.url !in visited
              && r.visited == visited + {r.child.url}
  {
    match l
    case Ignored => Dropped
    case Malformed => Bad
    case NoSlash => Aborted(visited)
    case Target(url, ext, child) =>
      if url.host != parent.url.host then Skipped(visited)
      else if url in visited then Skipped(visited)
      else if ext in SkippedExts then Skipped(visited + {url})
      else
        match child
        case None => Aborted(visited + {url})
        case Some(c) => Spawned(c, visited + {url})
  }

  /** The spawn condition of the link loop, in the order it is evaluated: the href is
      prefixed, parses and has a '/'; the address is on the task's host and had not been
      claimed; its extension is not skipped; and the subtask's constructor succeeds. */
  lemma SpawnCondition(parent: Task, visited: set<Url>, href: string)
    requires TaskOk(parent)
    ensures var s := Normalize(href, parent.url, parent.domain);
            Decide(parent, visited, Classify(parent, href)).Spawned? <==>
              && s.Some? && ParseUrl(s.value).Some? && ExtractFileExt(s.value).Some?
              && ParseUrl(s.value).value.host == parent.url.host
              && ParseUrl(s.value).value !in visited
              && ExtractFileExt(s.value).value !in SkippedExts
              && Domain(ParseUrl(s.value).value).Some?
  {
  }

  /** visited.add runs before the extension test: an image on the same host is claimed
      although it is never crawled, while a link to another host claims nothing. */
  lemma ClaimOrder(parent: Task, visited: set<Url>, l: Link)
    requires l.Target? && Fits(parent, l)
    ensures l.url.host == parent.url.host && l.url !in visited && l.ext in SkippedExts ==>
              Decide(parent, visited, l) == Skipped(visited + {l.url})
    ensures l.url.host != parent.url.host ==> Decide(parent, visited, l) == Skipped(visited)
    ensures l.url in visited ==> Decide(parent, visited, l) == Skipped(visited)
  {
  }

  /** The links the loop does not drop outright. */
  function Kept(ls: seq<Link>): nat
    decreases |ls|
  {
    if |ls| == 0 then 0 else (if ls[0].Ignored? then 0 else 1) + Kept(ls[1..])
  }

  /** The hrefs the loop does not skip without counting: non-empty, not a fragment. */
  function Counted(hrefs: seq<string>): nat
    decreases |hrefs|
  {
    if |hrefs| == 0 then 0
    else (if hrefs[0] == "" || hrefs[0][0] == '#' then 0 else 1) + Counted(hrefs[1..])
  }

  /** A link is kept exactly when its href is counted. */
  lemma {:induction false} KeptCounted(parent: Task, hrefs: seq<string>)
    requires TaskOk(parent)
    ensures Kept(ClassifyAll(parent, hrefs)) == Counted(hrefs)
    decreases |hrefs|
  {
    if |hrefs| > 0 {
      KeptCounted(parent, hrefs[1..]);
      var ls := ClassifyAll(parent, hrefs);
      assert ls[1..] == ClassifyAll(parent, hrefs[1..]);
    }
  }

  /** No address occurs twice. */
  predicate Distinct(ts: seq<Task>) {
    forall i, j :: 0 <= i < j < |ts| ==> ts[i].url != ts[j].url
  }

  function UrlSet(ts: seq<Task>): set<Url> {
    set i | 0 <= i < |ts| :: ts[i].url
  }

  lemma UrlSetCons(t: Task, ts: seq<Task>)
    ensures UrlSet([t] + ts) == {t.url} + UrlSet(ts)
  {
    var l := [t] + ts;
    forall x | x in UrlSet(ts)
      ensures x in UrlSet(l)
    {
      var i :| 0 <= i < |ts| && ts[i].url == x;
      assert l[i + 1].url == x;
    }
    assert l[0].url == t.url;
  }

  lemma UrlSetSnoc(ts: seq<Task>, t: Task)
    ensures UrlSet(ts + [t]) == UrlSet(ts) + {t.url}
  {
    var l := ts + [t];
    assert l[|ts|].url == t.url;
    forall x | x in UrlSet(ts)
      ensures x in UrlSet(l)
    {
      var i :| 0 <= i < |ts| && ts[i].url == x;
      assert l[i].url == x;
    }
  }

  lemma {:induction false} DistinctCard(ts: seq<Task>)
    requires Distinct(ts)
    ensures |UrlSet(ts)| == |ts|
    decreases |ts|
  {
    if |ts| > 0 {
      var p := ts[..|ts| - 1];
      var t := ts[|ts| - 1];
      assert ts == p + [t];
      DistinctCard(p);
      UrlSetSnoc(p, t);
      assert t.url !in UrlSet(p);
    }
  }

  /** The outcome of the link loop of one task. */
  datatype Scan = Scan(children: seq<Task>, skipped: nat, bad: nat, visited: set<Url>, aborted: bool)

  /** The link loop over a page's links, in order, stopping at the first exception. */
  function ScanLinks(parent: Task, visited: set<Url>, ls: seq<Link>): (r: Scan)
    requires forall i :: 0 <= i < |ls| && ls[i].Target? ==> Fits(parent, ls[i])
    ensures visited <= r.visited
    ensures forall x :: x in r.visited - visited ==> x in Targets(ls) && x.host == parent.url.host
    ensures forall i :: 0 <= i < |r.children| ==> Child(parent, r.children[i]) && r.children[i].url in r.visited - visited
    ensures Distinct(r.children)
    ensures !r.aborted ==> |r.children| + r.skipped + r.bad == Kept(ls)
    decreases |ls|
  {
    if |ls| == 0 then Scan([], 0, 0, visited, false)
    else
      TargetsTail(ls);
      match Decide(parent, visited, ls[0])
      case Dropped => ScanLinks(parent, visited, ls[1..])
      case Bad =>
        var r := ScanLinks(parent, visited, ls[1..]);
        r.(bad := r.bad + 1)
      case Skipped(v) =>
        var r := ScanLinks(parent, v, ls[1..]);
        r.(skipped := r.skipped + 1)
      case Spawned(c, v) =>
        var r := ScanLinks(parent, v, ls[1..]);
        ConsDistinct(c, r.children, v, r.visited);
        r.(children := [c] + r.children)
      case Aborted(v) => Scan([], 0, 0, v, true)
  }

  /** A task whose address was marked before the rest were spawned differs from all of them. */
  lemma ConsDistinct(c: Task, rest: seq<Task>, v: set<Url>, w: set<Url>)
    requires Distinct(rest) && c.url in v
    requires forall i :: 0 <= i < |rest| ==> rest[i].url in w - v
    ensures Distinct([c] + rest)
  {
  }

  /** The shared state: urlsVisited and processedCount. */
  datatype State = State(visited: set<Url>, processed: nat)

  /** What a call leaves: its word map, the state after it, and the tasks it ran, in order. */
  datatype Run = Run(counts: Counts, state: State, ran: seq<Task>)

  /** The map a single page contributes: nothing when it cannot be fetched or has no text. */
  function PageTally(web: Web, u: Url): (m: Counts)
    ensures ValidCounts(m)
  {
    match Fetch(web, u)
    case Unreachable => map[]
    case Page(text, _) => if text == "" then map[] else Tally(text)
  }

  /** The sum of the page tallies of some tasks. */
  function SumTallies(web: Web, ts: seq<Task>): (m: Counts)
    ensures ValidCounts(m)
    decreases |ts|
  {
    if |ts| == 0 then map[]
    else
      var a := SumTallies(web, ts[..|ts| - 1]);
      var b := PageTally(web, ts[|ts| - 1].url);
      MergeValid(a, b);
      Merge(a, b)
  }

  lemma {:induction false} SumTalliesConcat(web: Web, a: seq<Task>, b: seq<Task>)
    ensures SumTallies(web, a + b) == Merge(SumTallies(web, a), SumTallies(web, b))
    decreases |b|
  {
    if |b| == 0 {
      assert a + b == a;
      MergeEmptyRight(SumTallies(web, a));
    } else {
      var b' := b[..|b| - 1];
      assert (a + b)[..|a + b| - 1] == a + b';
      SumTalliesConcat(web, a, b');
      MergeAssociative(SumTallies(web, a), SumTallies(web, b'), PageTally(web, b[|b| - 1].url));
    }
  }

  lemma SumTalliesOne(web: Web, t: Task)
    ensures SumTallies(web, [t]) == PageTally(web, t.url)
  {
    assert [t][..0] == [];
    MergeEmptyLeft(PageTally(web, t.url));
  }

  /** Removing more of a finite universe leaves less of it. */
  lemma {:induction false} SubsetCard<T>(a: set<T>, b: set<T>)
    requires a <= b
    ensures |a| <= |b|
    decreases |a|
  {
    if a != {} {
      var x :| x in a;
      SubsetCard(a - {x}, b - {x});
    }
  }

  /** Claiming |K| new addresses of the universe shrinks what is left of it by |K|. */
  lemma ClaimShrinks<T>(u: set<T>, v: set<T>, v': set<T>, k: set<T>)
    requires v <= v' && v' - v <= u && k <= v' - v
    ensures |u - v'| + |k| <= |u - v|
  {
    assert u - v == (u - v') + (v' - v);
    assert (u - v') !! (v' - v);
    SubsetCard(k, v' - v);
  }

  lemma VisitedGrows<T>(u: set<T>, v: set<T>, v': set<T>)
    requires v <= v'
    ensures |u - v'| <= |u - v|
  {
    SubsetCard(u - v', u - v);
  }

  /** The link loop claims only linked addresses, each child a fresh one, so what is
      left to claim shrinks by at least the number of children. */
  lemma ScanShrinks(web: Web, t: Task, ls: seq<Link>, visited: set<Url>)
    requires Targets(ls) <= Linked(web)
    requires forall i :: 0 <= i < |ls| && ls[i].Target? ==> Fits(t, ls[i])
    ensures var sc := ScanLinks(t, visited, ls);
            && sc.visited - visited <= Linked(web)
            && UrlSet(sc.children) <= sc.visited - visited
            && ClaimedIn(sc.children, sc.visited)
            && AllOk(sc.children) && Distinct(sc.children)
            && |Linked(web) - sc.visited| + |sc.children| <= |Linked(web) - visited|
  {
    var sc := ScanLinks(t, visited, ls);
    DistinctCard(sc.children);
    ClaimShrinks(Linked(web), visited, sc.visited, UrlSet(sc.children));
  }

  /** CrawlerTask.compute for task t from state st: its map, the state after it and all
      the tasks it spawned have run, and those tasks, t first. */
  function RunTask(web: Web, maxDepth: int, t: Task, st: State): (r: Run)
    requires TaskOk(t)
    ensures st.visited <= r.state.visited
    decreases |Linked(web) - st.visited|, 4
  {
    match Fetch(web, t.url)
    case Unreachable => Run(map[], st, [t])
    case Page(text, hrefs) =>
      if text == "" then Run(map[], st, [t])
      else RunPage(web, maxDepth, t, text, hrefs, st)
  }

  /** The rest of compute once the page has text: the tally, then, below the depth
      limit, the link loop and the children. */
  function RunPage(web: Web, maxDepth: int, t: Task, text: string, hrefs: seq<string>, st: State): (r: Run)
    requires TaskOk(t) && Fetch(web, t.url) == Page(text, hrefs)
    ensures st.visited <= r.state.visited
    decreases |Linked(web) - st.visited|, 3
  {
    if t.depth == maxDepth then Run(Tally(text), st, [t])
    else
      TargetsLinked(web, t);
      var rl := RunLinks(web, maxDepth, t, Tally(text), ClassifyAll(t, hrefs), st);
      Run(rl.counts, rl.state, [t] + rl.ran)
  }

  /** The link loop of task t over its classified links, then its children when the
      loop ran to the end; an exception in the loop leaves t with its own map and
      abandons the children already claimed. */
  function RunLinks(web: Web, maxDepth: int, t: Task, own: Counts, ls: seq<Link>, st: State): (r: Run)
    requires TaskOk(t) && Targets(ls) <= Linked(web)
    requires forall i :: 0 <= i < |ls| && ls[i].Target? ==> Fits(t, ls[i])
    ensures st.visited <= r.state.visited
    decreases |Linked(web) - st.visited|, 2
  {
    var sc := ScanLinks(t, st.visited, ls);
    var st1 := st.(visited := sc.visited);
    if sc.aborted then Run(own, st1, [])
    else
      ScanShrinks(web, t, ls, st.visited);
      RunMerge(web, maxDepth, sc.children, own, st1)
  }

  /** The children's run and merge, then processedCount raised by their number. */
  function RunMerge(web: Web, maxDepth: int, kids: seq<Task>, own: Counts, st: State): (r: Run)
    requires AllOk(kids)
    ensures st.visited <= r.state.visited
    decreases |Linked(web) - st.visited| + |kids|, 1
  {
    var rc := RunChildren(web, maxDepth, kids, own, st);
    Run(rc.counts, rc.state.(processed := rc.state.processed + |kids|), rc.ran)
  }

  /** The merge loop: the children run one after another, each from the state the
      previous one left, and each map is merged into acc in order. */
  function RunChildren(web: Web, maxDepth: int, kids: seq<Task>, acc: Counts, st: State): (r: Run)
    requires AllOk(kids)
    ensures st.visited <= r.state.visited
    decreases |Linked(web) - st.visited| + |kids|, 0
  {
    if |kids| == 0 then Run(acc, st, [])
    else
      var c := RunTask(web, maxDepth, kids[0], st);
      VisitedGrows(Linked(web), st.visited, c.state.visited);
      var rest := RunChildren(web, maxDepth, kids[1..], Merge(acc, c.counts), c.state);
      Run(rest.counts, rest.state, c.ran + rest.ran)
  }

  /** A task that cannot fetch its page, finds no text or sits at the depth limit runs
      alone and leaves the state as it was. */
  lemma RunTaskLeaf(web: Web, maxDepth: int, t: Task, st: State)
    requires TaskOk(t)
    requires t.depth == maxDepth || Fetch(web, t.url).Unreachable? || Fetch(web, t.url).text == ""
    ensures RunTask(web, maxDepth, t, st) == Run(PageTally(web, t.url), st, [t])
  {
  }

  /** With maxDepth 0 only the root runs: its page is tallied and nothing is claimed. */
  lemma CrawlDepthZero(web: Web, seed: Url)
    requires Domain(seed).Some?
    ensures Crawl(web, 0, seed) ==
              Some(Outcome(PageTally(web, seed), {seed}, 1, [Task(seed, 0, Domain(seed).value)]))
  {
    var root := Task(seed, 0, Domain(seed).value);
    RunTaskLeaf(web, 0, root, State({seed}, 1));
  }

  /** An empty or unfetchable page contributes an empty map and spawns nothing. */
  lemma RunTaskEmpty(web: Web, maxDepth: int, t: Task, st: State)
    requires TaskOk(t)
    requires Fetch(web, t.url).Unreachable? || Fetch(web, t.url).text == ""
    ensures RunTask(web, maxDepth, t, st) == Run(map[], st, [t])
  {
  }

  // Every task runs once: it was claimed before it ran, the tasks it spawned are
  // fresh claims, and no address is claimed twice.

  lemma {:induction false} RunTaskClaims(web: Web, maxDepth: int, t: Task, st: State)
    requires TaskOk(t) && t.url in st.visited
    ensures var r := RunTask(web, maxDepth, t, st);
            && |r.ran| >= 1 && r.ran[0] == t && Distinct(r.ran)
            && ClaimedIn(r.ran[1..], r.state.visited - st.visited)
    decreases |Linked(web) - st.visited|, 2
  {
    match Fetch(web, t.url)
    case Unreachable =>
    case Page(text, hrefs) =>
      if text != "" && t.depth != maxDepth {
        TargetsLinked(web, t);
        var ls := ClassifyAll(t, hrefs);
        RunLinksClaims(web, maxDepth, t, Tally(text), ls, st);
        var rl := RunLinks(web, maxDepth, t, Tally(text), ls, st);
        DistinctCons(t, rl.ran, rl.state.visited - st.visited);
        assert ([t] + rl.ran)[1..] == rl.ran;
      }
  }

  /** A task claimed earlier can lead a run of fresh claims. */
  lemma DistinctCons(t: Task, ts: seq<Task>, claims: set<Url>)
    requires Distinct(ts) && ClaimedIn(ts, claims) && t.url !in claims
    ensures Distinct([t] + ts)
  {
    var l := [t] + ts;
    forall i, j | 0 <= i < j < |l|
      ensures l[i].url != l[j].url
    {
      assert l[j] == ts[j - 1];
      if i > 0 {
        assert l[i] == ts[i - 1];
      }
    }
  }

  lemma {:induction false} RunLinksClaims(web: Web, maxDepth: int, t: Task, own: Counts, ls: seq<Link>, st: State)
    requires TaskOk(t) && Targets(ls) <= Linked(web)
    requires forall i :: 0 <= i < |ls| && ls[i].Target? ==> Fits(t, ls[i])
    ensures var r := RunLinks(web, maxDepth, t, own, ls, st);
            && Distinct(r.ran)
            && ClaimedIn(r.ran, r.state.visited - st.visited)
    decreases |Linked(web) - st.visited|, 1
  {
    var sc := ScanLinks(t, st.visited, ls);
    var st1 := st.(visited := sc.visited);
    if !sc.aborted {
      ScanShrinks(web, t, ls, st.visited);
      RunChildrenClaims(web, maxDepth, sc.children, own, st1);
      var rc := RunChildren(web, maxDepth, sc.children, own, st1);
      var k := UrlSet(sc.children);
      ClaimsNest(k, st.visited, sc.visited, rc.state.visited);
      ClaimedInMono(rc.ran, k + (rc.state.visited - sc.visited), rc.state.visited - st.visited);
      assert RunLinks(web, maxDepth, t, own, ls, st).ran == rc.ran;
      assert RunLinks(web, maxDepth, t, own, ls, st).state.visited == rc.state.visited;
    } else {
      assert RunLinks(web, maxDepth, t, own, ls, st).ran == [];
    }
  }

  lemma {:induction false} RunChildrenClaims(web: Web, maxDepth: int, kids: seq<Task>, acc: Counts, st: State)
    requires AllOk(kids)
    requires ClaimedIn(kids, st.visited) && Distinct(kids)
    ensures var r := RunChildren(web, maxDepth, kids, acc, st);
            && Distinct(r.ran)
            && ClaimedIn(r.ran, UrlSet(kids) + (r.state.visited - st.visited))
    decreases |Linked(web) - st.visited| + |kids|, 0
  {
    if |kids| > 0 {
      var c := RunTask(web, maxDepth, kids[0], st);
      VisitedGrows(Linked(web), st.visited, c.state.visited);
      RunTaskClaims(web, maxDepth, kids[0], st);
      KidsTail(kids, st.visited, c.state.visited);
      var acc' := Merge(acc, c.counts);
      RunChildrenClaims(web, maxDepth, kids[1..], acc', c.state);
      var rest := RunChildren(web, maxDepth, kids[1..], acc', c.state);
      ConcatClaims(kids[0], UrlSet(kids[1..]), st.visited, c.state.visited, rest.state.visited, c.ran, rest.ran);
    }
  }

  /** What the remaining children still satisfy once the first has run. */
  lemma KidsTail(kids: seq<Task>, v: set<Url>, v': set<Url>)
    requires |kids| > 0 && v <= v'
    requires AllOk(kids)
    requires ClaimedIn(kids, v) && Distinct(kids)
    ensures AllOk(kids[1..])
    ensures ClaimedIn(kids[1..], v') && Distinct(kids[1..])
    ensures kids[0].url in v && UrlSet(kids[1..]) <= v && kids[0].url !in UrlSet(kids[1..])
    ensures UrlSet(kids) == {kids[0].url} + UrlSet(kids[1..])
  {
    var tl := kids[1..];
    assert forall i :: 0 <= i < |tl| ==> tl[i] == kids[i + 1];
    UrlSetCons(kids[0], tl);
    assert kids == [kids[0]] + tl;
  }

  lemma ClaimsNest<T>(k: set<T>, v0: set<T>, v1: set<T>, v2: set<T>)
    requires k <= v1 - v0 && v0 <= v1 <= v2
    ensures k + (v2 - v1) <= v2 - v0
  {
  }

  lemma ClaimedInMono(ts: seq<Task>, a: set<Url>, b: set<Url>)
    requires ClaimedIn(ts, a) && a <= b
    ensures ClaimedIn(ts, b)
  {
  }

  /** The two halves of a children run claim disjoint addresses. */
  lemma ConcatClaims(k: Task, others: set<Url>, v0: set<Url>, v1: set<Url>, v2: set<Url>, a: seq<Task>, b: seq<Task>)
    requires k.url in v0 && others <= v0 && k.url !in others && v0 <= v1 <= v2
    requires |a| >= 1 && a[0] == k && Distinct(a)
    requires ClaimedIn(a[1..], v1 - v0)
    requires Distinct(b)
    requires ClaimedIn(b, others + (v2 - v1))
    ensures Distinct(a + b)
    ensures ClaimedIn(a + b, {k.url} + others + (v2 - v0))
  {
    var ab := a + b;
    assert forall i :: 1 <= i < |a| ==> a[i].url in v1 - v0 by {
      forall i | 1 <= i < |a|
        ensures a[i].url in v1 - v0
      {
        assert a[i] == a[1..][i - 1];
      }
    }
    forall i, j | 0 <= i < j < |ab|
      ensures ab[i].url != ab[j].url
    {
      if j >= |a| && i < |a| {
        assert ab[j] == b[j - |a|];
        assert ab[i] == a[i];
        if i == 0 {
          assert a[i].url in v0;
        } else {
          assert a[i].url in v1 - v0;
        }
      }
    }
    forall i | 0 <= i < |ab|
      ensures ab[i].url in {k.url} + others + (v2 - v0)
    {
      if i < |a| {
        assert ab[i] == a[i];
        if i > 0 {
          assert a[i].url in v1 - v0;
        }
      } else {
        assert ab[i] == b[i - |a|];
      }
    }
  }

  /** Every task of ts has its address in s. */
  predicate ClaimedIn(ts: seq<Task>, s: set<Url>) {
    forall i :: 0 <= i < |ts| ==> ts[i].url in s
  }

  // processedCount: every task spawned adds one when its parent's merge loop ends.

  lemma {:induction false} RunTaskCount(web: Web, maxDepth: int, t: Task, st: State)
    requires TaskOk(t)
    ensures var r := RunTask(web, maxDepth, t, st);
            r.state.processed + 1 == st.processed + |r.ran|
    decreases |Linked(web) - st.visited|, 2
  {
    match Fetch(web, t.url)
    case Unreachable =>
    case Page(text, hrefs) =>
      if text != "" && t.depth != maxDepth {
        TargetsLinked(web, t);
        RunLinksCount(web, maxDepth, t, Tally(text), ClassifyAll(t, hrefs), st);
      }
  }

  lemma {:induction false} RunLinksCount(web: Web, maxDepth: int, t: Task, own: Counts, ls: seq<Link>, st: State)
    requires TaskOk(t) && Targets(ls) <= Linked(web)
    requires forall i :: 0 <= i < |ls| && ls[i].Target? ==> Fits(t, ls[i])
    ensures var r := RunLinks(web, maxDepth, t, own, ls, st);
            r.state.processed == st.processed + |r.ran|
    decreases |Linked(web) - st.visited|, 1
  {
    var sc := ScanLinks(t, st.visited, ls);
    if !sc.aborted {
      ScanShrinks(web, t, ls, st.visited);
      RunChildrenCount(web, maxDepth, sc.children, own, st.(visited := sc.visited));
    }
  }

  lemma {:induction false} RunChildrenCount(web: Web, maxDepth: int, kids: seq<Task>, acc: Counts, st: State)
    requires AllOk(kids)
    ensures var r := RunChildren(web, maxDepth, kids, acc, st);
            r.state.processed + |kids| == st.processed + |r.ran|
    decreases |Linked(web) - st.visited| + |kids|, 0
  {
    if |kids| > 0 {
      var c := RunTask(web, maxDepth, kids[0], st);
      VisitedGrows(Linked(web), st.visited, c.state.visited);
      RunTaskCount(web, maxDepth, kids[0], st);
      RunChildrenCount(web, maxDepth, kids[1..], Merge(acc, c.counts), c.state);
    }
  }

  // The depth bound: no task deeper than maxDepth runs.

  predicate Shallow(ts: seq<Task>, maxDepth: int) {
    forall i :: 0 <= i < |ts| ==> ts[i].depth <= maxDepth
  }

  lemma {:induction false} RunTaskDepth(web: Web, maxDepth: int, t: Task, st: State)
    requires TaskOk(t) && t.depth <= maxDepth
    ensures var r := RunTask(web, maxDepth, t, st);
            Shallow(r.ran, maxDepth)
    decreases |Linked(web) - st.visited|, 2
  {
    match Fetch(web, t.url)
    case Unreachable =>
    case Page(text, hrefs) =>
      if text != "" && t.depth != maxDepth {
        TargetsLinked(web, t);
        var ls := ClassifyAll(t, hrefs);
        RunLinksDepth(web, maxDepth, t, Tally(text), ls, st);
        ShallowConcat([t], RunLinks(web, maxDepth, t, Tally(text), ls, st).ran, maxDepth);
      }
  }

  lemma {:induction false} RunLinksDepth(web: Web, maxDepth: int, t: Task, own: Counts, ls: seq<Link>, st: State)
    requires TaskOk(t) && Targets(ls) <= Linked(web) && t.depth < maxDepth
    requires forall i :: 0 <= i < |ls| && ls[i].Target? ==> Fits(t, ls[i])
    ensures var r := RunLinks(web, maxDepth, t, own, ls, st);
            Shallow(r.ran, maxDepth)
    decreases |Linked(web) - st.visited|, 1
  {
    var sc := ScanLinks(t, st.visited, ls);
    if !sc.aborted {
      ScanShrinks(web, t, ls, st.visited);
      assert forall i :: 0 <= i < |sc.children| ==> Child(t, sc.children[i]);
      RunChildrenDepth(web, maxDepth, sc.children, own, st.(visited := sc.visited));
    }
  }

  lemma {:induction false} RunChildrenDepth(web: Web, maxDepth: int, kids: seq<Task>, acc: Counts, st: State)
    requires AllOk(kids) && Shallow(kids, maxDepth)
    ensures var r := RunChildren(web, maxDepth, kids, acc, st);
            Shallow(r.ran, maxDepth)
    decreases |Linked(web) - st.visited| + |kids|, 0
  {
    if |kids| > 0 {
      var c := RunTask(web, maxDepth, kids[0], st);
      VisitedGrows(Linked(web), st.visited, c.state.visited);
      RunTaskDepth(web, maxDepth, kids[0], st);
      var acc' := Merge(acc, c.counts);
      assert forall i :: 0 <= i < |kids[1..]| ==> kids[1..][i] == kids[i + 1];
      RunChildrenDepth(web, maxDepth, kids[1..], acc', c.state);
      ShallowConcat(c.ran, RunChildren(web, maxDepth, kids[1..], acc', c.state).ran, maxDepth);
    }
  }

  lemma ShallowConcat(a: seq<Task>, b: seq<Task>, maxDepth: int)
    requires Shallow(a, maxDepth) && Shallow(b, maxDepth)
    ensures Shallow(a + b, maxDepth)
  {
    forall i | 0 <= i < |a + b|
      ensures (a + b)[i].depth <= maxDepth
    {
      if i < |a| {
        assert (a + b)[i] == a[i];
      } else {
        assert (a + b)[i] == b[i - |a|];
      }
    }
  }

  // The result: the sum of the tallies of every page that was run.

  lemma SumTalliesCons(web: Web, t: Task, ts: seq<Task>)
    ensures SumTallies(web, [t] + ts) == Merge(PageTally(web, t.url), SumTallies(web, ts))
  {
    SumTalliesConcat(web, [t], ts);
    SumTalliesOne(web, t);
  }

  lemma {:induction false} RunTaskSum(web: Web, maxDepth: int, t: Task, st: State)
    requires TaskOk(t)
    ensures var r := RunTask(web, maxDepth, t, st);
            r.counts == SumTallies(web, r.ran)
    decreases |Linked(web) - st.visited|, 2
  {
    SumTalliesOne(web, t);
    match Fetch(web, t.url)
    case Unreachable =>
    case Page(text, hrefs) =>
      if text != "" && t.depth != maxDepth {
        TargetsLinked(web, t);
        var ls := ClassifyAll(t, hrefs);
        RunLinksSum(web, maxDepth, t, Tally(text), ls, st);
        var rl := RunLinks(web, maxDepth, t, Tally(text), ls, st);
        SumTalliesCons(web, t, rl.ran);
      }
  }

  lemma {:induction false} RunLinksSum(web: Web, maxDepth: int, t: Task, own: Counts, ls: seq<Link>, st: State)
    requires TaskOk(t) && Targets(ls) <= Linked(web)
    requires forall i :: 0 <= i < |ls| && ls[i].Target? ==> Fits(t, ls[i])
    ensures var r := RunLinks(web, maxDepth, t, own, ls, st);
            r.counts == Merge(own, SumTallies(web, r.ran))
    decreases |Linked(web) - st.visited|, 1
  {
    var sc := ScanLinks(t, st.visited, ls);
    if sc.aborted {
      MergeEmptyRight(own);
    } else {
      ScanShrinks(web, t, ls, st.visited);
      RunChildrenSum(web, maxDepth, sc.children, own, st.(visited := sc.visited));
    }
  }

  lemma {:induction false} RunChildrenSum(web: Web, maxDepth: int, kids: seq<Task>, acc: Counts, st: State)
    requires AllOk(kids)
    ensures var r := RunChildren(web, maxDepth, kids, acc, st);
            r.counts == Merge(acc, SumTallies(web, r.ran))
    decreases |Linked(web) - st.visited| + |kids|, 0
  {
    if |kids| == 0 {
      MergeEmptyRight(acc);
    } else {
      var c := RunTask(web, maxDepth, kids[0], st);
      VisitedGrows(Linked(web), st.visited, c.state.visited);
      RunTaskSum(web, maxDepth, kids[0], st);
      var acc' := Merge(acc, c.counts);
      RunChildrenSum(web, maxDepth, kids[1..], acc', c.state);
      var rest := RunChildren(web, maxDepth, kids[1..], acc', c.state);
      SumTalliesConcat(web, c.ran, rest.ran);
      MergeAssociative(acc, c.counts, SumTallies(web, rest.ran));
    }
  }

  // Nothing is claimed that no page links to.

  lemma {:induction false} RunTaskLinked(web: Web, maxDepth: int, t: Task, st: State)
    requires TaskOk(t)
    ensures RunTask(web, maxDepth, t, st).state.visited - st.visited <= Linked(web)
    decreases |Linked(web) - st.visited|, 2
  {
    match Fetch(web, t.url)
    case Unreachable =>
    case Page(text, hrefs) =>
      if text != "" && t.depth != maxDepth {
        TargetsLinked(web, t);
        RunLinksLinked(web, maxDepth, t, Tally(text), ClassifyAll(t, hrefs), st);
      }
  }

  lemma {:induction false} RunLinksLinked(web: Web, maxDepth: int, t: Task, own: Counts, ls: seq<Link>, st: State)
    requires TaskOk(t) && Targets(ls) <= Linked(web)
    requires forall i :: 0 <= i < |ls| && ls[i].Target? ==> Fits(t, ls[i])
    ensures RunLinks(web, maxDepth, t, own, ls, st).state.visited - st.visited <= Linked(web)
    decreases |Linked(web) - st.visited|, 1
  {
    var sc := ScanLinks(t, st.visited, ls);
    if !sc.aborted {
      ScanShrinks(web, t, ls, st.visited);
      RunChildrenLinked(web, maxDepth, sc.children, own, st.(visited := sc.visited));
    }
  }

  lemma {:induction false} RunChildrenLinked(web: Web, maxDepth: int, kids: seq<Task>, acc: Counts, st: State)
    requires AllOk(kids)
    ensures RunChildren(web, maxDepth, kids, acc, st).state.visited - st.visited <= Linked(web)
    decreases |Linked(web) - st.visited| + |kids|, 0
  {
    if |kids| > 0 {
      var c := RunTask(web, maxDepth, kids[0], st);
      VisitedGrows(Linked(web), st.visited, c.state.visited);
      RunTaskLinked(web, maxDepth, kids[0], st);
      RunChildrenLinked(web, maxDepth, kids[1..], Merge(acc, c.counts), c.state);
    }
  }

  /** What a crawl reports: the merged map, urlsVisited, processedCount, and the
      tasks in the order they ran. */
  datatype Outcome = Outcome(counts: Counts, visited: set<Url>, processed: nat, ran: seq<Task>)

  /** crawl(url): the root task is built first (None: its constructor threw), then the
      root is claimed, processedCount set to 1 and the root task run. */
  function Crawl(web: Web, maxDepth: int, seed: Url): (r: Option<Outcome>)
    ensures r.None? <==> Domain(seed).None?
    ensures r.Some? ==>
              var o := r.value;
              && |o.ran| >= 1 && o.ran[0].url == seed && o.ran[0].depth == 0
              && o.processed == |o.ran|
              && Distinct(o.ran) && UrlSet(o.ran) <= o.visited
              && seed in o.visited && o.visited <= {seed} + Linked(web)
              && (maxDepth >= 0 ==> forall i :: 0 <= i < |o.ran| ==> o.ran[i].depth <= maxDepth)
              && o.counts == SumTallies(web, o.ran)
              && ValidCounts(o.counts)
  {
    match NewTask(seed, 0)
    case None => None
    case Some(root) =>
      var st := State({seed}, 1);
      var run := RunTask(web, maxDepth, root, st);
      RunTaskClaims(web, maxDepth, root, st);
      RunTaskCount(web, maxDepth, root, st);
      assert maxDepth >= 0 ==> forall i :: 0 <= i < |run.ran| ==> run.ran[i].depth <= maxDepth by {
        if maxDepth >= 0 {
          RunTaskDepth(web, maxDepth, root, st);
        }
      }
      RunTaskSum(web, maxDepth, root, st);
      RunTaskLinked(web, maxDepth, root, st);
      assert UrlSet(run.ran) <= run.state.visited by {
        forall x | x in UrlSet(run.ran)
          ensures x in run.state.visited
        {
          var i :| 0 <= i < |run.ran| && run.ran[i].url == x;
          if i > 0 {
            assert run.ran[i] == run.ran[1..][i - 1];
          }
        }
      }
      Some(Outcome(run.counts, run.state.visited, run.state.processed, run.ran))
  }
}
