# crawler-demo in Dafny

A model of the crawler in `CrawlerDemoApp.java`. The crawler fetches a seed page and
counts its words into a frequency map. It then follows the page's same-host links,
claiming each address once in a shared visited set, and does the same for every linked
page, down to a depth limit. The pages' maps are merged into one.

The model is sequential and pure. The web is a map from address to page, where a page
is either unreachable or a body text plus the href of every `<a>` element. The visited
set (`urlsVisited`) and the task counter (`processedCount`) are threaded through the
crawl as explicit state. One fixed schedule is modelled: a task runs its whole link
loop, claiming every child, then runs its children in the order they were claimed,
each child starting from the state the previous one left.

Modules, leaf first:

- `Wrappers`: `Option`.
- `Strings`: ASCII character classes and `toLowerCase`. Also `lastIndexOf`, a model of
  `String.split` on a single-character class (every empty piece kept, then Java's
  dropping of trailing empties), and `trim`.
- `FreqMap`: `Map<String, Integer>` as `map<string, nat>`. It holds `merge(word, 1,
  Integer::sum)` (`Bump`), the pointwise merge of two maps (`Merge`), and their laws.
- `Words`: the word tallier of `CrawlerTask.compute`.
- `Address`: a structural stand-in for `java.net.URL` (`ParseUrl`, `Render`), with the generic handler and the mailto handler and the port check of `Integer.parseInt`. It also
  holds the task's domain string, the href prefixing rules and `extractFileExt`.
- `Crawler`: the spawn decision, the link loop, `compute`, its merge loop, the
  counters, and `crawl`.
- `Scenario`: the repository's unit test, restated as lemmas about a three-page web
  built for the model.

Behaviours of the code that are easy to misread:

- The visited set is updated before the extension test. So a same-host image link is
  claimed although it is never crawled (`ClaimOrder`).
- A relative href such as `page.html` is not resolved against the page. `new URL(href)`
  rejects it, and it counts as bad (`RelativeIsBad`).
- The tokeniser splits at every single non-word character rather than at runs of them.
  The empty tokens this yields are dropped with the short ones, so the counts are the
  same.
- `extractFileExt` takes the last piece of `String.split("\\.")`, which drops trailing
  empty pieces. So `/a.jpg.` gives `jpg`, not `""`. An href without any `/` makes
  `substring(-1)` throw. This ends the link loop through the catch-all handler.

## Model

| member | source | states |
|---|---|---|
| Strings.ToLower | src/main/java/ru/aermakov/CrawlerDemoApp.java:128 | the result has the input's length; each character is the ASCII lower-case of the input's; no upper-case letter is left |
| Strings.LastIndexWhere | src/main/java/ru/aermakov/CrawlerDemoApp.java:214 | `lastIndexOf`: -1 or a matching index, and no character after it matches |
| Strings.IndexOfAny | src/main/java/ru/aermakov/CrawlerDemoApp.java:153 | the first index holding a character of the set, or the length when there is none; nothing before it is in the set |
| Strings.Split | src/main/java/ru/aermakov/CrawlerDemoApp.java:128 | one piece more than there are separators; no piece holds a separator; pieces hold only input characters |
| Strings.SplitJoin | src/main/java/ru/aermakov/CrawlerDemoApp.java:128 | the pieces, with the separators between them, rebuild the input exactly |
| Strings.SplitLast | src/main/java/ru/aermakov/CrawlerDemoApp.java:217-218 | the last piece is everything after the last separator |
| Strings.SplitConcat | src/main/java/ru/aermakov/CrawlerDemoApp.java:128 | splitting `x + sep + y` gives the pieces of `x` followed by the pieces of `y` |
| Strings.SplitTrailing | src/main/java/ru/aermakov/CrawlerDemoApp.java:217 | separators at the end of the input only add empty pieces |
| Strings.DropTrailingEmpty | src/main/java/ru/aermakov/CrawlerDemoApp.java:217 | a prefix of the pieces, with only empty pieces after it and a non-empty last piece |
| Strings.DropTrailingEmpties | src/main/java/ru/aermakov/CrawlerDemoApp.java:217 | dropping the trailing empties of a list padded with empty pieces gives the list back |
| Strings.JavaSplit | src/main/java/ru/aermakov/CrawlerDemoApp.java:217 | `String.split`: a prefix of the full split, and only empty pieces after it are dropped; without a separator the input comes back whole; with one, the last piece kept is not empty |
| Strings.JavaSplitStripped | src/main/java/ru/aermakov/CrawlerDemoApp.java:217 | with a separator present and none at the front, `split` gives the pieces of the input without its trailing separators |
| Strings.StripTrailing | src/main/java/ru/aermakov/CrawlerDemoApp.java:217 | a prefix followed only by matching characters, whose own last character does not match |
| Strings.Trim | src/main/java/ru/aermakov/CrawlerDemoApp.java:129 | `String.trim`: the slice of the input that starts after its leading blanks, with only blanks after it and no blank at either end |
| Strings.TrimUnchanged | src/main/java/ru/aermakov/CrawlerDemoApp.java:129 | text that neither starts nor ends with a blank is its own trim |
| Strings.ParseInt | src/main/java/ru/aermakov/CrawlerDemoApp.java:153 | `Integer.parseInt` in radix 10, as `new URL` reads a port: it succeeds exactly when the text after an optional sign is a non-empty ASCII numeral whose signed value fits a Java int, and then yields that value |
| Strings.DecimalAtLeast | src/main/java/ru/aermakov/CrawlerDemoApp.java:153 | a numeral of n digits without a leading zero stands for at least 10^(n-1) |
| Strings.DigitsValue | src/main/java/ru/aermakov/CrawlerDemoApp.java:153 | the decimal numeral written for a natural number spells that number |
| Strings.ParseShow | src/main/java/ru/aermakov/CrawlerDemoApp.java:153 | `parseInt` reads back every Java int in its `toString` spelling, sign included |
| FreqMap.Bump | src/main/java/ru/aermakov/CrawlerDemoApp.java:133 | `merge(w, 1, sum)`: the keys gain `w`, the count of `w` rises by one, and every other count is unchanged |
| FreqMap.BumpSum | src/main/java/ru/aermakov/CrawlerDemoApp.java:133 | counting one more occurrence raises the total of all counts by one |
| FreqMap.Merge | src/main/java/ru/aermakov/CrawlerDemoApp.java:175 | the keys are the union of both maps' keys, and every count is the sum of the two counts |
| FreqMap.MergeEmptyLeft | src/main/java/ru/aermakov/CrawlerDemoApp.java:175 | merging into an empty map gives the other map |
| FreqMap.MergeEmptyRight | src/main/java/ru/aermakov/CrawlerDemoApp.java:175 | merging an empty map changes nothing |
| FreqMap.MergeCommutative | src/main/java/ru/aermakov/CrawlerDemoApp.java:172-177 | the order in which two maps are merged does not matter |
| FreqMap.MergeAssociative | src/main/java/ru/aermakov/CrawlerDemoApp.java:172-177 | the grouping of three merges does not matter |
| FreqMap.MergePositive | src/main/java/ru/aermakov/CrawlerDemoApp.java:175 | merging keeps every count at least one |
| FreqMap.MergeSum | src/main/java/ru/aermakov/CrawlerDemoApp.java:175 | the total of the merged map is the sum of the two totals |
| Words.Tokens | src/main/java/ru/aermakov/CrawlerDemoApp.java:128 | the tokens of the lower-cased text hold only lower-case letters, digits and `_` |
| Words.Qualifying | src/main/java/ru/aermakov/CrawlerDemoApp.java:130-132 | the kept tokens are tokens of the input, each at least three characters long |
| Words.QualifyingMultiset | src/main/java/ru/aermakov/CrawlerDemoApp.java:130-132 | every token of three or more characters is kept exactly as often as it occurs, and no shorter token is kept |
| Words.CountTokens | src/main/java/ru/aermakov/CrawlerDemoApp.java:128-134 | every count is at least one, and every key is a token of the input at least three characters long |
| Words.CountTokensOccurrences | src/main/java/ru/aermakov/CrawlerDemoApp.java:128-134 | each word's count is its number of occurrences among the long tokens (0 when absent) |
| Words.CountTokensTotal | src/main/java/ru/aermakov/CrawlerDemoApp.java:128-134 | the counts add up to the number of long tokens |
| Words.Tally | src/main/java/ru/aermakov/CrawlerDemoApp.java:127-136 | every key is at least three characters of `[a-z0-9_]`, and every count is at least one |
| Words.TallyOccurrences | src/main/java/ru/aermakov/CrawlerDemoApp.java:127-136 | a page's count of a word is its number of long tokens equal to it; a word is a key exactly when it is such a token |
| Words.TallyLongTokens | src/main/java/ru/aermakov/CrawlerDemoApp.java:127-136 | a page's count of a word is its number of occurrences among the lower-cased tokens when it has three or more characters, and zero otherwise |
| Words.TallyTotal | src/main/java/ru/aermakov/CrawlerDemoApp.java:127-136 | a page's counts add up to its number of long tokens |
| Words.QualifyingTokens | src/main/java/ru/aermakov/CrawlerDemoApp.java:128 | dropping the trailing empty pieces of `split` does not change which tokens are counted |
| Words.TallyConcat | src/main/java/ru/aermakov/CrawlerDemoApp.java:128 | the tally of two texts joined by a separator is the merge of their tallies |
| Words.TallyJoin | src/main/java/ru/aermakov/CrawlerDemoApp.java:128 | the tally of word pieces joined by separators counts the lower-cased pieces |
| Words.TallyWord | src/main/java/ru/aermakov/CrawlerDemoApp.java:128-133 | a single word of three or more word characters is counted once, lower-cased |
| Words.TallyKey | src/main/java/ru/aermakov/CrawlerDemoApp.java:128-133 | a countable key on its own is counted once, as itself |
| Words.TokensWord | src/main/java/ru/aermakov/CrawlerDemoApp.java:128 | a text of word characters only is one token, its lower-cased self |
| Words.TallyNoWord | src/main/java/ru/aermakov/CrawlerDemoApp.java:130-132 | a text without a token of three characters gives an empty map |
| Words.PieceTally | src/main/java/ru/aermakov/CrawlerDemoApp.java:128-133 | a single piece of word characters counts nothing when shorter than three, else once as its lower-cased self |
| Words.MergeValid | src/main/java/ru/aermakov/CrawlerDemoApp.java:175 | merging two valid maps keeps every key countable and every count positive |
| Address.SplitAuthority | src/main/java/ru/aermakov/CrawlerDemoApp.java:153 | the authority holds no `/`, `?` or `#`; text without a leading `//`, or with four slashes (a UNC name), has no authority; otherwise `//`, the authority and the rest rebuild the text, and the rest starts at a `/`, `?` or `#` |
| Address.HostOf | src/main/java/ru/aermakov/CrawlerDemoApp.java:153-155 | `getHost`: a host holds no `@` or `:`; a malformed result needs a `:` in the authority |
| Address.HostOfTwoAts | src/main/java/ru/aermakov/CrawlerDemoApp.java:153-155 | an authority with two `@` has the empty host, whatever follows |
| Address.HostOfPort | src/main/java/ru/aermakov/CrawlerDemoApp.java:153-155 | `host:port` has host `host` when the port is accepted, and is malformed otherwise |
| Address.HostOfUserPort | src/main/java/ru/aermakov/CrawlerDemoApp.java:153-155 | `user@host:port` has host `host` when the port is accepted, and is malformed otherwise |
| Address.HostOfSkipUser | src/main/java/ru/aermakov/CrawlerDemoApp.java:153-155 | user info before a single `@` does not change the host |
| Address.TwoAtsHost | src/main/java/ru/aermakov/CrawlerDemoApp.java:153-155 | `a@b@c:x` has the empty host, and its bad port is never read |
| Address.PortsAccepted | src/main/java/ru/aermakov/CrawlerDemoApp.java:153 | an empty port, `80`, `+80` and `-1` are accepted |
| Address.PortsRejected | src/main/java/ru/aermakov/CrawlerDemoApp.java:153 | `-2`, a bare `+`, `99999999999` and `8a` make the URL malformed |
| Address.ParseHierarchical | src/main/java/ru/aermakov/CrawlerDemoApp.java:153 | a parsed URL is well formed and carries the given protocol; parsing fails exactly when the host does |
| Address.ParseMailto | src/main/java/ru/aermakov/CrawlerDemoApp.java:153 | the mailto handler: it fails exactly when the text before the fragment is all white space; otherwise the result is a well-formed mailto URL whose path and query spell that text |
| Address.ParseAfter | src/main/java/ru/aermakov/CrawlerDemoApp.java:153 | the protocol's handler reads the rest; a result is well formed and carries that protocol |
| Address.ParseUrl | src/main/java/ru/aermakov/CrawlerDemoApp.java:153 | `new URL(href)`, after trimming and skipping a leading `url:`: a result needs a `:` in the text and is well formed |
| Address.ParseRender | src/main/java/ru/aermakov/CrawlerDemoApp.java:153 | parsing the spelling of a renderable URL gives that URL back |
| Address.UrlPrefixSkipped | src/main/java/ru/aermakov/CrawlerDemoApp.java:153 | `url:` in front of a spelling is skipped before the protocol is read |
| Address.UrlPrefixOf | src/main/java/ru/aermakov/CrawlerDemoApp.java:153 | the same for `url:` in any mix of cases |
| Address.MailtoEmpty | src/main/java/ru/aermakov/CrawlerDemoApp.java:153 | `mailto:` with no address is a malformed URL |
| Address.MailtoSlashes | src/main/java/ru/aermakov/CrawlerDemoApp.java:153 | `mailto://x/y` has no authority and the empty host; `//x/y` is its address |
| Address.UncName | src/main/java/ru/aermakov/CrawlerDemoApp.java:153 | `file:////srv/x` has no authority and keeps all four slashes in its path |
| Address.UncParse | src/main/java/ru/aermakov/CrawlerDemoApp.java:153 | a spelling whose text after the protocol starts with four slashes parses to a URL with no authority and that whole text as its path |
| Address.SchemePrefix | src/main/java/ru/aermakov/CrawlerDemoApp.java:153 | a known lower-case scheme and its `:` are read off the front of a spelling |
| Address.RelativeIsBad | src/main/java/ru/aermakov/CrawlerDemoApp.java:153 | an href without a scheme, like `page.html`, is a malformed URL |
| Address.Domain | src/main/java/ru/aermakov/CrawlerDemoApp.java:97-103 | with an authority the domain is `protocol://authority`; the domain is missing (the constructor throws) exactly when there is no authority and no `/` in the path |
| Address.DomainOfPath | src/main/java/ru/aermakov/CrawlerDemoApp.java:99-102 | without an authority, the domain is the protocol, `:`, and the path up to its last `/` |
| Address.Normalize | src/main/java/ru/aermakov/CrawlerDemoApp.java:145-151 | an href is dropped exactly when it is empty or starts with `#`; otherwise the prefixed href ends with the original href |
| Address.NormalizeCases | src/main/java/ru/aermakov/CrawlerDemoApp.java:145-151 | the three prefixing rules spelled out by example, with `//x` tested first: `//x` gets the page's protocol and `:`, a single `/x` gets the domain, and any other kept href is unchanged |
| Address.ExtractFileExt | src/main/java/ru/aermakov/CrawlerDemoApp.java:213-223 | there is no extension (the call throws) exactly when the href holds no `/` |
| Address.FileNameParts | src/main/java/ru/aermakov/CrawlerDemoApp.java:215-218 | the `.`-pieces of a file name are those of the name without its trailing dots; the last piece follows the last inner `.` |
| Address.ExtractFileExtSpec | src/main/java/ru/aermakov/CrawlerDemoApp.java:213-223 | no `.` after the last `/` gives `""`; otherwise a non-empty, dot-free piece that starts the file name or follows a `.`, with only dots after it |
| Address.ExtractFileExtOf | src/main/java/ru/aermakov/CrawlerDemoApp.java:213-223 | an href ending in `/base.e`, with `e` free of dots, has extension `e` (`.../img.jpg` gives `jpg`) |
| Address.LastPiece | src/main/java/ru/aermakov/CrawlerDemoApp.java:217-218 | the only extension of `name.e`, for a dot-free `e`, is `e` |
| Crawler.NewTask | src/main/java/ru/aermakov/CrawlerDemoApp.java:94-104 | a task exists exactly when the address has a domain; it has that address, depth and domain |
| Crawler.Classify | src/main/java/ru/aermakov/CrawlerDemoApp.java:144-154 | ignored exactly when empty or a fragment; malformed exactly when kept but not parsable; `NoSlash` (the throw that ends the loop) exactly when kept, parsable and `extractFileExt` of the prefixed href throws; a target resolves to its address, its extension is `extractFileExt` of the prefixed href, and its subtask has that address, one level deeper |
| Crawler.ClassifyAll | src/main/java/ru/aermakov/CrawlerDemoApp.java:143-144 | one link per href, every target's subtask fitting its address |
| Crawler.ClassifyAllAt | src/main/java/ru/aermakov/CrawlerDemoApp.java:143-144 | the i-th link is the classification of the i-th href |
| Crawler.TargetsLinked | src/main/java/ru/aermakov/CrawlerDemoApp.java:143-153 | every target of a page's links is an address the web links to |
| Crawler.Decide | src/main/java/ru/aermakov/CrawlerDemoApp.java:155-164 | dropped exactly for ignored links, bad exactly for malformed ones; the visited set grows only by the link's own address on the parent's host; a spawn is a same-host child one level deeper, for an address not yet visited and not of a skipped extension, and adds exactly that address |
| Crawler.SpawnCondition | src/main/java/ru/aermakov/CrawlerDemoApp.java:152-164 | a child is spawned exactly when the href is kept, parses, has a `/`, is on the task's host, was not yet visited, has no skipped extension and has a domain |
| Crawler.ClaimOrder | src/main/java/ru/aermakov/CrawlerDemoApp.java:155-157 | a same-host, unvisited link with a skipped extension is claimed but skipped; another host's link or a visited one is skipped and claims nothing |
| Crawler.KeptCounted | src/main/java/ru/aermakov/CrawlerDemoApp.java:145-146 | the links the loop keeps are exactly the hrefs that are neither empty nor fragments |
| Crawler.ScanLinks | src/main/java/ru/aermakov/CrawlerDemoApp.java:142-168 | the visited set grows only by same-host targets; every child is same-host, one level deeper and claimed by this loop; no address spawns twice; without an exception, spawned + skipped + bad = kept links |
| Crawler.ScanShrinks | src/main/java/ru/aermakov/CrawlerDemoApp.java:155-161 | the loop claims only linked addresses, and its children are distinct fresh claims |
| Crawler.PageTally | src/main/java/ru/aermakov/CrawlerDemoApp.java:119-136 | a page contributes a valid map |
| Crawler.SumTallies | src/main/java/ru/aermakov/CrawlerDemoApp.java:172-177 | the merged page maps of some tasks are a valid map |
| Crawler.SumTalliesConcat | src/main/java/ru/aermakov/CrawlerDemoApp.java:172-177 | the sum over two runs of tasks is the merge of their sums |
| Crawler.RunTask | src/main/java/ru/aermakov/CrawlerDemoApp.java:107-139 | `compute` only ever adds to the visited set |
| Crawler.RunPage | src/main/java/ru/aermakov/CrawlerDemoApp.java:127-161 | the tally and the link loop only ever add to the visited set |
| Crawler.RunLinks | src/main/java/ru/aermakov/CrawlerDemoApp.java:143-185 | the link loop and the children only ever add to the visited set |
| Crawler.RunMerge | src/main/java/ru/aermakov/CrawlerDemoApp.java:172-182 | the merge loop and the counter update only ever add to the visited set |
| Crawler.RunChildren | src/main/java/ru/aermakov/CrawlerDemoApp.java:172-179 | running the children one after another only ever adds to the visited set |
| Crawler.RunTaskLeaf | src/main/java/ru/aermakov/CrawlerDemoApp.java:119-139 | an unreachable or empty page, or a task at the depth limit, runs alone with its page's map and leaves the state as it was |
| Crawler.RunTaskEmpty | src/main/java/ru/aermakov/CrawlerDemoApp.java:119-125 | an unreachable or empty page gives an empty map, spawns nothing and changes no state |
| Crawler.CrawlDepthZero | src/main/java/ru/aermakov/CrawlerDemoApp.java:137-139 | with depth limit 0 only the root runs: its page's map, visited = {seed}, count 1 |
| Crawler.RunTaskClaims | src/main/java/ru/aermakov/CrawlerDemoApp.java:156-161 | the task runs first; no address runs twice; every other task that ran was claimed during this run |
| Crawler.RunLinksClaims | src/main/java/ru/aermakov/CrawlerDemoApp.java:156-179 | the tasks a link loop leads to are distinct and were all claimed during it |
| Crawler.RunChildrenClaims | src/main/java/ru/aermakov/CrawlerDemoApp.java:172-179 | distinct claimed children lead to distinct tasks, each a child or a claim made while they ran |
| Crawler.RunTaskCount | src/main/java/ru/aermakov/CrawlerDemoApp.java:181 | `processedCount` rises by one less than the number of tasks the run holds: every spawned task is counted once |
| Crawler.RunLinksCount | src/main/java/ru/aermakov/CrawlerDemoApp.java:181 | the counter rises by the number of tasks the children ran |
| Crawler.RunChildrenCount | src/main/java/ru/aermakov/CrawlerDemoApp.java:181 | the counter rises by the tasks run minus the children themselves, which their parent counts |
| Crawler.RunTaskDepth | src/main/java/ru/aermakov/CrawlerDemoApp.java:137-139 | from a task within the limit, no task that runs is deeper than the limit |
| Crawler.RunLinksDepth | src/main/java/ru/aermakov/CrawlerDemoApp.java:159 | below the limit, the tasks a link loop leads to are within it |
| Crawler.RunChildrenDepth | src/main/java/ru/aermakov/CrawlerDemoApp.java:159 | children within the limit lead only to tasks within it |
| Crawler.RunTaskSum | src/main/java/ru/aermakov/CrawlerDemoApp.java:172-177 | a task's map is the sum of the page maps of every task it ran |
| Crawler.RunLinksSum | src/main/java/ru/aermakov/CrawlerDemoApp.java:172-177 | the link loop's map is the task's own map merged with the sum of the page maps of the tasks it ran |
| Crawler.RunChildrenSum | src/main/java/ru/aermakov/CrawlerDemoApp.java:172-177 | the merge loop's map is its start map merged with the sum of the page maps of the tasks run |
| Crawler.RunTaskLinked | src/main/java/ru/aermakov/CrawlerDemoApp.java:153-156 | a run claims only addresses some page links to |
| Crawler.RunLinksLinked | src/main/java/ru/aermakov/CrawlerDemoApp.java:153-156 | a link loop claims only linked addresses |
| Crawler.RunChildrenLinked | src/main/java/ru/aermakov/CrawlerDemoApp.java:172-179 | the children claim only linked addresses |
| Crawler.Crawl | src/main/java/ru/aermakov/CrawlerDemoApp.java:79-84 | no outcome exactly when the seed has no domain; otherwise the root runs first at depth 0; `processedCount` is the number of tasks run; no address runs twice; all were visited; visited is the seed plus linked addresses; no task is deeper than a non-negative limit; the map is the sum of the page maps of the tasks run, and is valid |
| Scenario.Tally0 | src/main/java/ru/aermakov/CrawlerDemoApp.java:127-136 | the first page's text counts `word2` twice and `abc` and `word3` once; `wd` is too short and `&&&` is separators |
| Scenario.Tally1 | src/main/java/ru/aermakov/CrawlerDemoApp.java:127-136 | the second page's text counts `word2` twice and `abcd` and `word4` once |
| Scenario.ClassifyFile | src/main/java/ru/aermakov/CrawlerDemoApp.java:149-159 | a root-relative link on a file page becomes a file address in the same directory, extension `html`, with a subtask one level deeper |
| Scenario.ClassifyHttp | src/main/java/ru/aermakov/CrawlerDemoApp.java:152-159 | an absolute `http` link is kept unchanged and classified as a target with extension `html` |
| Scenario.Classified0 | src/main/java/ru/aermakov/CrawlerDemoApp.java:143-154 | the first page's three hrefs classify as a fragment, the second page and the other host's page |
| Scenario.Classified1 | src/main/java/ru/aermakov/CrawlerDemoApp.java:143-154 | the second page's link back classifies as the first page |
| Scenario.Scan0 | src/main/java/ru/aermakov/CrawlerDemoApp.java:143-168 | the first page's loop drops the fragment, spawns the second page, skips the other host and claims only the second page |
| Scenario.Scan1 | src/main/java/ru/aermakov/CrawlerDemoApp.java:155-164 | the second page's link back is skipped because the first page is already visited |
| Scenario.RunQuiet | src/main/java/ru/aermakov/CrawlerDemoApp.java:107-182 | a page whose loop spawns nothing runs alone with its own tally and leaves the state as it was |
| Scenario.RunOneChild | src/main/java/ru/aermakov/CrawlerDemoApp.java:107-182 | a page whose loop spawns one child gets its tally merged with the child's map, and the counter rises by one |
| Scenario.RunSub | src/main/java/ru/aermakov/CrawlerDemoApp.java:107-182 | the second page's task runs alone with its own tally |
| Scenario.RunRoot | src/main/java/ru/aermakov/CrawlerDemoApp.java:107-182 | the root's run merges both pages' maps, visits both pages, counts 2 and runs root then child |
| Scenario.CrawlSite | src/main/java/ru/aermakov/CrawlerDemoApp.java:79-84 | `crawl` on the little web at the default depth limit gives the merged tallies, both pages visited, count 2 |
| Scenario.CrawlOutcome | src/test/java/ru/aermakov/CrawlerDemoAppTest.java:14-29 | the whole outcome: `word2` 4, `abc`, `abcd`, `word3` and `word4` 1, both pages visited, count 2 |
| Scenario.CrawlTest | src/test/java/ru/aermakov/CrawlerDemoAppTest.java:12-29 | the test's assertions: 2 visited, 2 processed, no `word1` or `&&&`, `word2` 4, and the four other words 1 each |
| Scenario.Apart | src/test/java/ru/aermakov/CrawlerDemoAppTest.java:15 | the two pages and the other host's page are three different addresses |
| Scenario.ResourceSite | src/test/java/ru/aermakov/CrawlerDemoAppTest.java:13 | a resource directory holding `in0` and `in1` is a valid little web |

## Left out

- Fetching and parsing (`url.openStream`, `Jsoup.parse`, `doc.body().text()`, `getElementsByTag("a")`) are I/O and a foreign parser. They become the `Web` map. A missing document, a missing body and an `IOException` are all `Unreachable`.
- `java.net.URL` is replaced by a structural datatype. It models the trimming, the `url:` prefix, the protocol rules, the generic handler's authority, user info, port check and UNC names, and the mailto handler. Left out are: IPv6 literals in brackets; `jar:`; port digits outside ASCII, which `Character.digit` accepts; and resolution of an href against a context URL, which the source never asks for.
- Visited-set equality (`urlsVisited.add` at CrawlerDemoApp.java line 156): the source's `URL.equals` and `hashCode` compare the host through DNS and without case, ignore user info, and compare the port as a number with the protocol's default filled in. The model compares whole parsed URLs instead. So `http://u@h/x` and `http://h/x`, or `http://h:80/x`, `http://h:080/x` and `http://h/x`, are one visited address in the source and several here. A page that links two such spellings spawns one task in the source and one per spelling in the model, and each extra task raises `processedCount` and prefixes its links with its own domain string (`http://u@h`). Name resolution cannot be modelled without the network.
- Unicode case mapping: `toLowerCase` is modelled on ASCII only.
- `ForkJoinPool`, `fork`, `join`, `Collections.synchronizedSet` and `AtomicInteger` are not modelled. The model runs one sequential schedule with a plain set and a plain counter. Which addresses get expanded under the depth limit can depend on claim order, so no schedule-independence of the visited set is claimed.
- RunLinks: when the link loop throws (an href without `/`, or a subtask whose constructor throws), the model drops the children already claimed. In the source they were already forked, so they still run, claim addresses and bump the counter, though their maps are never joined.
- The static `urlsVisited`, `processedCount` and `maxDepth` start fresh for every crawl. In the source they persist across calls in one process.
- `main` is thin CLI plumbing and is not modelled: the argument check, `Integer.parseInt` with its fallback to `MAX_DEPTH_DEFAULT`, and the top-100 sort and printing. So is `timeLog`, and so is all progress and timing output.
- Integer overflow of the counts and of `processedCount` is not modelled; counts are unbounded naturals.
- `token.trim()` is not applied in the tally: a token of word characters holds no blank, so trimming it changes nothing.
- The test's `in0.html` and `in1.html` are not part of this model. The scenario uses its own two pages whose text yields the counts the test asserts: the first page links to a fragment, to the second page and to a page on another host, and the second page links back.
