/** The GitHub side of the pipeline: request headers, the rate-limit and
    region preflights, branch and tree lookups, and the choice of the most
    recently updated repository among several hits. */
module GitHub {
  import opened Wrappers
  import opened Strings

  /** An HTTP header dict, in insertion order. */
  type Headers = seq<(string, string)>

  const BearerPrefix: string := "Bearer "

  /** `get_github_headers`: an `Authorization` header exactly when a token
      is configured. */
  function GithubHeaders(token: string): (h: Headers)
    ensures h == [] <==> token == []
    ensures h != [] ==> |h| == 1 && h[0].0 == "Authorization" && h[0].1 == BearerPrefix + token
  {
    if token == [] then [] else [("Authorization", BearerPrefix + token)]
  }

  /** The token a header dict carries, `""` when there is none. */
  function TokenOf(h: Headers): string
  {
    if h != [] && h[0].0 == "Authorization" && StartsWith(h[0].1, BearerPrefix) then h[0].1[|BearerPrefix|..] else []
  }

  /** The headers carry the configured token and nothing else. */
  lemma HeadersCarryToken(token: string)
    ensures TokenOf(GithubHeaders(token)) == token
  {
    if token != [] {
      var v := BearerPrefix + token;
      assert v[..|BearerPrefix|] == BearerPrefix;
      assert v[|BearerPrefix|..] == token;
    }
  }

  // ---------------------------------------------------------------
  // Preflights.

  /** The rate-limit query: a failed request (HTTP error, connection error,
      unexpected body), or the `resources.core.remaining` value of the
      body, `None` when any level of it is missing. */
  datatype RateProbe = RateRequestFailed | RateBody(remaining: Option<int>)

  /** The verdict of `check_github_api_rate_limit`.  A missing count reads
      as 0.  When it is 0 the function fails on an undefined name while
      formatting the reset time; that error is caught and gives `False`,
      which is what the source returns for 0 in any case.  The ensures spell
      out this rule case by case. */
  function RateVerdict(p: RateProbe): (proceed: bool)
    ensures proceed <==> p.RateBody? && p.remaining.Some? && p.remaining.value != 0
  {
    match p
    case RateRequestFailed => false
    case RateBody(remaining) =>
      var n := match remaining case Some(v) => v case None => 0;
      n != 0
  }

  /** The region query: it failed, or its body's `flag`, read for truthiness. */
  datatype RegionProbe = RegionProbeFailed | RegionFlag(flag: bool)

  /** `checkcn`: `IS_CN` is `'no'` only when the probe answered with a false
      flag; a failed probe defaults to the mainland mirrors. */
  function IsCn(p: RegionProbe): (cn: bool)
    ensures !cn <==> p == RegionFlag(false)
  {
    match p
    case RegionProbeFailed => true
    case RegionFlag(flag) => flag
  }

  // ---------------------------------------------------------------
  // Branch and tree lookups.

  /** The fields read from a branch's JSON: `commit.sha`,
      `commit.commit.tree.url` and `commit.commit.author.date`. */
  datatype CommitInfo = CommitInfo(sha: string, treeUrl: string, date: string)

  /** A branch JSON body; `commit` is `None` when the key is absent. */
  datatype BranchInfo = BranchInfo(commit: Option<CommitInfo>)

  datatype TreeEntry = TreeEntry(path: string)

  /** A tree JSON body; `tree` is `None` when the key is absent. */
  datatype TreeInfo = TreeInfo(tree: Option<seq<TreeEntry>>)

  /** One search result: `{'repo', 'sha', 'tree', 'update_date'}`. */
  datatype Hit = Hit(repo: string, sha: string, tree: seq<TreeEntry>, updateDate: string)

  function BranchUrl(repo: string, appId: string): string
  {
    "https://api.github.com/repos/" + repo + "/branches/" + appId
  }

  /** The hit one repository yields: both lookups answered and the tree
      body has a `tree` key.  `branch` and `tree` are the answers of
      `fetch_branch_info` (`None` on any failure).  The ensures spell out the
      definition, so that callers need not unfold the nested lookups. */
  function HitFor(branch: (string, Headers) -> Option<BranchInfo>, tree: (string, Headers) -> Option<TreeInfo>,
                  headers: Headers, appId: string, repo: string): (r: Option<Hit>)
    ensures r.Some? <==>
      && branch(BranchUrl(repo, appId), headers).Some?
      && branch(BranchUrl(repo, appId), headers).value.commit.Some?
      && tree(branch(BranchUrl(repo, appId), headers).value.commit.value.treeUrl, headers).Some?
      && tree(branch(BranchUrl(repo, appId), headers).value.commit.value.treeUrl, headers).value.tree.Some?
    ensures r.Some? ==>
      var c := branch(BranchUrl(repo, appId), headers).value.commit.value;
      r.value == Hit(repo, c.sha, tree(c.treeUrl, headers).value.tree.value, c.date)
  {
    match branch(BranchUrl(repo, appId), headers)
    case None => None
    case Some(b) =>
      match b.commit
      case None => None
      case Some(c) =>
        match tree(c.treeUrl, headers)
        case None => None
        case Some(t) =>
          match t.tree
          case None => None
          case Some(entries) => Some(Hit(repo, c.sha, entries, c.date))
  }

  /** The hits of the repositories in order. */
  function Hits(branch: (string, Headers) -> Option<BranchInfo>, tree: (string, Headers) -> Option<TreeInfo>,
                headers: Headers, appId: string, repos: seq<string>): seq<Hit>
  {
    if repos == [] then []
    else
      var earlier := Hits(branch, tree, headers, appId, repos[..|repos| - 1]);
      match HitFor(branch, tree, headers, appId, repos[|repos| - 1])
      case None => earlier
      case Some(h) => earlier + [h]
  }

  /** The hits name their repositories in the order of `repos`. */
  predicate InRepoOrder(hs: seq<Hit>, repos: seq<string>)
  {
    forall i, j :: 0 <= i < j < |hs| ==> OrderedPair(hs, repos, i, j)
  }

  /** `hs[i]` and `hs[j]` come from repositories `repos[a]` and `repos[b]`
      with `a < b`. */
  predicate OrderedPair(hs: seq<Hit>, repos: seq<string>, i: int, j: int)
    requires 0 <= i < j < |hs|
  {
    exists a, b :: 0 <= a < b < |repos| && hs[i].repo == repos[a] && hs[j].repo == repos[b]
  }

  /** Searching one more repository that yields no hit keeps the order. */
  lemma InRepoOrderWiden(hs: seq<Hit>, rs: seq<string>, r: string)
    requires InRepoOrder(hs, rs)
    ensures InRepoOrder(hs, rs + [r])
  {
    var repos := rs + [r];
    forall i, j | 0 <= i < j < |hs|
      ensures OrderedPair(hs, repos, i, j)
    {
      assert OrderedPair(hs, rs, i, j);
      var a, b :| 0 <= a < b < |rs| && hs[i].repo == rs[a] && hs[j].repo == rs[b];
      assert repos[a] == rs[a] && repos[b] == rs[b];
    }
  }

  /** Searching one more repository whose hit is added at the end keeps
      the order. */
  lemma InRepoOrderSnoc(hs: seq<Hit>, rs: seq<string>, h: Hit)
    requires InRepoOrder(hs, rs) && forall e :: e in hs ==> e.repo in rs
    ensures InRepoOrder(hs + [h], rs + [h.repo])
  {
    var repos := rs + [h.repo];
    var hs' := hs + [h];
    forall i, j | 0 <= i < j < |hs'|
      ensures OrderedPair(hs', repos, i, j)
    {
      if j < |hs| {
        assert OrderedPair(hs, rs, i, j);
        var a, b :| 0 <= a < b < |rs| && hs[i].repo == rs[a] && hs[j].repo == rs[b];
        assert repos[a] == rs[a] && repos[b] == rs[b];
      } else {
        assert hs'[i] == hs[i] && hs[i] in hs;
        var a :| 0 <= a < |rs| && rs[a] == hs[i].repo;
        assert repos[a] == rs[a] && hs'[j].repo == repos[|rs|];
      }
    }
  }

  /** Every repository with a hit contributes exactly that hit, every
      recorded hit is the hit of one of the repositories searched, and the
      hits come in the order of those repositories. */
  lemma {:induction false} HitsSpec(branch: (string, Headers) -> Option<BranchInfo>, tree: (string, Headers) -> Option<TreeInfo>,
                                    headers: Headers, appId: string, repos: seq<string>)
    ensures var hs := Hits(branch, tree, headers, appId, repos);
      && |hs| <= |repos|
      && (forall r :: r in repos && HitFor(branch, tree, headers, appId, r).Some? ==>
            HitFor(branch, tree, headers, appId, r).value in hs)
      && (forall h :: h in hs ==> h.repo in repos && HitFor(branch, tree, headers, appId, h.repo) == Some(h))
      && InRepoOrder(hs, repos)
  {
    if repos != [] {
      var rs := repos[..|repos| - 1];
      var last := repos[|repos| - 1];
      HitsSpec(branch, tree, headers, appId, rs);
      assert repos == rs + [last];
      var earlier := Hits(branch, tree, headers, appId, rs);
      match HitFor(branch, tree, headers, appId, last)
      case None =>
        InRepoOrderWiden(earlier, rs, last);
      case Some(h) =>
        InRepoOrderSnoc(earlier, rs, h);
    }
  }

  // ---------------------------------------------------------------
  // Python's ordering of strings, by code point with a prefix first.

  predicate LexLt(a: string, b: string)
  {
    if a == [] then b != []
    else if b == [] then false
    else if a[0] != b[0] then a[0] < b[0]
    else LexLt(a[1..], b[1..])
  }

  lemma {:induction false} LexLtIrreflexive(a: string)
    ensures !LexLt(a, a)
  {
    if a != [] { LexLtIrreflexive(a[1..]); }
  }

  lemma {:induction false} LexLtTransitive(a: string, b: string, c: string)
    requires LexLt(a, b) && LexLt(b, c)
    ensures LexLt(a, c)
  {
    if a != [] && a[0] == b[0] && b[0] == c[0] {
      LexLtTransitive(a[1..], b[1..], c[1..]);
    }
  }

  lemma {:induction false} LexLtTotal(a: string, b: string)
    ensures a == b || LexLt(a, b) || LexLt(b, a)
  {
    if a != [] && b != [] && a[0] == b[0] {
      LexLtTotal(a[1..], b[1..]);
      if a[1..] == b[1..] {
        assert a == [a[0]] + a[1..] && b == [b[0]] + b[1..];
      }
    }
  }

  lemma {:induction false} LexLtAsymmetric(a: string, b: string)
    ensures !(LexLt(a, b) && LexLt(b, a))
  {
    if LexLt(a, b) && LexLt(b, a) {
      LexLtTransitive(a, b, a);
      LexLtIrreflexive(a);
    }
  }

  /** "Not older than": `b.update_date <= a.update_date`. */
  predicate NotOlder(a: Hit, b: Hit) { !LexLt(a.updateDate, b.updateDate) }

  lemma NotOlderTransitive(a: Hit, b: Hit, c: Hit)
    requires NotOlder(a, b) && NotOlder(b, c)
    ensures NotOlder(a, c)
  {
    var x, y, z := a.updateDate, b.updateDate, c.updateDate;
    LexLtTotal(x, y);
    LexLtTotal(y, z);
    if LexLt(x, z) {
      if x == y {
      } else if y == z {
      } else {
        LexLtTransitive(z, y, x);
        LexLtAsymmetric(x, z);
      }
    }
  }

  lemma NotOlderTotal(a: Hit, b: Hit)
    ensures NotOlder(a, b) || NotOlder(b, a)
  {
    LexLtAsymmetric(a.updateDate, b.updateDate);
  }

  // ---------------------------------------------------------------
  // `repo_results.sort(key=update_date, reverse=True)`: stable, so hits
  // of equal date keep their registration order.

  predicate NewestFirstOrder(hs: seq<Hit>)
  {
    forall i, j :: 0 <= i < j < |hs| ==> NotOlder(hs[i], hs[j])
  }

  /** Places `x`, which precedes every element of `ys` in the input, before
      the first element that is not newer than it. */
  function Insert(x: Hit, ys: seq<Hit>): seq<Hit>
  {
    if ys == [] || NotOlder(x, ys[0]) then [x] + ys
    else [ys[0]] + Insert(x, ys[1..])
  }

  function NewestFirst(hs: seq<Hit>): seq<Hit>
  {
    if hs == [] then [] else Insert(hs[0], NewestFirst(hs[1..]))
  }

  lemma {:induction false} InsertMembers(x: Hit, ys: seq<Hit>)
    ensures multiset(Insert(x, ys)) == multiset([x] + ys)
    ensures forall e :: e in Insert(x, ys) <==> e == x || e in ys
  {
    if ys != [] && !NotOlder(x, ys[0]) {
      InsertMembers(x, ys[1..]);
      assert ys == [ys[0]] + ys[1..];
    }
  }

  /** In newest-first order the head is not older than anything after it. */
  lemma HeadNotOlder(ys: seq<Hit>)
    requires ys != [] && NewestFirstOrder(ys)
    ensures forall e :: e in ys[1..] ==> NotOlder(ys[0], e)
  {
    forall e | e in ys[1..] ensures NotOlder(ys[0], e) {
      var k :| 0 <= k < |ys[1..]| && ys[1..][k] == e;
      assert ys[k + 1] == e;
    }
  }

  lemma {:induction false} InsertSpec(x: Hit, ys: seq<Hit>)
    requires NewestFirstOrder(ys)
    ensures NewestFirstOrder(Insert(x, ys))
    ensures multiset(Insert(x, ys)) == multiset([x] + ys)
    ensures |Insert(x, ys)| == |ys| + 1
  {
    InsertMembers(x, ys);
    assert |multiset(Insert(x, ys))| == |multiset([x] + ys)|;
    if ys == [] || NotOlder(x, ys[0]) {
      var r := [x] + ys;
      forall i, j | 0 <= i < j < |r| ensures NotOlder(r[i], r[j]) {
        if i == 0 && j > 1 {
          NotOlderTransitive(x, ys[0], ys[j - 1]);
        }
      }
    } else {
      var rest := ys[1..];
      InsertSpec(x, rest);
      InsertMembers(x, rest);
      HeadNotOlder(ys);
      NotOlderTotal(x, ys[0]);
      var ins := Insert(x, rest);
      var r := [ys[0]] + ins;
      forall i, j | 0 <= i < j < |r| ensures NotOlder(r[i], r[j]) {
        if i == 0 {
          assert r[j] == ins[j - 1] && ins[j - 1] in ins;
        }
      }
    }
  }

  /** The sorted hits are newest first and are the hits, rearranged. */
  lemma {:induction false} NewestFirstSpec(hs: seq<Hit>)
    ensures NewestFirstOrder(NewestFirst(hs))
    ensures multiset(NewestFirst(hs)) == multiset(hs)
    ensures |NewestFirst(hs)| == |hs|
  {
    if hs != [] {
      NewestFirstSpec(hs[1..]);
      InsertSpec(hs[0], NewestFirst(hs[1..]));
      assert hs == [hs[0]] + hs[1..];
    }
  }

  /** Position of the first hit with the latest date. */
  function NewestIndex(hs: seq<Hit>): (k: nat)
    requires hs != []
    ensures k < |hs|
    ensures forall j :: 0 <= j < |hs| ==> NotOlder(hs[k], hs[j])
    ensures forall j :: 0 <= j < k ==> !NotOlder(hs[j], hs[k])
  {
    if |hs| == 1 then LexLtIrreflexive(hs[0].updateDate); 0
    else
      var k := NewestIndex(hs[1..]);
      if NotOlder(hs[0], hs[k + 1]) then
        NewestIsFirst(hs, k + 1); 0
      else
        NewerThanRest(hs, k + 1); k + 1
  }

  lemma NewestIsFirst(hs: seq<Hit>, m: nat)
    requires 0 < m < |hs| && NotOlder(hs[0], hs[m])
    requires forall j :: 1 <= j < |hs| ==> NotOlder(hs[m], hs[j])
    ensures forall j :: 0 <= j < |hs| ==> NotOlder(hs[0], hs[j])
  {
    forall j | 1 <= j < |hs| ensures NotOlder(hs[0], hs[j]) {
      NotOlderTransitive(hs[0], hs[m], hs[j]);
    }
    LexLtIrreflexive(hs[0].updateDate);
  }

  lemma NewerThanRest(hs: seq<Hit>, m: nat)
    requires 0 < m < |hs| && !NotOlder(hs[0], hs[m])
    requires forall j :: 1 <= j < |hs| ==> NotOlder(hs[m], hs[j])
    ensures forall j :: 0 <= j < |hs| ==> NotOlder(hs[m], hs[j])
  {
    NotOlderTotal(hs[0], hs[m]);
  }

  /** The hit chosen after the sort, `repo_results[0]`, is the first hit in
      registration order among those with the latest date. */
  lemma {:induction false} NewestFirstHead(hs: seq<Hit>)
    requires hs != []
    ensures NewestFirst(hs)[0] == hs[NewestIndex(hs)]
  {
    if |hs| > 1 {
      NewestFirstHead(hs[1..]);
      NewestFirstSpec(hs[1..]);
    }
  }
}
