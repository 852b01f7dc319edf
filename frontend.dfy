/** `CaiInstallGUI`: the batch typed into the entry, resolved to app ids;
    the choice between a fixed archive source, one GitHub repository and a
    search of all GitHub repositories; the processing of one app from a
    GitHub repository; and the file menu's reading of script names. */
module Frontend {
  import opened Wrappers
  import opened Strings
  import opened Seqs
  import opened AppIds
  import opened Scanners
  import opened GitHub
  import opened Install
  import opened Backend

  // ---------------------------------------------------------------
  // The batch of app ids.

  /** The entry's text as a list of items: `None` when it is blank,
      otherwise the pieces between commas, each stripped. */
  function ParseInput(raw: string): (items: Option<seq<string>>)
    ensures items.None? <==> Strip(raw) == []
    ensures items.Some? ==> |items.value| >= 1
  {
    var input := Strip(raw);
    if input == [] then None else Some(StripAll(Split(input, ',')))
  }

  function StripAll(parts: seq<string>): (items: seq<string>)
    ensures |items| == |parts|
    ensures forall i :: 0 <= i < |parts| ==> items[i] == Strip(parts[i])
  {
    seq(|parts|, i requires 0 <= i < |parts| => Strip(parts[i]))
  }

  /** Every item is free of commas and begins and ends with something
      other than whitespace. */
  lemma ParseInputItems(raw: string)
    ensures ParseInput(raw).Some? ==> forall i :: 0 <= i < |ParseInput(raw).value| ==>
      var item := ParseInput(raw).value[i];
      ',' !in item && (item == [] || (!IsSpace(item[0]) && !IsSpace(item[|item| - 1])))
  {
    if ParseInput(raw).Some? {
      var parts := Split(Strip(raw), ',');
      forall i | 0 <= i < |parts|
        ensures var item := Strip(parts[i]);
          ',' !in item && (item == [] || (!IsSpace(item[0]) && !IsSpace(item[|item| - 1])))
      {
        StripInfix(parts[i]);
        StripEnds(parts[i]);
      }
    }
  }

  /** A string that neither begins nor ends with whitespace strips to itself. */
  lemma StripNoop(s: string)
    requires s == [] || (!IsSpace(s[0]) && !IsSpace(s[|s| - 1]))
    ensures Strip(s) == s
  {
    assert LeadingSpaces(s) == 0;
    assert s[0..] == s;
    assert TrailingSpaces(s) == 0;
  }

  /** A join of non-empty pieces begins with the first piece's first
      character and ends with the last piece's last character. */
  lemma {:induction false} JoinEnds(parts: seq<string>, sep: char)
    requires |parts| >= 1 && forall i :: 0 <= i < |parts| ==> parts[i] != []
    ensures var j, last := Join(parts, sep), parts[|parts| - 1];
      j != [] && j[0] == parts[0][0] && j[|j| - 1] == last[|last| - 1]
  {
    if |parts| > 1 {
      JoinEnds(parts[1..], sep);
    }
  }

  /** A string of digits has no comma and strips to itself. */
  lemma DigitStringClean(x: string)
    requires IsDigitString(x)
    ensures ',' !in x && !IsSpace(x[0]) && !IsSpace(x[|x| - 1]) && Strip(x) == x
  {
    assert IsDigit(x[0]) && IsDigit(x[|x| - 1]);
    StripNoop(x);
  }

  /** Ids joined with commas strip to themselves. */
  lemma JoinedIdsStripped(ids: seq<string>)
    requires |ids| >= 1 && forall i :: 0 <= i < |ids| ==> IsDigitString(ids[i])
    ensures Join(ids, ',') != [] && Strip(Join(ids, ',')) == Join(ids, ',')
  {
    JoinEnds(ids, ',');
    DigitStringClean(ids[0]);
    DigitStringClean(ids[|ids| - 1]);
    StripNoop(Join(ids, ','));
  }

  /** Ids joined with commas split back into the ids, each stripped to itself. */
  lemma JoinedIdsSplit(ids: seq<string>)
    requires |ids| >= 1 && forall i :: 0 <= i < |ids| ==> IsDigitString(ids[i])
    ensures StripAll(Split(Join(ids, ','), ',')) == ids
  {
    forall i | 0 <= i < |ids| ensures ',' !in ids[i] && Strip(ids[i]) == ids[i] {
      DigitStringClean(ids[i]);
    }
    SplitJoin(ids, ',');
    assert StripAll(ids) == ids;
  }

  /** A batch of ids written with commas reads back as those ids. */
  lemma ParseJoin(ids: seq<string>)
    requires |ids| >= 1 && forall i :: 0 <= i < |ids| ==> IsDigitString(ids[i])
    ensures ParseInput(Join(ids, ',')) == Some(ids)
  {
    JoinedIdsStripped(ids);
    JoinedIdsSplit(ids);
  }

  /** The ids the items resolve to, in order; an item that resolves to
      nothing is dropped. */
  function Resolved(items: seq<string>): seq<string>
  {
    Filtered(items, ExtractAppId)
  }

  /** An id is resolved exactly when some item resolves to it, and it is a
      string of digits. */
  lemma ResolvedSpec(items: seq<string>)
    ensures forall i :: 0 <= i < |items| && ExtractAppId(items[i]).Some? ==> ExtractAppId(items[i]).value in Resolved(items)
    ensures forall x :: x in Resolved(items) ==>
      IsDigitString(x) && exists i :: 0 <= i < |items| && ExtractAppId(items[i]) == Some(x)
  {
    FilteredSpec(items, ExtractAppId);
    forall x | x in Resolved(items) ensures IsDigitString(x) {
      var i :| 0 <= i < |items| && ExtractAppId(items[i]) == Some(x);
      ExtractAppIdDigits(items[i]);
    }
  }

  /** `resolve_appids`: the items are resolved one after the other and the
      ids kept once each, at their first position. */
  method ResolveAppIds(items: seq<string>) returns (ids: seq<string>)
    ensures ids == Dedup(Resolved(items))
  {
    var resolved := [];
    for i := 0 to |items|
      invariant resolved == Resolved(items[..i])
    {
      assert items[..i + 1][..i] == items[..i];
      var id := ExtractAppId(items[i]);
      if id.Some? {
        resolved := resolved + [id.value];
      }
    }
    assert items[..|items|] == items;
    ids := Dedup(resolved);
  }

  /** The batch's ids are the ids some item resolves to, each once, in the
      order they are first resolved. */
  lemma BatchIds(items: seq<string>)
    ensures var ids := Dedup(Resolved(items));
      && NoDups(ids)
      && (forall x :: x in ids ==> x in Resolved(items))
      && (forall i :: 0 <= i < |items| && ExtractAppId(items[i]).Some? ==> ExtractAppId(items[i]).value in ids)
      && (forall x :: x in ids ==> IsDigitString(x) && exists i :: 0 <= i < |items| && ExtractAppId(items[i]) == Some(x))
      && (forall i, j :: 0 <= i < j < |ids| ==> FirstIndex(Resolved(items), ids[i]) < FirstIndex(Resolved(items), ids[j]))
  {
    ResolvedSpec(items);
    DedupElements(Resolved(items));
    DedupOrder(Resolved(items));
  }

  /** Bare ids resolve to themselves. */
  lemma {:induction false} ResolvedIds(ids: seq<string>)
    requires forall i :: 0 <= i < |ids| ==> IsDigitString(ids[i])
    ensures Resolved(ids) == ids
  {
    if ids != [] {
      var init := ids[..|ids| - 1];
      ResolvedIds(init);
      DigitStringResolvesToItself(ids[|ids| - 1]);
      assert init + [ids[|ids| - 1]] == ids;
    }
  }

  /** A repeated id is processed once: `a,a,b` (such as `1,1,2`) is the
      batch of `a` and `b`. */
  lemma RepeatedIdOnce(a: string, b: string)
    requires IsDigitString(a) && IsDigitString(b) && a != b
    ensures ParseInput(Join([a, a, b], ',')) == Some([a, a, b])
    ensures Dedup(Resolved([a, a, b])) == [a, b]
  {
    var items := [a, a, b];
    ParseJoin(items);
    ResolvedIds(items);
    assert Dedup([a]) == [a] by {
      assert [a][..0] == [];
    }
    assert Dedup([a, a]) == [a] by {
      assert [a, a][..1] == [a];
    }
    assert Dedup(items) == [a, b] by {
      assert items[..2] == [a, a];
      assert b !in [a];
    }
  }

  // ---------------------------------------------------------------
  // Sources.

  /** An entry of the source box: its name and its value. */
  datatype RepoOption = RepoOption(name: string, value: string)

  const RepoOptions: seq<RepoOption> := [
    RepoOption("SWA V2 (printedwaste)", "swa"),
    RepoOption("Cysaw", "cysaw"),
    RepoOption("Furcate", "furcate"),
    RepoOption("CNGS (assiw)", "cngs"),
    RepoOption("SteamDatabase", "steamdatabase"),
    RepoOption("GitHub - Auiowu/ManifestAutoUpdate", "Auiowu/ManifestAutoUpdate"),
    RepoOption("GitHub - SteamAutoCracks/ManifestHub", "SteamAutoCracks/ManifestHub")]

  /** The sources that serve one archive per app. */
  const ArchiveSources: seq<string> := ["swa", "cysaw", "furcate", "cngs", "steamdatabase"]

  /** Any other value names a GitHub repository. */
  predicate IsGithub(repoVal: string) { repoVal !in ArchiveSources }

  /** The archive URL of an app at an archive source; `None` for a GitHub
      repository. */
  function ArchiveUrl(repoVal: string, appId: string): (url: Option<string>)
    ensures url.Some? <==> !IsGithub(repoVal)
  {
    if repoVal == "swa" then Some("https://api.printedwaste.com/gfk/download/" + appId)
    else if repoVal == "cysaw" then Some("https://cysaw.top/uploads/" + appId + ".zip")
    else if repoVal == "furcate" then Some("https://furcate.eu/files/" + appId + ".zip")
    else if repoVal == "cngs" then Some("https://assiw.cngames.site/qindan/" + appId + ".zip")
    else if repoVal == "steamdatabase" then Some("https://steamdatabase.s3.eu-north-1.amazonaws.com/" + appId + ".zip")
    else None
  }

  /** The values of the entries that are GitHub repositories, in order. */
  function GithubValues(opts: seq<RepoOption>): seq<string>
  {
    if opts == [] then []
    else
      var rest := GithubValues(opts[1..]);
      if IsGithub(opts[0].value) then [opts[0].value] + rest else rest
  }

  /** Exactly the GitHub values of the entries are kept. */
  lemma {:induction false} GithubValuesSpec(opts: seq<RepoOption>)
    ensures forall r :: r in GithubValues(opts) <==> IsGithub(r) && exists i :: 0 <= i < |opts| && opts[i].value == r
  {
    if opts != [] {
      GithubValuesSpec(opts[1..]);
      assert forall i :: 1 <= i < |opts| ==> opts[1..][i - 1] == opts[i];
      forall r | IsGithub(r) && exists i :: 0 <= i < |opts| && opts[i].value == r
        ensures r in GithubValues(opts)
      {
        var i :| 0 <= i < |opts| && opts[i].value == r;
        if i > 0 {
          assert opts[1..][i - 1].value == r;
        }
      }
    }
  }

  function GithubRepos(): seq<string> { GithubValues(RepoOptions) }

  /** The search covers the two GitHub repositories, in the order of the box. */
  lemma GithubReposAre()
    ensures GithubRepos() == ["Auiowu/ManifestAutoUpdate", "SteamAutoCracks/ManifestHub"]
  {
    var opts := RepoOptions;
    assert "Auiowu/ManifestAutoUpdate" !in ArchiveSources;
    assert "SteamAutoCracks/ManifestHub" !in ArchiveSources;
    assert GithubValues(opts[6..]) == ["SteamAutoCracks/ManifestHub"] by {
      assert opts[6..][1..] == [];
    }
    assert GithubValues(opts[5..]) == ["Auiowu/ManifestAutoUpdate", "SteamAutoCracks/ManifestHub"] by {
      assert opts[5..][1..] == opts[6..];
    }
    assert GithubValues(opts[4..]) == GithubValues(opts[5..]) by { assert opts[4..][1..] == opts[5..]; }
    assert GithubValues(opts[3..]) == GithubValues(opts[4..]) by { assert opts[3..][1..] == opts[4..]; }
    assert GithubValues(opts[2..]) == GithubValues(opts[3..]) by { assert opts[2..][1..] == opts[3..]; }
    assert GithubValues(opts[1..]) == GithubValues(opts[2..]) by { assert opts[1..][1..] == opts[2..]; }
  }

  // ---------------------------------------------------------------
  // `process_github_repo`.

  /** The paths of the tree's `.manifest` entries, in tree order. */
  function ManifestPaths(tree: seq<TreeEntry>): seq<string>
  {
    if tree == [] then []
    else
      var earlier := ManifestPaths(tree[..|tree| - 1]);
      var p := tree[|tree| - 1].path;
      if EndsWith(p, ManifestSuffix) then earlier + [p] else earlier
  }

  /** The list the script is written from holds the path of every
      `.manifest` entry of the tree, downloaded or not, and nothing else. */
  lemma {:induction false} ManifestPathsSpec(tree: seq<TreeEntry>)
    ensures forall p :: p in ManifestPaths(tree) <==>
      EndsWith(p, ManifestSuffix) && exists i :: 0 <= i < |tree| && tree[i].path == p
  {
    if tree != [] {
      var init := tree[..|tree| - 1];
      ManifestPathsSpec(init);
      forall p ensures p in ManifestPaths(tree) <==> EndsWith(p, ManifestSuffix) && exists i :: 0 <= i < |tree| && tree[i].path == p {
        if p in ManifestPaths(init) {
          var i :| 0 <= i < |init| && init[i].path == p;
          assert tree[i].path == p;
        }
        if EndsWith(p, ManifestSuffix) && exists i :: 0 <= i < |tree| && tree[i].path == p {
          var i :| 0 <= i < |tree| && tree[i].path == p;
          if i < |init| {
            assert init[i].path == p;
          }
        }
      }
    }
  }

  /** The results of the per-file tasks, in tree order, and the files once
      all of them ran. */
  datatype TasksRun = TasksRun(results: seq<Result<seq<(string, string)>, TaskError>>, files: Files)

  /** All tasks of `gather`, one after the other, each finding the files the
      previous ones left; every task runs, whatever the others return. */
  function RunTasks(m: Mode, files: Files, net: Network, codecs: Codecs, isCn: bool, sha: string,
                    repo: string, appId: string, allManifests: seq<string>, entries: seq<TreeEntry>): (run: TasksRun)
    ensures |run.results| == |entries|
  {
    if entries == [] then TasksRun([], files)
    else
      var prev := RunTasks(m, files, net, codecs, isCn, sha, repo, appId, allManifests, entries[..|entries| - 1]);
      var t := ManifestTask(m, prev.files, net, codecs, isCn, sha, entries[|entries| - 1].path, repo, appId, allManifests);
      TasksRun(prev.results + [t.result], t.files)
  }

  /** A task's result does not depend on the files it finds. */
  lemma ManifestTaskResult(m: Mode, files: Files, files': Files, net: Network, codecs: Codecs, isCn: bool,
                           sha: string, path: string, repo: string, appId: string, allManifests: seq<string>)
    ensures ManifestTask(m, files, net, codecs, isCn, sha, path, repo, appId, allManifests).result ==
            ManifestTask(m, files', net, codecs, isCn, sha, path, repo, appId, allManifests).result
  {
  }

  /** All tasks of the first `i + 1` entries: those of the first `i`, then
      the next task on the files they left. */
  lemma RunTasksSnoc(m: Mode, files: Files, net: Network, codecs: Codecs, isCn: bool, sha: string,
                     repo: string, appId: string, allManifests: seq<string>, entries: seq<TreeEntry>, i: nat)
    requires i < |entries|
    ensures var prev := RunTasks(m, files, net, codecs, isCn, sha, repo, appId, allManifests, entries[..i]);
      var t := ManifestTask(m, prev.files, net, codecs, isCn, sha, entries[i].path, repo, appId, allManifests);
      RunTasks(m, files, net, codecs, isCn, sha, repo, appId, allManifests, entries[..i + 1]) ==
      TasksRun(prev.results + [t.result], t.files)
  {
    assert entries[..i + 1][..i] == entries[..i];
  }

  /** Each result is the one its task has on its own, so the results do not
      depend on the order in which the concurrent tasks run. */
  lemma RunTasksResults(m: Mode, files: Files, net: Network, codecs: Codecs, isCn: bool, sha: string,
                         repo: string, appId: string, allManifests: seq<string>, entries: seq<TreeEntry>)
    ensures forall i :: 0 <= i < |entries| ==>
      RunTasks(m, files, net, codecs, isCn, sha, repo, appId, allManifests, entries).results[i] ==
      ManifestTask(m, files, net, codecs, isCn, sha, entries[i].path, repo, appId, allManifests).result
  {
    forall i | 0 <= i < |entries|
      ensures RunTasks(m, files, net, codecs, isCn, sha, repo, appId, allManifests, entries).results[i] ==
              ManifestTask(m, files, net, codecs, isCn, sha, entries[i].path, repo, appId, allManifests).result
    {
      RunTasksResultAt(m, files, net, codecs, isCn, sha, repo, appId, allManifests, entries, i);
    }
  }

  /** The result of task `i` alone. */
  lemma {:induction false} RunTasksResultAt(m: Mode, files: Files, net: Network, codecs: Codecs, isCn: bool, sha: string,
                                            repo: string, appId: string, allManifests: seq<string>, entries: seq<TreeEntry>, i: nat)
    requires i < |entries|
    ensures RunTasks(m, files, net, codecs, isCn, sha, repo, appId, allManifests, entries).results[i] ==
            ManifestTask(m, files, net, codecs, isCn, sha, entries[i].path, repo, appId, allManifests).result
  {
    var last := |entries| - 1;
    var init := entries[..last];
    RunTasksSnoc(m, files, net, codecs, isCn, sha, repo, appId, allManifests, entries, last);
    assert entries[..last + 1] == entries;
    var prev := RunTasks(m, files, net, codecs, isCn, sha, repo, appId, allManifests, init);
    if i == last {
      ManifestTaskResult(m, prev.files, files, net, codecs, isCn, sha, entries[last].path, repo, appId, allManifests);
    } else {
      RunTasksResultAt(m, files, net, codecs, isCn, sha, repo, appId, allManifests, init, i);
      assert init[i] == entries[i];
    }
  }

  /** The loop over all tasks' results: `None` at the first failed task,
      otherwise the depot lists concatenated in tree order. */
  function Aggregate(results: seq<Result<seq<(string, string)>, TaskError>>): Option<seq<(string, string)>>
  {
    if results == [] then Some([])
    else
      match Aggregate(results[..|results| - 1])
      case None => None
      case Some(c) =>
        (match results[|results| - 1]
         case Err(_) => None
         case Ok(ds) => Some(c + ds))
  }

  /** The results aggregate exactly when no task failed, and then to the
      pairs some task returned. */
  lemma {:induction false} AggregateSpec(results: seq<Result<seq<(string, string)>, TaskError>>)
    ensures Aggregate(results).None? <==> exists i :: 0 <= i < |results| && results[i].Err?
    ensures Aggregate(results).Some? ==> forall p :: p in Aggregate(results).value <==>
      exists i :: 0 <= i < |results| && results[i].Ok? && p in results[i].value
  {
    if results != [] {
      var init := results[..|results| - 1];
      var last := |results| - 1;
      AggregateSpec(init);
      assert forall i :: 0 <= i < |init| ==> init[i] == results[i];
      if Aggregate(results).Some? {
        forall p ensures p in Aggregate(results).value <==> exists i :: 0 <= i < |results| && results[i].Ok? && p in results[i].value {
          if exists i :: 0 <= i < |results| && results[i].Ok? && p in results[i].value {
            var i :| 0 <= i < |results| && results[i].Ok? && p in results[i].value;
            if i < last {
              assert init[i].Ok? && p in init[i].value;
            }
          }
        }
      }
    }
  }

  /** The commit and tree a repository is processed from: the search hit
      when one is given, otherwise the branch and tree lookups. */
  function RepoTree(net: Network, headers: Headers, appId: string, repo: string, existing: Option<Hit>): Option<Hit>
  {
    match existing
    case Some(h) => Some(h)
    case None => HitFor(net.branch, net.tree, headers, appId, repo)
  }

  /** `process_github_repo` on the state it starts from: whether it
      succeeded, and the files and `config.vdf` after it. */
  function GithubRepoRun(m: Mode, token: string, files: Files, config: Option<string>, net: Network, codecs: Codecs,
                         isCn: bool, appId: string, repo: string, existing: Option<Hit>): InstallRun
  {
    match RepoTree(net, GithubHeaders(token), appId, repo, existing)
    case None => InstallRun(false, files, config)
    case Some(hit) =>
      var tasks := RunTasks(m, files, net, codecs, isCn, hit.sha, repo, appId, ManifestPaths(hit.tree), hit.tree);
      AfterTasks(m, tasks, hit.tree, config, codecs, appId)
  }

  /** What `process_github_repo` does once all tasks of `tree` ran. */
  function AfterTasks(m: Mode, tasks: TasksRun, tree: seq<TreeEntry>, config: Option<string>, codecs: Codecs, appId: string): InstallRun
  {
    match Aggregate(tasks.results)
    case None => InstallRun(false, tasks.files, config)
    case Some(collected) =>
      if tree == [] then InstallRun(false, tasks.files, config)
      else if IsSteamTools(m) || collected == [] then InstallRun(true, tasks.files, config)
      else InstallRun(true, AddMarkers(tasks.files, [appId] + KeysOf(collected)),
                      MergeConfig(config, codecs, PutAll([], collected)).config)
  }

  /** A repository succeeds exactly when its tree is found and is not empty
      and every file's task succeeds. */
  lemma GithubRepoOk(m: Mode, token: string, files: Files, config: Option<string>, net: Network, codecs: Codecs,
                     isCn: bool, appId: string, repo: string, existing: Option<Hit>)
    ensures GithubRepoRun(m, token, files, config, net, codecs, isCn, appId, repo, existing).ok <==>
      var t := RepoTree(net, GithubHeaders(token), appId, repo, existing);
      && t.Some? && t.value.tree != []
      && forall i :: 0 <= i < |t.value.tree| ==>
           ManifestTask(m, files, net, codecs, isCn, t.value.sha, t.value.tree[i].path, repo, appId, ManifestPaths(t.value.tree)).result.Ok?
  {
    var t := RepoTree(net, GithubHeaders(token), appId, repo, existing);
    if t.Some? {
      var hit := t.value;
      var tasks := RunTasks(m, files, net, codecs, isCn, hit.sha, repo, appId, ManifestPaths(hit.tree), hit.tree);
      RunTasksResults(m, files, net, codecs, isCn, hit.sha, repo, appId, ManifestPaths(hit.tree), hit.tree);
      AggregateSpec(tasks.results);
      AfterTasksOk(m, tasks, hit.tree, config, codecs, appId);
    }
  }

  /** The step after all tasks succeeds exactly when they all did and the
      tree is not empty. */
  lemma AfterTasksOk(m: Mode, tasks: TasksRun, tree: seq<TreeEntry>, config: Option<string>, codecs: Codecs, appId: string)
    ensures AfterTasks(m, tasks, tree, config, codecs, appId).ok <==> Aggregate(tasks.results).Some? && tree != []
  {
  }

  /** With SteamTools nothing is written after all tasks: the script was
      written by the key file's task, and `config.vdf` is untouched. */
  lemma GithubSteamTools(m: Mode, token: string, files: Files, config: Option<string>, net: Network, codecs: Codecs,
                         isCn: bool, appId: string, repo: string, existing: Option<Hit>)
    requires IsSteamTools(m)
    ensures var run := GithubRepoRun(m, token, files, config, net, codecs, isCn, appId, repo, existing);
      && run.config == config
      && match RepoTree(net, GithubHeaders(token), appId, repo, existing)
         case None => run.files == files
         case Some(hit) =>
           run.files == RunTasks(m, files, net, codecs, isCn, hit.sha, repo, appId, ManifestPaths(hit.tree), hit.tree).files
  {
    match RepoTree(net, GithubHeaders(token), appId, repo, existing)
    case None =>
    case Some(hit) =>
      var tasks := RunTasks(m, files, net, codecs, isCn, hit.sha, repo, appId, ManifestPaths(hit.tree), hit.tree);
      assert AfterTasks(m, tasks, hit.tree, config, codecs, appId).files == tasks.files;
  }

  /** With GreenLuma, a successful run that collected keys registers the app
      and the depots and merges the keys, the last key of a depot winning,
      and writes nothing else; without keys it writes nothing more. This holds
      whether the tree came with a search hit or was looked up for the repo. */
  lemma GithubGreenLuma(m: Mode, token: string, files: Files, config: Option<string>, net: Network, codecs: Codecs,
                        isCn: bool, appId: string, repo: string, existing: Option<Hit>, hit: Hit)
    requires !IsSteamTools(m)
    requires RepoTree(net, GithubHeaders(token), appId, repo, existing) == Some(hit)
    ensures var tasks := RunTasks(m, files, net, codecs, isCn, hit.sha, repo, appId, ManifestPaths(hit.tree), hit.tree);
      var run := GithubRepoRun(m, token, files, config, net, codecs, isCn, appId, repo, existing);
      match Aggregate(tasks.results)
      case None => !run.ok && run.files == tasks.files && run.config == config
      case Some(collected) =>
        if hit.tree == [] then !run.ok
        else if collected == [] then run.ok && run.files == tasks.files && run.config == config
        else
          && run.ok
          && (forall i :: 0 <= i < |collected| ==> MarkerPath(collected[i].0) in run.files)
          && MarkerPath(appId) in run.files
          && run.files == AddMarkers(tasks.files, [appId] + KeysOf(collected))
          && run.config == MergeConfig(config, codecs, PutAll([], collected)).config
  {
    var tasks := RunTasks(m, files, net, codecs, isCn, hit.sha, repo, appId, ManifestPaths(hit.tree), hit.tree);
    AfterTasksGreenLuma(m, tasks, hit.tree, config, codecs, appId);
  }

  /** The GreenLuma step after all tasks, on any task outcome. */
  lemma AfterTasksGreenLuma(m: Mode, tasks: TasksRun, tree: seq<TreeEntry>, config: Option<string>, codecs: Codecs, appId: string)
    requires !IsSteamTools(m)
    ensures var run := AfterTasks(m, tasks, tree, config, codecs, appId);
      match Aggregate(tasks.results)
      case None => !run.ok && run.files == tasks.files && run.config == config
      case Some(collected) =>
        if tree == [] then !run.ok
        else if collected == [] then run.ok && run.files == tasks.files && run.config == config
        else
          && run.ok
          && (forall i :: 0 <= i < |collected| ==> MarkerPath(collected[i].0) in run.files)
          && MarkerPath(appId) in run.files
          && run.files == AddMarkers(tasks.files, [appId] + KeysOf(collected))
          && run.config == MergeConfig(config, codecs, PutAll([], collected)).config
  {
    match Aggregate(tasks.results)
    case None =>
    case Some(collected) =>
      if tree != [] && collected != [] {
        var ids := [appId] + KeysOf(collected);
        AddMarkersHas(tasks.files, ids);
        assert ids[0] == appId;
        forall i | 0 <= i < |collected| ensures MarkerPath(collected[i].0) in AddMarkers(tasks.files, ids) {
          assert ids[i + 1] == collected[i].0;
        }
      }
  }

  /** All tasks' results, collected in order. */
  method Collect(results: seq<Result<seq<(string, string)>, TaskError>>) returns (collected: Option<seq<(string, string)>>)
    ensures collected == Aggregate(results)
  {
    var depots := [];
    for i := 0 to |results|
      invariant Aggregate(results[..i]) == Some(depots)
    {
      assert results[..i + 1][..i] == results[..i];
      if results[i].Err? {
        AggregateSpec(results);
        return None;
      }
      depots := depots + results[i].value;
    }
    assert results[..|results|] == results;
    return Some(depots);
  }

  /** `repo_results.sort(key=update_date, reverse=True)`. */
  method SortNewestFirst(hits: seq<Hit>) returns (sorted: seq<Hit>)
    ensures sorted == NewestFirst(hits)
  {
    sorted := [];
    var i := |hits|;
    while i > 0
      invariant 0 <= i <= |hits|
      invariant sorted == NewestFirst(hits[i..])
    {
      i := i - 1;
      assert hits[i..][1..] == hits[i + 1..];
      sorted := Insert(hits[i], sorted);
    }
  }

  // ---------------------------------------------------------------
  // Dispatch.

  /** The mode of the run: from one source box entry, or a search of all
      GitHub repositories. */
  datatype Source = FromRepo(repoVal: string) | SearchAll

  /** Whether the region probe and the rate-limit preflight run first. */
  predicate UsesGithub(s: Source) { s.SearchAll? || IsGithub(s.repoVal) }

  datatype AppOutcome = Succeeded | Failed | NotFound

  function Outcome(ok: bool): AppOutcome { if ok then Succeeded else Failed }

  datatype AppRun = AppRun(outcome: AppOutcome, files: Files, config: Option<string>)

  /** One app of the batch. */
  function ProcessApp(m: Mode, token: string, files: Files, config: Option<string>, net: Network, codecs: Codecs,
                      appId: string, source: Source): AppRun
  {
    var isCn := IsCn(net.region);
    match source
    case FromRepo(v) =>
      var r := (match ArchiveUrl(v, appId)
                case Some(url) => ZipInstall(m, files, config, net, codecs, appId, url)
                case None => GithubRepoRun(m, token, files, config, net, codecs, isCn, appId, v, None));
      AppRun(Outcome(r.ok), r.files, r.config)
    case SearchAll =>
      var hits := Hits(net.branch, net.tree, GithubHeaders(token), appId, GithubRepos());
      if hits == [] then AppRun(NotFound, files, config)
      else
        NewestFirstSpec(hits);
        var selected := NewestFirst(hits)[0];
        var r := GithubRepoRun(m, token, files, config, net, codecs, isCn, appId, selected.repo, Some(selected));
        AppRun(Outcome(r.ok), r.files, r.config)
  }

  /** A search that finds nothing leaves everything as it was; otherwise it
      processes the first repository, in the order of the box, among those
      with the newest update. */
  lemma SearchPicksNewest(m: Mode, token: string, files: Files, config: Option<string>, net: Network, codecs: Codecs, appId: string)
    ensures var hits := Hits(net.branch, net.tree, GithubHeaders(token), appId, GithubRepos());
      var run := ProcessApp(m, token, files, config, net, codecs, appId, SearchAll);
      if hits == [] then run == AppRun(NotFound, files, config)
      else
        var selected := hits[NewestIndex(hits)];
        var r := GithubRepoRun(m, token, files, config, net, codecs, IsCn(net.region), appId, selected.repo, Some(selected));
        run == AppRun(Outcome(r.ok), r.files, r.config)
  {
    var hits := Hits(net.branch, net.tree, GithubHeaders(token), appId, GithubRepos());
    if hits != [] {
      NewestFirstHead(hits);
    }
  }

  /** The outcome of each app of the batch, and the state after the last. */
  datatype BatchRun = BatchRun(outcomes: seq<AppOutcome>, files: Files, config: Option<string>)

  function Batch(m: Mode, token: string, files: Files, config: Option<string>, net: Network, codecs: Codecs,
                 ids: seq<string>, source: Source): (b: BatchRun)
    ensures |b.outcomes| == |ids|
  {
    if ids == [] then BatchRun([], files, config)
    else
      var prev := Batch(m, token, files, config, net, codecs, ids[..|ids| - 1], source);
      var a := ProcessApp(m, token, prev.files, prev.config, net, codecs, ids[|ids| - 1], source);
      BatchRun(prev.outcomes + [a.outcome], a.files, a.config)
  }

  /** The batch of the first `i + 1` ids: the batch of the first `i`, then
      the next app on the state it left. */
  lemma BatchSnoc(m: Mode, token: string, files: Files, config: Option<string>, net: Network, codecs: Codecs,
                  ids: seq<string>, i: nat, source: Source)
    requires i < |ids|
    ensures var prev := Batch(m, token, files, config, net, codecs, ids[..i], source);
      var a := ProcessApp(m, token, prev.files, prev.config, net, codecs, ids[i], source);
      Batch(m, token, files, config, net, codecs, ids[..i + 1], source) == BatchRun(prev.outcomes + [a.outcome], a.files, a.config)
  {
    assert ids[..i + 1][..i] == ids[..i];
  }

  /** Only a search reports an app as not found. */
  lemma {:induction false} BatchFound(m: Mode, token: string, files: Files, config: Option<string>, net: Network, codecs: Codecs,
                                      ids: seq<string>, repoVal: string)
    ensures forall i :: 0 <= i < |ids| ==> Batch(m, token, files, config, net, codecs, ids, FromRepo(repoVal)).outcomes[i] != NotFound
  {
    if ids != [] {
      BatchFound(m, token, files, config, net, codecs, ids[..|ids| - 1], repoVal);
    }
  }

  datatype Dispatch = NoIds | RateLimited | Processed(ids: seq<string>, outcomes: seq<AppOutcome>)

  datatype DispatchRun = DispatchRun(dispatch: Dispatch, files: Files, config: Option<string>)

  /** `process_from_specific_repo` and `process_by_searching_all` on the
      state they start from. */
  function DispatchBatch(m: Mode, token: string, files: Files, config: Option<string>, net: Network, codecs: Codecs,
                         items: seq<string>, source: Source): DispatchRun
  {
    var ids := Dedup(Resolved(items));
    if ids == [] then DispatchRun(NoIds, files, config)
    else if UsesGithub(source) && !RateVerdict(net.rate) then DispatchRun(RateLimited, files, config)
    else
      var b := Batch(m, token, files, config, net, codecs, ids, source);
      DispatchRun(Processed(ids, b.outcomes), b.files, b.config)
  }

  /** When the preflight of a GitHub source refuses, no app is processed;
      archive sources have no preflight; a processed batch has an outcome
      per resolved id. */
  lemma PreflightGate(m: Mode, token: string, files: Files, config: Option<string>, net: Network, codecs: Codecs,
                      items: seq<string>, source: Source)
    ensures var run := DispatchBatch(m, token, files, config, net, codecs, items, source);
      && (UsesGithub(source) && !RateVerdict(net.rate) ==> !run.dispatch.Processed? && run.files == files && run.config == config)
      && (!UsesGithub(source) && Resolved(items) != [] ==> run.dispatch.Processed?)
      && (run.dispatch.Processed? ==> run.dispatch.ids == Dedup(Resolved(items)) && |run.dispatch.outcomes| == |run.dispatch.ids|)
      && (run.dispatch == NoIds <==> Resolved(items) == [])
  {
    DedupElements(Resolved(items));
    if Resolved(items) != [] {
      assert Resolved(items)[0] in Dedup(Resolved(items));
    }
  }

  // ---------------------------------------------------------------
  // Starting a run.

  /** The mode a run works in: in auto-update mode the manifest versions
      float. */
  function StartMode(m: Mode): (r: Mode)
    ensures r.unlocker == m.unlocker && r.onlyLua == m.onlyLua
    ensures AutoUpdate(m) ==> Floating(r)
    ensures !AutoUpdate(m) ==> r == m
  {
    if AutoUpdate(m) then Mode(m.unlocker, m.onlyLua, false) else m
  }

  datatype Start = NoUnlocker | EmptyInput | Ran(dispatch: Option<Dispatch>)

  datatype StartRun = StartRun(start: Start, files: Files, config: Option<string>)

  /** `start_processing` and `run_async_tasks` on the state they start
      from: `tab` is the notebook tab, `choice` the entry of the source box. */
  function StartedRun(m: Mode, token: string, files: Files, config: Option<string>, raw: string, tab: nat, choice: nat,
                      net: Network, codecs: Codecs): StartRun
    requires choice < |RepoOptions|
  {
    if m.unlocker.None? then StartRun(NoUnlocker, files, config)
    else
      match ParseInput(raw)
      case None => StartRun(EmptyInput, files, config)
      case Some(items) =>
        if tab == 0 then
          var d := DispatchBatch(StartMode(m), token, files, config, net, codecs, items, FromRepo(RepoOptions[choice].value));
          StartRun(Ran(Some(d.dispatch)), d.files, d.config)
        else if tab == 1 then
          var d := DispatchBatch(StartMode(m), token, files, config, net, codecs, items, SearchAll);
          StartRun(Ran(Some(d.dispatch)), d.files, d.config)
        else StartRun(Ran(None), files, config)
  }

  // ---------------------------------------------------------------
  // Script files and the library.

  /** The app id the file menu shows for a file of `stplug-in`: its name
      without a trailing `.lua`. */
  function LuaFileAppId(filename: string): (appId: string)
    ensures EndsWith(filename, LuaSuffix) ==> filename == appId + LuaSuffix
    ensures !EndsWith(filename, LuaSuffix) ==> appId == filename
  {
    if EndsWith(filename, LuaSuffix) then filename[..|filename| - 4] else filename
  }

  /** `view_in_steam_library`: the library page opened, only for an id of
      digits. */
  function LibraryLink(filename: string): (link: Option<string>)
    ensures link.Some? <==> IsDigitString(LuaFileAppId(filename))
  {
    var appId := LuaFileAppId(filename);
    if IsDigitString(appId) then Some("steam://nav/games/details/" + appId) else None
  }

  /** The script written for an app is shown, and opens, as that app. */
  lemma ScriptNameRoundTrip(appId: string)
    ensures LuaFileAppId(ScriptPath(appId).name) == appId
    ensures IsDigitString(appId) ==> LibraryLink(ScriptPath(appId).name) == Some("steam://nav/games/details/" + appId)
  {
    var name := appId + LuaSuffix;
    assert name[|name| - |LuaSuffix|..] == LuaSuffix;
    assert name[..|name| - 4] == appId;
  }

  // ---------------------------------------------------------------
  // The window.

  class CaiInstallGui {
    const backend: GuiBackend

    constructor(backend: GuiBackend)
      ensures this.backend == backend
    {
      this.backend := backend;
    }

    /** The commit and tree: the hit given, or the two lookups with the
        configured token's headers. */
    method LookupTree(net: Network, appId: string, repo: string, existing: Option<Hit>) returns (hit: Option<Hit>)
      ensures hit == RepoTree(net, GithubHeaders(backend.token), appId, repo, existing)
    {
      if existing.Some? {
        return existing;
      }
      var headers := GithubHeaders(backend.token);
      var r1 := net.branch(BranchUrl(repo, appId), headers);
      if r1.None? || r1.value.commit.None? {
        return None;
      }
      var commit := r1.value.commit.value;
      var r2 := net.tree(commit.treeUrl, headers);
      if r2.None? || r2.value.tree.None? {
        return None;
      }
      return Some(Hit(repo, commit.sha, r2.value.tree.value, commit.date));
    }

    /** The `get_manifest_from_github` task of every entry of the tree. */
    method RunTreeTasks(net: Network, codecs: Codecs, isCn: bool, hit: Hit, repo: string, appId: string,
                        allManifests: seq<string>) returns (results: seq<Result<seq<(string, string)>, TaskError>>)
      modifies backend
      ensures var run := RunTasks(old(backend.ModeOf()), old(backend.files), net, codecs, isCn, hit.sha, repo, appId, allManifests, hit.tree);
        results == run.results && backend.files == run.files
      ensures backend.ModeOf() == old(backend.ModeOf()) && backend.token == old(backend.token)
      ensures backend.config == old(backend.config) && backend.temp == old(backend.temp)
    {
      ghost var m, files := backend.ModeOf(), backend.files;
      results := [];
      for i := 0 to |hit.tree|
        invariant RunTasks(m, files, net, codecs, isCn, hit.sha, repo, appId, allManifests, hit.tree[..i])
          == TasksRun(results, backend.files)
        invariant backend.ModeOf() == m && backend.token == old(backend.token)
        invariant backend.config == old(backend.config) && backend.temp == old(backend.temp)
      {
        RunTasksSnoc(m, files, net, codecs, isCn, hit.sha, repo, appId, allManifests, hit.tree, i);
        var r := backend.GetManifestFromGithub(net, codecs, isCn, hit.sha, hit.tree[i].path, repo, appId, allManifests);
        results := results + [r];
      }
      assert hit.tree[..|hit.tree|] == hit.tree;
    }

    /** `process_github_repo`. */
    method ProcessGithubRepo(net: Network, codecs: Codecs, isCn: bool, appId: string, repo: string, existing: Option<Hit>)
      returns (ok: bool)
      modifies backend
      ensures var run := GithubRepoRun(old(backend.ModeOf()), old(backend.token), old(backend.files), old(backend.config),
                                       net, codecs, isCn, appId, repo, existing);
        ok == run.ok && backend.files == run.files && backend.config == run.config
      ensures backend.ModeOf() == old(backend.ModeOf()) && backend.token == old(backend.token) && backend.temp == old(backend.temp)
    {
      var hit := LookupTree(net, appId, repo, existing);
      if hit.None? {
        return false;
      }
      var allManifests := ManifestPaths(hit.value.tree);
      var results := RunTreeTasks(net, codecs, isCn, hit.value, repo, appId, allManifests);
      var collected := Collect(results);
      if collected.None? {
        return false;
      }
      if hit.value.tree == [] {
        return false;
      }
      if !IsSteamTools(backend.ModeOf()) && collected.value != [] {
        var _ := backend.GreenlumaAdd([appId] + KeysOf(collected.value));
        var _ := backend.DepotkeyMerge(codecs, PutAll([], collected.value));
      }
      return true;
    }

    /** One app from an entry of the source box. */
    method ProcessFromRepo(net: Network, codecs: Codecs, appId: string, repoVal: string) returns (outcome: AppOutcome)
      modifies backend
      ensures var run := ProcessApp(old(backend.ModeOf()), old(backend.token), old(backend.files), old(backend.config),
                                    net, codecs, appId, FromRepo(repoVal));
        outcome == run.outcome && backend.files == run.files && backend.config == run.config
      ensures backend.ModeOf() == old(backend.ModeOf()) && backend.token == old(backend.token)
      ensures backend.temp == if IsGithub(repoVal) then old(backend.temp) else map[]
    {
      var url := ArchiveUrl(repoVal, appId);
      var isCn := IsCn(net.region);
      var ok;
      if url.Some? {
        ok := backend.ProcessZipBasedManifest(net, codecs, appId, url.value);
      } else {
        ok := ProcessGithubRepo(net, codecs, isCn, appId, repoVal, None);
      }
      return Outcome(ok);
    }

    /** `process_from_specific_repo`. */
    method ProcessFromSpecificRepo(net: Network, codecs: Codecs, items: seq<string>, repoVal: string) returns (d: Dispatch)
      modifies backend
      ensures var run := DispatchBatch(old(backend.ModeOf()), old(backend.token), old(backend.files), old(backend.config),
                                       net, codecs, items, FromRepo(repoVal));
        d == run.dispatch && backend.files == run.files && backend.config == run.config
      ensures backend.ModeOf() == old(backend.ModeOf()) && backend.token == old(backend.token)
      ensures backend.temp == if d.Processed? && !IsGithub(repoVal) then map[] else old(backend.temp)
    {
      var ids := ResolveAppIds(items);
      if ids == [] {
        return NoIds;
      }
      // For a GitHub source `checkcn` sets the region flag, then the
      // preflight decides.
      if IsGithub(repoVal) && !RateVerdict(net.rate) {
        return RateLimited;
      }
      ghost var m, token, files, config, temp := backend.ModeOf(), backend.token, backend.files, backend.config, backend.temp;
      var outcomes := [];
      for i := 0 to |ids|
        invariant Batch(m, token, files, config, net, codecs, ids[..i], FromRepo(repoVal)) == BatchRun(outcomes, backend.files, backend.config)
        invariant backend.ModeOf() == m && backend.token == token
        invariant backend.temp == if i > 0 && !IsGithub(repoVal) then map[] else temp
      {
        BatchSnoc(m, token, files, config, net, codecs, ids, i, FromRepo(repoVal));
        var outcome := ProcessFromRepo(net, codecs, ids[i], repoVal);
        outcomes := outcomes + [outcome];
      }
      assert ids[..|ids|] == ids;
      return Processed(ids, outcomes);
    }

    /** One app searched in every GitHub repository. */
    method SearchApp(net: Network, codecs: Codecs, appId: string) returns (outcome: AppOutcome)
      modifies backend
      ensures var run := ProcessApp(old(backend.ModeOf()), old(backend.token), old(backend.files), old(backend.config),
                                    net, codecs, appId, SearchAll);
        outcome == run.outcome && backend.files == run.files && backend.config == run.config
      ensures backend.ModeOf() == old(backend.ModeOf()) && backend.token == old(backend.token)
      ensures backend.temp == old(backend.temp)
    {
      var hits := backend.SearchAllRepos(net, appId, GithubRepos());
      if hits == [] {
        return NotFound;
      }
      var isCn := IsCn(net.region);
      var sorted := SortNewestFirst(hits);
      NewestFirstSpec(hits);
      var selected := sorted[0];
      var ok := ProcessGithubRepo(net, codecs, isCn, appId, selected.repo, Some(selected));
      return Outcome(ok);
    }

    /** `process_by_searching_all`. */
    method ProcessBySearchingAll(net: Network, codecs: Codecs, items: seq<string>) returns (d: Dispatch)
      modifies backend
      ensures var run := DispatchBatch(old(backend.ModeOf()), old(backend.token), old(backend.files), old(backend.config),
                                       net, codecs, items, SearchAll);
        d == run.dispatch && backend.files == run.files && backend.config == run.config
      ensures backend.ModeOf() == old(backend.ModeOf()) && backend.token == old(backend.token)
      ensures backend.temp == old(backend.temp)
    {
      var ids := ResolveAppIds(items);
      if ids == [] {
        return NoIds;
      }
      if !RateVerdict(net.rate) {
        return RateLimited;
      }
      ghost var m, token, files, config, temp := backend.ModeOf(), backend.token, backend.files, backend.config, backend.temp;
      var outcomes := [];
      for i := 0 to |ids|
        invariant Batch(m, token, files, config, net, codecs, ids[..i], SearchAll) == BatchRun(outcomes, backend.files, backend.config)
        invariant backend.ModeOf() == m && backend.token == token && backend.temp == temp
      {
        BatchSnoc(m, token, files, config, net, codecs, ids, i, SearchAll);
        var outcome := SearchApp(net, codecs, ids[i]);
        outcomes := outcomes + [outcome];
      }
      assert ids[..|ids|] == ids;
      return Processed(ids, outcomes);
    }

    /** `start_processing` followed by `run_async_tasks`: nothing without an
        unlocker; in auto-update mode the manifest versions float; a blank
        entry does nothing more; otherwise the tab's mode runs and the
        temporary directory is removed. */
    method StartProcessing(raw: string, tab: nat, choice: nat, net: Network, codecs: Codecs) returns (s: Start)
      requires choice < |RepoOptions|
      modifies backend
      ensures var run := StartedRun(old(backend.ModeOf()), old(backend.token), old(backend.files), old(backend.config),
                                    raw, tab, choice, net, codecs);
        s == run.start && backend.files == run.files && backend.config == run.config
      ensures backend.ModeOf() == if old(backend.unlockerType).None? then old(backend.ModeOf()) else StartMode(old(backend.ModeOf()))
      ensures backend.token == old(backend.token)
      ensures backend.temp == if s.Ran? then map[] else old(backend.temp)
    {
      if backend.unlockerType.None? {
        return NoUnlocker;
      }
      if IsSteamTools(backend.ModeOf()) && backend.onlyLua {
        backend.stLockManifestVersion := false;
      }
      var items := ParseInput(raw);
      if items.None? {
        return EmptyInput;
      }
      if tab == 0 {
        var d := ProcessFromSpecificRepo(net, codecs, items.value, RepoOptions[choice].value);
        s := Ran(Some(d));
      } else if tab == 1 {
        var d := ProcessBySearchingAll(net, codecs, items.value);
        s := Ran(Some(d));
      } else {
        s := Ran(None);
      }
      backend.temp := map[];
    }
  }
}
