/** What the installers of `GuiBackend` do to the Steam directory, as
    functions of the state they start from: the per-file task of a GitHub
    manifest repository, the depot-key merge into `config.vdf`, the
    GreenLuma markers and the installation from a zip archive.

    The Steam directory is a map from the files the pipeline writes to
    their contents.  The network, zlib, UTF-8 decoding, the VDF reader and
    writer and the zip reader are parameters (`Network`, `Codecs`). */
module Install {
  import opened Wrappers
  import opened Strings
  import opened Seqs
  import opened StContainer
  import opened Mirrors
  import opened GitHub
  import opened Scanners
  import opened LuaScript
  import opened ConfigStore

  datatype Unlocker = SteamTools | GreenLuma

  /** The settings that steer an installation: the unlocker in use,
      `steamtools_only_lua` and `st_lock_manifest_version`. */
  datatype Mode = Mode(unlocker: Option<Unlocker>, onlyLua: bool, stLock: bool)

  /** `is_steamtools`. */
  predicate IsSteamTools(m: Mode) { m.unlocker == Some(SteamTools) }

  /** The SteamTools auto-update mode: only scripts, no manifest files. */
  predicate AutoUpdate(m: Mode) { IsSteamTools(m) && m.onlyLua }

  /** The floating-version mode: the `setManifestid` lines are commented out. */
  predicate Floating(m: Mode) { AutoUpdate(m) && !m.stLock }

  /** The files written under the Steam directory: `depotcache/<name>`,
      `config/depotcache/<name>`, `config/stplug-in/<name>` and
      `AppList/<name>`. */
  datatype FilePath = DepotCache(name: string) | ConfigDepotCache(name: string) | StPlugIn(name: string) | AppList(name: string)

  datatype FileContent = Bytes(bytes: seq<byte>) | Text(text: string)

  type Files = map<FilePath, FileContent>

  /** The answers of the network, by request: the rate-limit and region
      probes, the branch and tree lookups (`fetch_branch_info`), raw file
      GETs and archive downloads. */
  datatype Network = Network(
    rate: RateProbe,
    region: RegionProbe,
    branch: (string, Headers) -> Option<BranchInfo>,
    tree: (string, Headers) -> Option<TreeInfo>,
    raw: string -> HttpOutcome,
    download: string -> HttpOutcome)

  /** The foreign codecs: zlib's inflate, UTF-8 decoding, `vdf.loads`,
      `vdf.dumps` and reading a zip archive into its files in listing order
      (`None` for any failure). */
  datatype Codecs = Codecs(
    inflate: seq<byte> -> Option<seq<byte>>,
    utf8: seq<byte> -> Option<string>,
    vdfLoads: string -> Option<Vdf>,
    vdfDumps: Vdf -> string,
    unzip: seq<byte> -> Option<seq<(string, seq<byte>)>>)

  const LuaSuffix: string := ".lua"
  const StSuffix: string := ".st"
  const KeyFileMarker: string := "key.vdf"

  /** `config/stplug-in/<app_id>.lua`. */
  function ScriptPath(appId: string): FilePath { StPlugIn(appId + LuaSuffix) }

  /** `AppList/<id>.txt`. */
  function MarkerPath(id: string): FilePath { AppList(id + ".txt") }

  // ---------------------------------------------------------------
  // One file of a GitHub manifest repository (`get_manifest_from_github`).

  /** A manifest file, a depot-key file (`key.vdf` anywhere in the
      lower-cased path), or anything else.  The manifest test comes first. */
  datatype EntryKind = ManifestEntry | KeyFileEntry | OtherEntry

  function Classify(path: string): EntryKind
  {
    if EndsWith(path, ManifestSuffix) then ManifestEntry
    else if Contains(ToLower(path), KeyFileMarker) then KeyFileEntry
    else OtherEntry
  }

  /** Why a task raises: every mirror failed, or the key file could not be
      decoded, parsed or read. */
  datatype TaskError = DownloadFailed(path: string) | BadKeyFile(path: string)

  /** A task's result and the directory after it. */
  datatype TaskRun = TaskRun(result: Result<seq<(string, string)>, TaskError>, files: Files)

  /** The (depot id, key) pairs of a downloaded `key.vdf`. */
  function KeyFileOf(codecs: Codecs, content: seq<byte>): Option<seq<(string, string)>>
  {
    match codecs.utf8(content)
    case None => None
    case Some(text) =>
      match codecs.vdfLoads(text)
      case None => None
      case Some(doc) => KeyFileDepots(doc)
  }

  function ManifestTask(m: Mode, files: Files, net: Network, codecs: Codecs, isCn: bool,
                        sha: string, path: string, repo: string, appId: string, allManifests: seq<string>): TaskRun
  {
    if Classify(path) == ManifestEntry && AutoUpdate(m) then TaskRun(Ok([]), files)
    else match Fetched(net.raw, isCn, sha, path, repo)
      case Err(_) => TaskRun(Err(DownloadFailed(path)), files)
      case Ok(content) => StoreFetched(m, files, codecs, content, path, appId, allManifests)
  }

  /** What a task does with the bytes it fetched. */
  function StoreFetched(m: Mode, files: Files, codecs: Codecs, content: seq<byte>,
                        path: string, appId: string, allManifests: seq<string>): TaskRun
  {
    match Classify(path)
    case ManifestEntry =>
      var name := FileName(path);
      TaskRun(Ok([]), files[DepotCache(name) := Bytes(content)][ConfigDepotCache(name) := Bytes(content)])
    case KeyFileEntry =>
      (match KeyFileOf(codecs, content)
       case None => TaskRun(Err(BadKeyFile(path)), files)
       case Some(depots) => TaskRun(Ok(depots), WithScript(m, files, depots, appId, allManifests)))
    case OtherEntry => TaskRun(Ok([]), files)
  }

  /** The directory after a key file was read: for SteamTools and a
      non-empty app id, `<app_id>.lua` holds the script. */
  function WithScript(m: Mode, files: Files, depots: seq<(string, string)>, appId: string, allManifests: seq<string>): Files
  {
    if IsSteamTools(m) && appId != [] then
      files[ScriptPath(appId) := Text(Script(appId, depots, ManifestRefs(allManifests), Floating(m)))]
    else files
  }

  /** In auto-update mode a manifest file is skipped before anything is
      fetched: that task yields no depots, writes nothing and is the same
      whatever the network answers. */
  lemma ManifestTaskSkips(m: Mode, files: Files, net: Network, net': Network, codecs: Codecs, isCn: bool,
                          sha: string, path: string, repo: string, appId: string, allManifests: seq<string>)
    requires EndsWith(path, ManifestSuffix) && AutoUpdate(m)
    ensures ManifestTask(m, files, net, codecs, isCn, sha, path, repo, appId, allManifests) == TaskRun(Ok([]), files)
    ensures ManifestTask(m, files, net, codecs, isCn, sha, path, repo, appId, allManifests) ==
            ManifestTask(m, files, net', codecs, isCn, sha, path, repo, appId, allManifests)
  {
  }

  /** Any other file is fetched first, and a failed fetch raises without
      writing anything, whatever kind of file it is. */
  lemma ManifestTaskFetchFails(m: Mode, files: Files, net: Network, codecs: Codecs, isCn: bool,
                               sha: string, path: string, repo: string, appId: string, allManifests: seq<string>)
    requires !(EndsWith(path, ManifestSuffix) && AutoUpdate(m))
    requires forall j :: 0 <= j < |Candidates(isCn, repo, sha, path)| ==> !IsOk(net.raw(Candidates(isCn, repo, sha, path)[j]))
    ensures ManifestTask(m, files, net, codecs, isCn, sha, path, repo, appId, allManifests) ==
            TaskRun(Err(DownloadFailed(path)), files)
  {
  }

  /** Outside auto-update mode a fetched manifest is stored under its base
      name in both `depotcache` and `config/depotcache`, nothing else
      changes and no depots are reported. */
  lemma ManifestTaskStores(m: Mode, files: Files, net: Network, codecs: Codecs, isCn: bool,
                           sha: string, path: string, repo: string, appId: string, allManifests: seq<string>)
    requires EndsWith(path, ManifestSuffix) && !AutoUpdate(m)
    requires Fetched(net.raw, isCn, sha, path, repo).Ok?
    ensures var run := ManifestTask(m, files, net, codecs, isCn, sha, path, repo, appId, allManifests);
      var content, name := Fetched(net.raw, isCn, sha, path, repo).value, FileName(path);
      && run.result == Ok([])
      && run.files[DepotCache(name)] == Bytes(content)
      && run.files[ConfigDepotCache(name)] == Bytes(content)
      && (forall p :: p != DepotCache(name) && p != ConfigDepotCache(name) ==>
            (p in run.files <==> p in files) && (p in files ==> run.files[p] == files[p]))
  {
    ManifestTaskCopies(m, files, net, codecs, isCn, sha, path, repo, appId, allManifests);
    CopiesWritten(files, FileName(path), Fetched(net.raw, isCn, sha, path, repo).value);
  }

  /** The directory after a fetched manifest: both copies written. */
  lemma ManifestTaskCopies(m: Mode, files: Files, net: Network, codecs: Codecs, isCn: bool,
                           sha: string, path: string, repo: string, appId: string, allManifests: seq<string>)
    requires EndsWith(path, ManifestSuffix) && !AutoUpdate(m)
    requires Fetched(net.raw, isCn, sha, path, repo).Ok?
    ensures var run := ManifestTask(m, files, net, codecs, isCn, sha, path, repo, appId, allManifests);
      var content, name := Fetched(net.raw, isCn, sha, path, repo).value, FileName(path);
      run == TaskRun(Ok([]), files[DepotCache(name) := Bytes(content)][ConfigDepotCache(name) := Bytes(content)])
  {
  }

  /** Writing a manifest's two copies leaves any other path alone. */
  lemma CopiesFrame(files: Files, name: string, b: FileContent, p: FilePath)
    requires p != DepotCache(name) && p != ConfigDepotCache(name)
    ensures var w := files[DepotCache(name) := b][ConfigDepotCache(name) := b];
      (p in w <==> p in files) && (p in files ==> w[p] == files[p])
  {
  }

  /** The two copies hold the bytes, and every other path is as before. */
  lemma CopiesWritten(files: Files, name: string, content: seq<byte>)
    ensures var w := files[DepotCache(name) := Bytes(content)][ConfigDepotCache(name) := Bytes(content)];
      && w[DepotCache(name)] == Bytes(content)
      && w[ConfigDepotCache(name)] == Bytes(content)
      && (forall p :: p != DepotCache(name) && p != ConfigDepotCache(name) ==>
            (p in w <==> p in files) && (p in files ==> w[p] == files[p]))
  {
  }

  /** A key file yields its (depot id, key) pairs in order; for SteamTools
      it also writes `<app_id>.lua`, which reads back, with the SteamTools
      key pattern, as the base pair `(app_id, "None")` followed by exactly
      those pairs, whatever the manifest names and the floating mode. */
  lemma ManifestTaskKeyFile(m: Mode, files: Files, net: Network, codecs: Codecs, isCn: bool,
                            sha: string, path: string, repo: string, appId: string, allManifests: seq<string>)
    requires Classify(path) == KeyFileEntry && Fetched(net.raw, isCn, sha, path, repo).Ok?
    requires KeyFileOf(codecs, Fetched(net.raw, isCn, sha, path, repo).value).Some?
    ensures var run := ManifestTask(m, files, net, codecs, isCn, sha, path, repo, appId, allManifests);
      var depots := KeyFileOf(codecs, Fetched(net.raw, isCn, sha, path, repo).value).value;
      && run.result == Ok(depots)
      && (IsSteamTools(m) && appId != [] ==> ScriptPath(appId) in run.files && run.files[ScriptPath(appId)].Text?)
      && (!(IsSteamTools(m) && appId != []) ==> run.files == files)
      && (IsSteamTools(m) && IsDigitString(appId) &&
          (forall i :: 0 <= i < |depots| ==> IsDigitString(depots[i].0) && |depots[i].1| > 0 && '"' !in depots[i].1) ==>
            ScanKeys(run.files[ScriptPath(appId)].text, true) == [(appId, "None")] + depots)
  {
    var depots := KeyFileOf(codecs, Fetched(net.raw, isCn, sha, path, repo).value).value;
    ManifestTaskKeyRun(m, files, net, codecs, isCn, sha, path, repo, appId, allManifests);
    WithScriptReadsBack(m, files, depots, appId, allManifests);
  }

  /** A decoded key file reports its pairs and writes the script, if any. */
  lemma ManifestTaskKeyRun(m: Mode, files: Files, net: Network, codecs: Codecs, isCn: bool,
                           sha: string, path: string, repo: string, appId: string, allManifests: seq<string>)
    requires Classify(path) == KeyFileEntry && Fetched(net.raw, isCn, sha, path, repo).Ok?
    requires KeyFileOf(codecs, Fetched(net.raw, isCn, sha, path, repo).value).Some?
    ensures var depots := KeyFileOf(codecs, Fetched(net.raw, isCn, sha, path, repo).value).value;
      ManifestTask(m, files, net, codecs, isCn, sha, path, repo, appId, allManifests) ==
      TaskRun(Ok(depots), WithScript(m, files, depots, appId, allManifests))
  {
  }

  /** The script written for a key file reads back as the base pair
      followed by the file's pairs. */
  lemma WithScriptReadsBack(m: Mode, files: Files, depots: seq<(string, string)>, appId: string, allManifests: seq<string>)
    ensures var w := WithScript(m, files, depots, appId, allManifests);
      && (IsSteamTools(m) && appId != [] ==> ScriptPath(appId) in w && w[ScriptPath(appId)].Text?)
      && (!(IsSteamTools(m) && appId != []) ==> w == files)
      && (IsSteamTools(m) && IsDigitString(appId) &&
          (forall i :: 0 <= i < |depots| ==> IsDigitString(depots[i].0) && |depots[i].1| > 0 && '"' !in depots[i].1) ==>
            ScanKeys(w[ScriptPath(appId)].text, true) == [(appId, "None")] + depots)
  {
    ManifestRefsWellFormed(allManifests);
    if IsSteamTools(m) && IsDigitString(appId) &&
       (forall i :: 0 <= i < |depots| ==> IsDigitString(depots[i].0) && |depots[i].1| > 0 && '"' !in depots[i].1) {
      ScriptReadsBack(appId, depots, ManifestRefs(allManifests), Floating(m));
    }
  }

  /** A file that is neither a manifest nor a key file is fetched, and then
      contributes nothing and writes nothing. */
  lemma ManifestTaskOther(m: Mode, files: Files, net: Network, codecs: Codecs, isCn: bool,
                          sha: string, path: string, repo: string, appId: string, allManifests: seq<string>)
    requires Classify(path) == OtherEntry && Fetched(net.raw, isCn, sha, path, repo).Ok?
    ensures ManifestTask(m, files, net, codecs, isCn, sha, path, repo, appId, allManifests) == TaskRun(Ok([]), files)
  {
  }

  /** A task writes at most the two manifest copies and the script. */
  lemma ManifestTaskFrame(m: Mode, files: Files, net: Network, codecs: Codecs, isCn: bool,
                          sha: string, path: string, repo: string, appId: string, allManifests: seq<string>, p: FilePath)
    requires p != DepotCache(FileName(path)) && p != ConfigDepotCache(FileName(path)) && p != ScriptPath(appId)
    ensures var run := ManifestTask(m, files, net, codecs, isCn, sha, path, repo, appId, allManifests);
      (p in run.files <==> p in files) && (p in files ==> run.files[p] == files[p])
  {
    if !(Classify(path) == ManifestEntry && AutoUpdate(m)) {
      match Fetched(net.raw, isCn, sha, path, repo)
      case Err(_) =>
      case Ok(content) => StoreFetchedFrame(m, files, codecs, content, path, appId, allManifests, p);
    }
  }

  /** Storing fetched bytes writes at most the two manifest copies and the script. */
  lemma StoreFetchedFrame(m: Mode, files: Files, codecs: Codecs, content: seq<byte>,
                          path: string, appId: string, allManifests: seq<string>, p: FilePath)
    requires p != DepotCache(FileName(path)) && p != ConfigDepotCache(FileName(path)) && p != ScriptPath(appId)
    ensures var run := StoreFetched(m, files, codecs, content, path, appId, allManifests);
      (p in run.files <==> p in files) && (p in files ==> run.files[p] == files[p])
  {
    if EndsWith(path, ManifestSuffix) {
      StoreManifestFrame(m, files, codecs, content, path, appId, allManifests, p);
    } else {
      StoreOtherFrame(m, files, codecs, content, path, appId, allManifests, p);
    }
  }

  /** A manifest writes its two copies and nothing else. */
  lemma StoreManifestFrame(m: Mode, files: Files, codecs: Codecs, content: seq<byte>,
                           path: string, appId: string, allManifests: seq<string>, p: FilePath)
    requires p != DepotCache(FileName(path)) && p != ConfigDepotCache(FileName(path))
    requires EndsWith(path, ManifestSuffix)
    ensures var run := StoreFetched(m, files, codecs, content, path, appId, allManifests);
      (p in run.files <==> p in files) && (p in files ==> run.files[p] == files[p])
  {
    StoreFetchedCopies(m, files, codecs, content, path, appId, allManifests);
    CopiesFrame(files, FileName(path), Bytes(content), p);
  }

  /** Any other file writes at most the script. */
  lemma StoreOtherFrame(m: Mode, files: Files, codecs: Codecs, content: seq<byte>,
                        path: string, appId: string, allManifests: seq<string>, p: FilePath)
    requires p != ScriptPath(appId)
    requires !EndsWith(path, ManifestSuffix)
    ensures var run := StoreFetched(m, files, codecs, content, path, appId, allManifests);
      (p in run.files <==> p in files) && (p in files ==> run.files[p] == files[p])
  {
    if Classify(path) == KeyFileEntry {
      match KeyFileOf(codecs, content)
      case None =>
      case Some(depots) => WithScriptFrame(m, files, depots, appId, allManifests, p);
    }
  }

  /** A fetched manifest is written under its base name, twice. */
  lemma StoreFetchedCopies(m: Mode, files: Files, codecs: Codecs, content: seq<byte>,
                           path: string, appId: string, allManifests: seq<string>)
    requires EndsWith(path, ManifestSuffix)
    ensures var name := FileName(path);
      StoreFetched(m, files, codecs, content, path, appId, allManifests).files ==
      files[DepotCache(name) := Bytes(content)][ConfigDepotCache(name) := Bytes(content)]
  {
  }

  /** Reading a key file writes at most the script. */
  lemma WithScriptFrame(m: Mode, files: Files, depots: seq<(string, string)>, appId: string, allManifests: seq<string>, p: FilePath)
    requires p != ScriptPath(appId)
    ensures var w := WithScript(m, files, depots, appId, allManifests);
      (p in w <==> p in files) && (p in files ==> w[p] == files[p])
  {
  }

  // ---------------------------------------------------------------
  // `config.vdf` (`depotkey_merge`).

  /** Whether the merge succeeded, and the text of `config.vdf` after it
      (`None` while the file is absent). */
  datatype MergeRun = MergeRun(ok: bool, config: Option<string>)

  function MergeConfig(config: Option<string>, codecs: Codecs, incoming: seq<(string, string)>): MergeRun
  {
    match config
    case None => MergeRun(false, None)
    case Some(text) =>
      match codecs.vdfLoads(text)
      case None => MergeRun(false, config)
      case Some(doc) =>
        match MergeDoc(doc, incoming)
        case Err(_) => MergeRun(false, config)
        case Ok(merged) => MergeRun(true, Some(codecs.vdfDumps(merged)))
  }

  /** The file is rewritten exactly when the merge succeeds, and then holds
      the printed merged document; a missing file fails. */
  lemma MergeConfigSpec(config: Option<string>, codecs: Codecs, incoming: seq<(string, string)>)
    ensures var run := MergeConfig(config, codecs, incoming);
      && (config.None? ==> !run.ok && run.config.None?)
      && (!run.ok ==> run.config == config)
      && (run.ok <==> config.Some? && codecs.vdfLoads(config.value).Some? &&
                      MergeDoc(codecs.vdfLoads(config.value).value, incoming).Ok?)
      && (run.ok ==> run.config == Some(codecs.vdfDumps(MergeDoc(codecs.vdfLoads(config.value).value, incoming).value)))
  {
  }

  /** With a reader that reads back what the writer prints and yields
      well-formed documents, merging the same depots twice leaves
      `config.vdf` as merging them once does. */
  lemma MergeConfigTwice(config: Option<string>, codecs: Codecs, incoming: seq<(string, string)>)
    requires forall d :: codecs.vdfLoads(codecs.vdfDumps(d)) == Some(d)
    requires forall t :: codecs.vdfLoads(t).Some? ==> WellFormed(codecs.vdfLoads(t).value)
    requires MergeConfig(config, codecs, incoming).ok
    ensures MergeConfig(MergeConfig(config, codecs, incoming).config, codecs, incoming) == MergeConfig(config, codecs, incoming)
  {
    var doc := codecs.vdfLoads(config.value).value;
    var merged := MergeDoc(doc, incoming).value;
    assert codecs.vdfLoads(codecs.vdfDumps(merged)) == Some(merged);
    MergeDocIdempotent(doc, incoming);
  }

  // ---------------------------------------------------------------
  // GreenLuma markers (`greenluma_add`).

  /** `AppList/<id>.txt` holding `id`, for each id in order. */
  function AddMarkers(files: Files, ids: seq<string>): Files
  {
    if ids == [] then files
    else AddMarkers(files, ids[..|ids| - 1])[MarkerPath(ids[|ids| - 1]) := Text(ids[|ids| - 1])]
  }

  /** After the markers are written every id has its marker, holding the id. */
  lemma {:induction false} AddMarkersHas(files: Files, ids: seq<string>)
    ensures forall i :: 0 <= i < |ids| ==> MarkerPath(ids[i]) in AddMarkers(files, ids) && AddMarkers(files, ids)[MarkerPath(ids[i])] == Text(ids[i])
  {
    if ids != [] {
      var init := ids[..|ids| - 1];
      var last := ids[|ids| - 1];
      AddMarkersHas(files, init);
      forall i | 0 <= i < |ids| ensures MarkerPath(ids[i]) in AddMarkers(files, ids) && AddMarkers(files, ids)[MarkerPath(ids[i])] == Text(ids[i]) {
        if i < |ids| - 1 && MarkerPath(ids[i]) == MarkerPath(last) {
          MarkerPathInjective(ids[i], last);
        }
      }
    }
  }

  /** A file that is no id's marker is as before. */
  lemma {:induction false} AddMarkersKeeps(files: Files, ids: seq<string>, p: FilePath)
    requires forall i :: 0 <= i < |ids| ==> p != MarkerPath(ids[i])
    ensures (p in AddMarkers(files, ids) <==> p in files) && (p in files ==> AddMarkers(files, ids)[p] == files[p])
  {
    if ids != [] {
      AddMarkersKeeps(files, ids[..|ids| - 1], p);
    }
  }

  lemma MarkerPathInjective(a: string, b: string)
    requires MarkerPath(a) == MarkerPath(b)
    ensures a == b
  {
    assert (a + ".txt")[..|a|] == a;
    assert (b + ".txt")[..|b|] == b;
  }

  // ---------------------------------------------------------------
  // Installation from a zip archive (`_process_zip_based_manifest`).

  /** An extracted archive: its files by name, in listing order. */
  type Dir = seq<(string, seq<byte>)>

  /** The archive at `url`, extracted: `None` when the download raises or
      answers other than 200, or the archive cannot be read.  A name listed
      twice holds the later entry. */
  function Extracted(net: Network, codecs: Codecs, url: string): Option<Dir>
  {
    var o := net.download(url);
    if !IsOk(o) then None
    else match codecs.unzip(o.body)
      case None => None
      case Some(listing) => Some(PutAll([], listing))
  }

  /** `extract_path.glob('*' + suffix)`: the files whose name ends with the
      suffix, in listing order. */
  function Glob(dir: Dir, suffix: string): (r: Dir)
    ensures |r| <= |dir|
    ensures forall i :: 0 <= i < |r| ==> EndsWith(r[i].0, suffix) && r[i] in dir
    ensures forall e :: e in dir && EndsWith(e.0, suffix) ==> e in r
  {
    if dir == [] then []
    else
      var rest := Glob(dir[..|dir| - 1], suffix);
      var e := dir[|dir| - 1];
      assert dir == dir[..|dir| - 1] + [e];
      if EndsWith(e.0, suffix) then rest + [e] else rest
  }

  /** `Path(name).with_suffix('.lua')` for a name ending in `.st`: the
      suffix is replaced, except that `.st` alone has no suffix and gets
      one appended. */
  function LuaName(name: string): (r: string)
    requires EndsWith(name, StSuffix)
    ensures EndsWith(r, LuaSuffix)
  {
    if name == StSuffix then StSuffix + LuaSuffix else name[..|name| - 3] + LuaSuffix
  }

  lemma LuaNameStem(stem: string)
    requires stem != []
    ensures LuaName(stem + StSuffix) == stem + LuaSuffix
  {
    assert (stem + StSuffix)[..|stem|] == stem;
  }

  /** The `.st` conversions: the Lua texts written, by name, and the names
      appended to the list of Lua files, in order. */
  datatype Conversion = Conversion(written: seq<(string, string)>, added: seq<string>)

  predicate AllSt(sts: Dir) { forall i :: 0 <= i < |sts| ==> EndsWith(sts[i].0, StSuffix) }

  /** Each `.st` file decoded, its text written under its `.lua` name and
      the name appended; a file that fails to decode is skipped. */
  function Convert(sts: Dir, codecs: Codecs): Conversion
    requires AllSt(sts)
  {
    if sts == [] then Conversion([], [])
    else
      var c := Convert(sts[..|sts| - 1], codecs);
      var st := sts[|sts| - 1];
      match StContainer.Decode(st.1, codecs.inflate, codecs.utf8)
      case Err(_) => c
      case Ok(r) => Conversion(Put(c.written, LuaName(st.0), r.0), c.added + [LuaName(st.0)])
  }

  /** A failure converting one file does not stop the others: every file
      that decodes has its `.lua` name appended, and nothing else is. */
  lemma {:induction false} ConvertTolerant(sts: Dir, codecs: Codecs)
    requires AllSt(sts)
    ensures forall i :: 0 <= i < |sts| && StContainer.Decode(sts[i].1, codecs.inflate, codecs.utf8).Ok? ==>
      LuaName(sts[i].0) in Convert(sts, codecs).added
    ensures forall n :: n in Convert(sts, codecs).added ==>
      exists i :: 0 <= i < |sts| && StContainer.Decode(sts[i].1, codecs.inflate, codecs.utf8).Ok? && n == LuaName(sts[i].0)
    ensures |Convert(sts, codecs).added| <= |sts|
  {
    if sts != [] {
      var init := sts[..|sts| - 1];
      assert forall i :: 0 <= i < |init| ==> init[i] == sts[i];
      ConvertTolerant(init, codecs);
    }
  }

  /** The text of a Lua file: the converted text where one was written,
      else the extracted bytes decoded as UTF-8. */
  function ReadLua(dir: Dir, written: seq<(string, string)>, name: string, codecs: Codecs): Option<string>
  {
    match Lookup(written, name)
    case Some(text) => Some(text)
    case None =>
      match Lookup(dir, name)
      case Some(bytes) => codecs.utf8(bytes)
      case None => None
  }

  /** The texts of the Lua files in order, `None` when one cannot be read. */
  function ReadAll(dir: Dir, written: seq<(string, string)>, names: seq<string>, codecs: Codecs): (r: Option<seq<string>>)
    ensures r.Some? ==> |r.value| == |names|
  {
    if names == [] then Some([])
    else
      match ReadAll(dir, written, names[..|names| - 1], codecs)
      case None => None
      case Some(texts) =>
        match ReadLua(dir, written, names[|names| - 1], codecs)
        case None => None
        case Some(t) => Some(texts + [t])
  }

  /** Once a file cannot be read, neither can the list. */
  lemma {:induction false} ReadAllStops(dir: Dir, written: seq<(string, string)>, names: seq<string>, k: nat, codecs: Codecs)
    requires k <= |names| && ReadAll(dir, written, names[..k], codecs).None?
    ensures ReadAll(dir, written, names, codecs).None?
    decreases |names| - k
  {
    if k < |names| {
      assert names[..k + 1][..k] == names[..k];
      ReadAllStops(dir, written, names, k + 1, codecs);
    } else {
      assert names[..k] == names;
    }
  }

  /** Every key-pattern match of the texts, file after file. */
  function Matches(texts: seq<string>, withFlag: bool): seq<(string, string)>
  {
    if texts == [] then [] else Matches(texts[..|texts| - 1], withFlag) + ScanKeys(texts[|texts| - 1], withFlag)
  }

  /** `all_depots[id] = key` for every match: an id keeps the position of
      its first match and takes the key of its last, so a later file
      overrides an earlier one. */
  lemma CollectedSpec(texts: seq<string>, withFlag: bool, k: string)
    ensures var found := Matches(texts, withFlag);
      && KeysOf(PutAll([], found)) == Dedup(KeysOf(found))
      && Lookup(PutAll([], found), k) == LastValue(found, k)
    ensures texts != [] ==>
      LastValue(Matches(texts, withFlag), k) ==
        var last := LastValue(ScanKeys(texts[|texts| - 1], withFlag), k);
        if last.Some? then last else LastValue(Matches(texts[..|texts| - 1], withFlag), k)
  {
    var found := Matches(texts, withFlag);
    PutAllKeys(found);
    PutAllLookup([], found, k);
    if texts != [] {
      LastValueAppend(Matches(texts[..|texts| - 1], withFlag), ScanKeys(texts[|texts| - 1], withFlag), k);
    }
  }

  /** Every match has a digit id and a non-empty key without a quote. */
  lemma {:induction false} MatchesWellFormed(texts: seq<string>, withFlag: bool)
    ensures forall e :: e in Matches(texts, withFlag) ==> IsDigitString(e.0) && |e.1| > 0 && '"' !in e.1
  {
    if texts != [] {
      MatchesWellFormed(texts[..|texts| - 1], withFlag);
      var s := ScanKeys(texts[|texts| - 1], withFlag);
      ScanKeysWellFormed(texts[|texts| - 1], withFlag);
      forall e | e in s ensures IsDigitString(e.0) && |e.1| > 0 && '"' !in e.1 {
        var i :| 0 <= i < |s| && s[i] == e;
      }
    }
  }

  /** Each manifest copied, in order: to `config/depotcache` and then to
      `depotcache` when `both`, else to `depotcache` only. */
  function Installed(files: Files, manifests: Dir, both: bool): Files
  {
    if manifests == [] then files
    else
      var f := Installed(files, manifests[..|manifests| - 1], both);
      var e := manifests[|manifests| - 1];
      if both then f[ConfigDepotCache(e.0) := Bytes(e.1)][DepotCache(e.0) := Bytes(e.1)]
      else f[DepotCache(e.0) := Bytes(e.1)]
  }

  /** After the copies each manifest name holds its bytes in `depotcache`,
      and in `config/depotcache` when `both`; every other file is as before. */
  lemma {:induction false} InstalledSpec(files: Files, manifests: Dir, both: bool, p: FilePath)
    ensures var f := Installed(files, manifests, both);
      var copied := p.DepotCache? || (both && p.ConfigDepotCache?);
      && (copied && LastValue(manifests, p.name).Some? ==> p in f && f[p] == Bytes(LastValue(manifests, p.name).value))
      && (!(copied && LastValue(manifests, p.name).Some?) ==> (p in f <==> p in files) && (p in files ==> f[p] == files[p]))
  {
    if manifests != [] {
      InstalledSpec(files, manifests[..|manifests| - 1], both, p);
    }
  }

  /** What an installation from an archive returns and leaves behind. */
  datatype InstallRun = InstallRun(ok: bool, files: Files, config: Option<string>)

  function ZipInstall(m: Mode, files: Files, config: Option<string>, net: Network, codecs: Codecs,
                      appId: string, url: string): InstallRun
  {
    match Extracted(net, codecs, url)
    case None => InstallRun(false, files, config)
    case Some(dir) =>
      var conv := Convert(Glob(dir, StSuffix), codecs);
      var luaNames := KeysOf(Glob(dir, LuaSuffix)) + conv.added;
      if IsSteamTools(m) then SteamToolsInstall(m, files, config, dir, conv.written, luaNames, codecs, appId)
      else GreenLumaInstall(files, config, dir, conv.written, luaNames, codecs, appId)
  }

  /** The SteamTools branch: the manifests copied to both caches unless in
      auto-update mode, then `<app_id>.lua` written from the keys of the
      Lua files and the manifest names. */
  function SteamToolsInstall(m: Mode, files: Files, config: Option<string>, dir: Dir, written: seq<(string, string)>,
                             luaNames: seq<string>, codecs: Codecs, appId: string): InstallRun
  {
    var manifests := Glob(dir, ManifestSuffix);
    var copied := if AutoUpdate(m) then files else Installed(files, manifests, true);
    match ReadAll(dir, written, luaNames, codecs)
    case None => InstallRun(false, copied, config)
    case Some(texts) =>
      var keys := PutAll([], Matches(texts, true));
      var script := Script(appId, keys, ManifestRefs(KeysOf(manifests)), Floating(m));
      InstallRun(true, copied[ScriptPath(appId) := Text(script)], config)
  }

  /** The GreenLuma branch: no manifest is a failure; otherwise the
      manifests are copied to `depotcache`, the keys of the Lua files
      merged into `config.vdf` when there are any, and the app and the
      depot ids registered. */
  function GreenLumaInstall(files: Files, config: Option<string>, dir: Dir, written: seq<(string, string)>,
                            luaNames: seq<string>, codecs: Codecs, appId: string): InstallRun
  {
    var manifests := Glob(dir, ManifestSuffix);
    if manifests == [] then InstallRun(false, files, config)
    else
      var copied := Installed(files, manifests, false);
      match ReadAll(dir, written, luaNames, codecs)
      case None => InstallRun(false, copied, config)
      case Some(texts) =>
        var keys := PutAll([], Matches(texts, false));
        if keys == [] then InstallRun(true, AddMarkers(copied, [appId]), config)
        else InstallRun(true, AddMarkers(copied, [appId] + KeysOf(keys)), MergeConfig(config, codecs, keys).config)
  }

  /** Without an archive (a failed or non-200 download, an unreadable zip)
      nothing is installed and the result is failure. */
  lemma ZipNeedsArchive(m: Mode, files: Files, config: Option<string>, net: Network, codecs: Codecs, appId: string, url: string)
    requires Extracted(net, codecs, url).None?
    ensures ZipInstall(m, files, config, net, codecs, appId, url) == InstallRun(false, files, config)
  {
  }

  /** GreenLuma needs a manifest: an archive without one fails and nothing
      is written. */
  lemma ZipGreenLumaNeedsManifest(m: Mode, files: Files, config: Option<string>, net: Network, codecs: Codecs, appId: string, url: string)
    requires !IsSteamTools(m) && Extracted(net, codecs, url).Some?
    requires Glob(Extracted(net, codecs, url).value, ManifestSuffix) == []
    ensures ZipInstall(m, files, config, net, codecs, appId, url) == InstallRun(false, files, config)
  {
  }

  /** The SteamTools branch writes the manifest copies unless in auto-update
      mode and, when it succeeds, `<app_id>.lua`; nothing else. */
  lemma SteamToolsInstallFiles(m: Mode, files: Files, config: Option<string>, dir: Dir, written: seq<(string, string)>,
                               luaNames: seq<string>, codecs: Codecs, appId: string)
    ensures var run := SteamToolsInstall(m, files, config, dir, written, luaNames, codecs, appId);
      var copied := if AutoUpdate(m) then files else Installed(files, Glob(dir, ManifestSuffix), true);
      && (run.ok <==> ReadAll(dir, written, luaNames, codecs).Some?)
      && run.config == config
      && (!run.ok ==> run.files == copied)
      && (run.ok ==>
            && ScriptPath(appId) in run.files
            && run.files == copied[ScriptPath(appId) := run.files[ScriptPath(appId)]])
  {
  }

  /** For SteamTools an archive succeeds exactly when its Lua files can be
      read, with or without manifests; `config.vdf` is not touched, the
      manifests are copied to both caches unless in auto-update mode, nothing
      but `<app_id>.lua` is written besides, and the script written reads back as `(app_id, "None")` followed by the
      collected keys, one pair per depot id. */
  lemma ZipSteamTools(m: Mode, files: Files, config: Option<string>, net: Network, codecs: Codecs, appId: string, url: string)
    requires IsSteamTools(m) && Extracted(net, codecs, url).Some?
    ensures var run := ZipInstall(m, files, config, net, codecs, appId, url);
      var dir := Extracted(net, codecs, url).value;
      var conv := Convert(Glob(dir, StSuffix), codecs);
      var texts := ReadAll(dir, conv.written, KeysOf(Glob(dir, LuaSuffix)) + conv.added, codecs);
      var copied := if AutoUpdate(m) then files else Installed(files, Glob(dir, ManifestSuffix), true);
      && (run.ok <==> texts.Some?)
      && run.config == config
      && (!run.ok ==> run.files == copied)
      && (run.ok ==>
            && ScriptPath(appId) in run.files
            && run.files == copied[ScriptPath(appId) := run.files[ScriptPath(appId)]])
      && (run.ok ==>
            var keys := PutAll([], Matches(texts.value, true));
            && NoDups(KeysOf(keys))
            && ScriptPath(appId) in run.files && run.files[ScriptPath(appId)].Text?
            && (IsDigitString(appId) ==> ScanKeys(run.files[ScriptPath(appId)].text, true) == [(appId, "None")] + keys))
  {
    var dir := Extracted(net, codecs, url).value;
    var conv := Convert(Glob(dir, StSuffix), codecs);
    var texts := ReadAll(dir, conv.written, KeysOf(Glob(dir, LuaSuffix)) + conv.added, codecs);
    SteamToolsInstallFiles(m, files, config, dir, conv.written, KeysOf(Glob(dir, LuaSuffix)) + conv.added, codecs, appId);
    if texts.Some? {
      var found := Matches(texts.value, true);
      var keys := PutAll([], found);
      PutAllKeys(found);
      DedupElements(KeysOf(found));
      PutAllFrom([], found);
      MatchesWellFormed(texts.value, true);
      var names := KeysOf(Glob(dir, ManifestSuffix));
      ManifestRefsWellFormed(names);
      if IsDigitString(appId) {
        assert forall i :: 0 <= i < |keys| ==> keys[i] in found;
        ScriptReadsBack(appId, keys, ManifestRefs(names), Floating(m));
      }
    }
  }

  /** `greenluma_add([app_id] + ids)` leaves a marker for the app and for
      every id. */
  lemma RegisterSpec(files: Files, appId: string, keys: seq<(string, string)>)
    ensures var f := AddMarkers(files, [appId] + KeysOf(keys));
      && MarkerPath(appId) in f && f[MarkerPath(appId)] == Text(appId)
      && forall i :: 0 <= i < |keys| ==> MarkerPath(keys[i].0) in f && f[MarkerPath(keys[i].0)] == Text(keys[i].0)
  {
    var ids := [appId] + KeysOf(keys);
    var f := AddMarkers(files, ids);
    AddMarkersHas(files, ids);
    assert ids[0] == appId;
    forall i | 0 <= i < |keys| ensures MarkerPath(keys[i].0) in f && f[MarkerPath(keys[i].0)] == Text(keys[i].0) {
      assert ids[i + 1] == keys[i].0;
    }
  }

  /** For GreenLuma a successful installation registers the app and every
      depot id found, and merges the keys into `config.vdf` when there are
      any; without keys only the app is registered and `config.vdf` is not
      touched. The files left are exactly the manifests copied to
      `depotcache` plus those markers. */
  lemma ZipGreenLuma(m: Mode, files: Files, config: Option<string>, net: Network, codecs: Codecs, appId: string, url: string)
    requires !IsSteamTools(m) && ZipInstall(m, files, config, net, codecs, appId, url).ok
    ensures Extracted(net, codecs, url).Some?
    ensures var run := ZipInstall(m, files, config, net, codecs, appId, url);
      var dir := Extracted(net, codecs, url).value;
      var conv := Convert(Glob(dir, StSuffix), codecs);
      var texts := ReadAll(dir, conv.written, KeysOf(Glob(dir, LuaSuffix)) + conv.added, codecs);
      && Glob(dir, ManifestSuffix) != [] && texts.Some?
      && var keys := PutAll([], Matches(texts.value, false));
      && MarkerPath(appId) in run.files && run.files[MarkerPath(appId)] == Text(appId)
      && (forall i :: 0 <= i < |keys| ==> MarkerPath(keys[i].0) in run.files && run.files[MarkerPath(keys[i].0)] == Text(keys[i].0))
      && run.files == AddMarkers(Installed(files, Glob(dir, ManifestSuffix), false), [appId] + KeysOf(keys))
      && run.config == (if keys == [] then config else MergeConfig(config, codecs, keys).config)
  {
    var dir := Extracted(net, codecs, url).value;
    var conv := Convert(Glob(dir, StSuffix), codecs);
    var texts := ReadAll(dir, conv.written, KeysOf(Glob(dir, LuaSuffix)) + conv.added, codecs).value;
    var keys := PutAll([], Matches(texts, false));
    var copied := Installed(files, Glob(dir, ManifestSuffix), false);
    RegisterSpec(copied, appId, keys);
    var none: seq<(string, string)> := [];
    RegisterSpec(copied, appId, none);
    assert [appId] + KeysOf(none) == [appId];
  }
}
