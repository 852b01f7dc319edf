/** `GuiBackend`: the unlocker state, the settings read from `config.json`,
    the Steam directory it writes and the temporary directory of archive
    installations, with the operations that change them. */
module Backend {
  import opened Wrappers
  import opened Strings
  import opened Seqs
  import opened StContainer
  import opened Mirrors
  import opened GitHub
  import opened Scanners
  import opened LuaScript
  import opened ConfigStore
  import opened Install

  /** What `detect_unlocker` reports. */
  datatype Detection = DetectedSteamTools | DetectedGreenLuma | Conflict | NoneDetected

  /** The decision of `detect_unlocker` from what is on disk: the Steam
      directory, its `config/stplug-in` directory and the two GreenLuma
      DLLs. */
  function Detect(steamExists: bool, stPlugIn: bool, dllX86: bool, dllX64: bool): (d: Detection)
    ensures d == Conflict <==> steamExists && stPlugIn && (dllX86 || dllX64)
    ensures d == DetectedSteamTools <==> steamExists && stPlugIn && !dllX86 && !dllX64
    ensures d == DetectedGreenLuma <==> steamExists && !stPlugIn && (dllX86 || dllX64)
    ensures d == NoneDetected <==> !steamExists || (!stPlugIn && !dllX86 && !dllX64)
  {
    if !steamExists then NoneDetected
    else
      var isSteamTools := stPlugIn;
      var isGreenLuma := dllX86 || dllX64;
      if isSteamTools && isGreenLuma then Conflict
      else if isSteamTools then DetectedSteamTools
      else if isGreenLuma then DetectedGreenLuma
      else NoneDetected
  }

  /** The lines of the script, written one after the other: the base line,
      a line per depot in order, then a `setManifestid` line for every
      manifest name that matches. */
  method WriteScript(appId: string, depots: seq<(string, string)>, manifests: seq<string>, floating: bool)
    returns (text: string)
    ensures text == Script(appId, depots, ManifestRefs(manifests), floating)
  {
    text := BaseLine(appId) + "\n";
    assert text == Render([BaseLine(appId)] + DepotLines(depots[..0]));
    for i := 0 to |depots|
      invariant text == Render([BaseLine(appId)] + DepotLines(depots[..i]))
    {
      DepotStep(appId, depots, i);
      text := text + DepotLine(depots[i].0, depots[i].1) + "\n";
    }
    assert depots[..|depots|] == depots;
    var head := [BaseLine(appId)] + DepotLines(depots);
    assert manifests[..0] == [];
    assert head + ManifestLines(ManifestRefs(manifests[..0]), floating) == head;
    for i := 0 to |manifests|
      invariant text == Render(head + ManifestLines(ManifestRefs(manifests[..i]), floating))
    {
      assert manifests[..i + 1] == manifests[..i] + [manifests[i]];
      ManifestRefsSnoc(manifests[..i], manifests[i]);
      var refs := ManifestRefs(manifests[..i]);
      match ManifestRef(manifests[i]) {
        case Some(m) =>
          ManifestStep(head, refs, m, floating);
          text := text + ManifestLine(m.0, m.1, floating) + "\n";
        case None =>
          assert refs + [] == refs;
      }
    }
    assert manifests[..|manifests|] == manifests;
  }

  /** Writing one more `setManifestid` line. */
  lemma ManifestStep(head: seq<string>, refs: seq<(string, string)>, m: (string, string), floating: bool)
    ensures Render(head + ManifestLines(refs + [m], floating)) ==
            Render(head + ManifestLines(refs, floating)) + ManifestLine(m.0, m.1, floating) + "\n"
  {
    var line := ManifestLine(m.0, m.1, floating);
    ManifestLinesSnoc(refs, m, floating);
    assert head + ManifestLines(refs + [m], floating) == (head + ManifestLines(refs, floating)) + [line];
    RenderSnoc(head + ManifestLines(refs, floating), line);
  }

  lemma RenderSnoc(lines: seq<string>, line: string)
    ensures Render(lines + [line]) == Render(lines) + line + "\n"
  {
    RenderAppend(lines, [line]);
    assert Render([line]) == line + "\n" + Render([]);
  }

  /** Writing one more `addappid` line. */
  lemma DepotStep(appId: string, depots: seq<(string, string)>, i: nat)
    requires i < |depots|
    ensures Render([BaseLine(appId)] + DepotLines(depots[..i + 1])) ==
            Render([BaseLine(appId)] + DepotLines(depots[..i])) + DepotLine(depots[i].0, depots[i].1) + "\n"
  {
    var line := DepotLine(depots[i].0, depots[i].1);
    DepotLinesSnoc(depots, i);
    assert [BaseLine(appId)] + DepotLines(depots[..i + 1]) == ([BaseLine(appId)] + DepotLines(depots[..i])) + [line];
    RenderSnoc([BaseLine(appId)] + DepotLines(depots[..i]), line);
  }

  lemma DepotLinesSnoc(depots: seq<(string, string)>, i: nat)
    requires i < |depots|
    ensures DepotLines(depots[..i + 1]) == DepotLines(depots[..i]) + [DepotLine(depots[i].0, depots[i].1)]
  {
    assert depots[..i + 1][..i] == depots[..i];
  }

  lemma ManifestLinesSnoc(refs: seq<(string, string)>, m: (string, string), floating: bool)
    ensures ManifestLines(refs + [m], floating) == ManifestLines(refs, floating) + [ManifestLine(m.0, m.1, floating)]
  {
  }

  /** The key-pattern matches of the Lua files, read in order, collected
      into a dict: `None` when a file cannot be read. */
  method CollectKeys(dir: Dir, written: seq<(string, string)>, names: seq<string>, codecs: Codecs, withFlag: bool)
    returns (r: Option<seq<(string, string)>>)
    ensures r == match ReadAll(dir, written, names, codecs)
      case None => None
      case Some(texts) => Some(PutAll([], Matches(texts, withFlag)))
  {
    var depots: seq<(string, string)> := [];
    ghost var texts: seq<string> := [];
    for i := 0 to |names|
      invariant ReadAll(dir, written, names[..i], codecs) == Some(texts)
      invariant depots == PutAll([], Matches(texts, withFlag))
    {
      assert names[..i + 1][..i] == names[..i];
      var text := ReadLua(dir, written, names[i], codecs);
      if text.None? {
        ReadAllStops(dir, written, names, i + 1, codecs);
        return None;
      }
      var found := ScanKeys(text.value, withFlag);
      ghost var before := Matches(texts, withFlag);
      depots := PutPairs(depots, found);
      PutAllAppend([], before, found);
      ghost var texts' := texts + [text.value];
      assert texts'[..|texts'| - 1] == texts;
      texts := texts';
    }
    assert names[..|names|] == names;
    return Some(depots);
  }

  /** `d[k] = v` for each pair in order. */
  method PutPairs(d: seq<(string, string)>, ps: seq<(string, string)>) returns (r: seq<(string, string)>)
    ensures r == PutAll(d, ps)
  {
    r := d;
    for j := 0 to |ps|
      invariant r == PutAll(d, ps[..j])
    {
      assert ps[..j + 1][..j] == ps[..j];
      r := Put(r, ps[j].0, ps[j].1);
    }
    assert ps[..|ps|] == ps;
  }

  class GuiBackend {
    var unlockerType: Option<Unlocker>
    /** `app_config["steamtools_only_lua"]`. */
    var onlyLua: bool
    /** `app_config["Github_Personal_Token"]`. */
    var token: string
    var stLockManifestVersion: bool
    /** The files the pipeline writes under the Steam directory. */
    var files: Files
    /** The text of `config/config.vdf`; `None` when the file is absent. */
    var config: Option<string>
    /** The files under `./temp_cai_install`, by relative path. */
    var temp: map<string, seq<byte>>

    /** A backend with its settings loaded, no unlocker chosen yet and no
        temporary files. */
    constructor(onlyLua: bool, token: string, files: Files, config: Option<string>)
      ensures unlockerType.None? && !stLockManifestVersion && temp == map[]
      ensures this.onlyLua == onlyLua && this.token == token && this.files == files && this.config == config
    {
      unlockerType := None;
      this.onlyLua := onlyLua;
      this.token := token;
      stLockManifestVersion := false;
      this.files := files;
      this.config := config;
      temp := map[];
    }

    function ModeOf(): Mode
      reads this
    {
      Mode(unlockerType, onlyLua, stLockManifestVersion)
    }

    /** `detect_unlocker`: the decision, recorded in `unlocker_type` only
        when exactly one unlocker was found; a conflict or nothing found
        leaves the previous choice standing. */
    method DetectUnlocker(steamExists: bool, stPlugIn: bool, dllX86: bool, dllX64: bool) returns (d: Detection)
      modifies this
      ensures d == Detect(steamExists, stPlugIn, dllX86, dllX64)
      ensures unlockerType == match d
        case DetectedSteamTools => Some(SteamTools)
        case DetectedGreenLuma => Some(GreenLuma)
        case _ => old(unlockerType)
      ensures onlyLua == old(onlyLua) && token == old(token) && stLockManifestVersion == old(stLockManifestVersion)
      ensures files == old(files) && config == old(config) && temp == old(temp)
    {
      if !steamExists {
        return NoneDetected;
      }
      var isSteamTools := stPlugIn;
      var isGreenLuma := dllX86 || dllX64;
      if isSteamTools && isGreenLuma {
        d := Conflict;
      } else if isSteamTools {
        unlockerType := Some(SteamTools);
        d := DetectedSteamTools;
      } else if isGreenLuma {
        unlockerType := Some(GreenLuma);
        d := DetectedGreenLuma;
      } else {
        d := NoneDetected;
      }
    }

    /** `search_all_repos`: the repositories queried one after the other,
        a hit recorded for each where both lookups answer. */
    method SearchAllRepos(net: Network, appId: string, repos: seq<string>) returns (results: seq<Hit>)
      ensures results == Hits(net.branch, net.tree, GithubHeaders(token), appId, repos)
    {
      results := [];
      for i := 0 to |repos|
        invariant results == Hits(net.branch, net.tree, GithubHeaders(token), appId, repos[..i])
      {
        assert repos[..i + 1][..i] == repos[..i];
        var headers := GithubHeaders(token);
        var r1 := net.branch(BranchUrl(repos[i], appId), headers);
        if r1.Some? && r1.value.commit.Some? {
          var commit := r1.value.commit.value;
          var r2 := net.tree(commit.treeUrl, headers);
          if r2.Some? && r2.value.tree.Some? {
            results := results + [Hit(repos[i], commit.sha, r2.value.tree.value, commit.date)];
          }
        }
      }
      assert repos[..|repos|] == repos;
    }

    /** `get_manifest_from_github` for one file of a repository. */
    method GetManifestFromGithub(net: Network, codecs: Codecs, isCn: bool, sha: string, path: string,
                                 repo: string, appId: string, allManifests: seq<string>)
      returns (r: Result<seq<(string, string)>, TaskError>)
      modifies this
      ensures var run := ManifestTask(old(ModeOf()), old(files), net, codecs, isCn, sha, path, repo, appId, allManifests);
        r == run.result && files == run.files
      ensures ModeOf() == old(ModeOf()) && token == old(token) && config == old(config) && temp == old(temp)
    {
      var autoUpdate := IsSteamTools(ModeOf()) && onlyLua;
      if EndsWith(path, ManifestSuffix) && autoUpdate {
        return Ok([]);
      }
      var content, _ := GetFromUrl(net.raw, isCn, sha, path, repo);
      if content.Err? {
        return Err(DownloadFailed(path));
      }
      r := StoreFetched(codecs, content.value, path, appId, allManifests);
    }

    /** The part of `get_manifest_from_github` after the download. */
    method StoreFetched(codecs: Codecs, content: seq<byte>, path: string, appId: string, allManifests: seq<string>)
      returns (r: Result<seq<(string, string)>, TaskError>)
      requires !(EndsWith(path, ManifestSuffix) && AutoUpdate(ModeOf()))
      modifies this
      ensures var run := Install.StoreFetched(old(ModeOf()), old(files), codecs, content, path, appId, allManifests);
        r == run.result && files == run.files
      ensures ModeOf() == old(ModeOf()) && token == old(token) && config == old(config) && temp == old(temp)
    {
      var depots := [];
      if EndsWith(path, ManifestSuffix) {
        var name := FileName(path);
        files := files[DepotCache(name) := Bytes(content)][ConfigDepotCache(name) := Bytes(content)];
      } else if Contains(ToLower(path), KeyFileMarker) {
        var parsed := KeyFileOf(codecs, content);
        if parsed.None? {
          return Err(BadKeyFile(path));
        }
        depots := parsed.value;
        if IsSteamTools(ModeOf()) && appId != [] {
          var floating := AutoUpdate(ModeOf()) && !stLockManifestVersion;
          var text := WriteScript(appId, depots, allManifests, floating);
          files := files[ScriptPath(appId) := Text(text)];
        }
      }
      return Ok(depots);
    }

    /** `depotkey_merge`: `config.vdf` read, merged and written back, or
        left alone with the result `False`. */
    method DepotkeyMerge(codecs: Codecs, incoming: seq<(string, string)>) returns (ok: bool)
      modifies this
      ensures var run := MergeConfig(old(config), codecs, incoming);
        ok == run.ok && config == run.config
      ensures ModeOf() == old(ModeOf()) && token == old(token) && files == old(files) && temp == old(temp)
    {
      if config.None? {
        return false;
      }
      var doc := codecs.vdfLoads(config.value);
      if doc.None? {
        return false;
      }
      var merged := MergeDoc(doc.value, incoming);
      if merged.Err? {
        return false;
      }
      config := Some(codecs.vdfDumps(merged.value));
      return true;
    }

    /** `greenluma_add`: a marker file per id, in order. */
    method GreenlumaAdd(ids: seq<string>) returns (ok: bool)
      modifies this
      ensures ok && files == AddMarkers(old(files), ids)
      ensures ModeOf() == old(ModeOf()) && token == old(token) && config == old(config) && temp == old(temp)
    {
      for i := 0 to |ids|
        invariant files == AddMarkers(old(files), ids[..i])
        invariant ModeOf() == old(ModeOf()) && token == old(token) && config == old(config) && temp == old(temp)
      {
        assert ids[..i + 1][..i] == ids[..i];
        files := files[MarkerPath(ids[i]) := Text(ids[i])];
      }
      assert ids[..|ids|] == ids;
      return true;
    }

    /** `shutil.copy2` of each manifest of the archive into the depot caches. */
    method InstallManifests(manifests: Dir, both: bool)
      modifies this
      ensures files == Installed(old(files), manifests, both)
      ensures ModeOf() == old(ModeOf()) && token == old(token) && config == old(config) && temp == old(temp)
    {
      for i := 0 to |manifests|
        invariant files == Installed(old(files), manifests[..i], both)
        invariant ModeOf() == old(ModeOf()) && token == old(token) && config == old(config) && temp == old(temp)
      {
        assert manifests[..i + 1][..i] == manifests[..i];
        var name, content := manifests[i].0, manifests[i].1;
        if both {
          files := files[ConfigDepotCache(name) := Bytes(content)][DepotCache(name) := Bytes(content)];
        } else {
          files := files[DepotCache(name) := Bytes(content)];
        }
      }
      assert manifests[..|manifests|] == manifests;
    }

    /** The `.st` files converted to Lua, each failure skipped. */
    static method ConvertStFiles(sts: Dir, codecs: Codecs) returns (written: seq<(string, string)>, added: seq<string>)
      requires AllSt(sts)
      ensures Convert(sts, codecs) == Conversion(written, added)
    {
      written, added := [], [];
      for i := 0 to |sts|
        invariant Convert(sts[..i], codecs) == Conversion(written, added)
      {
        assert sts[..i + 1][..i] == sts[..i];
        var text := ConvertFile(sts[i].1, codecs.inflate, codecs.utf8);
        if text.Ok? {
          var luaPath := LuaName(sts[i].0);
          written := Put(written, luaPath, text.value);
          added := added + [luaPath];
        }
      }
      assert sts[..|sts|] == sts;
    }

    /** `_process_zip_based_manifest`: download, extract, convert, install
        for the unlocker in use; the temporary directory is removed on
        every way out. */
    method ProcessZipBasedManifest(net: Network, codecs: Codecs, appId: string, url: string) returns (ok: bool)
      modifies this
      ensures var run := ZipInstall(old(ModeOf()), old(files), old(config), net, codecs, appId, url);
        ok == run.ok && files == run.files && config == run.config
      ensures temp == map[]
      ensures ModeOf() == old(ModeOf()) && token == old(token)
    {
      var response := net.download(url);
      if !(response.Response? && response.status == 200) {
        temp := map[];
        return false;
      }
      temp := temp[appId + ".zip" := response.body];
      var listing := codecs.unzip(response.body);
      if listing.None? {
        temp := map[];
        return false;
      }
      var dir := PutAll([], listing.value);
      var sts := Glob(dir, StSuffix);
      var written, added := ConvertStFiles(sts, codecs);
      var luaFiles := KeysOf(Glob(dir, LuaSuffix)) + added;
      if IsSteamTools(ModeOf()) {
        ok := InstallForSteamTools(dir, written, luaFiles, codecs, appId);
      } else {
        ok := InstallForGreenLuma(dir, written, luaFiles, codecs, appId);
      }
      temp := map[];
    }

    /** The SteamTools branch of `_process_zip_based_manifest`. */
    method InstallForSteamTools(dir: Dir, written: seq<(string, string)>, luaFiles: seq<string>, codecs: Codecs, appId: string)
      returns (ok: bool)
      modifies this
      ensures var run := SteamToolsInstall(old(ModeOf()), old(files), old(config), dir, written, luaFiles, codecs, appId);
        ok == run.ok && files == run.files && config == run.config
      ensures ModeOf() == old(ModeOf()) && token == old(token) && temp == old(temp)
    {
      var manifests := Glob(dir, ManifestSuffix);
      var autoUpdate := AutoUpdate(ModeOf());
      var floating := autoUpdate && !stLockManifestVersion;
      if !autoUpdate {
        InstallManifests(manifests, true);
      }
      var keys := CollectKeys(dir, written, luaFiles, codecs, true);
      if keys.None? {
        return false;
      }
      var text := WriteScript(appId, keys.value, KeysOf(manifests), floating);
      files := files[ScriptPath(appId) := Text(text)];
      return true;
    }

    /** The GreenLuma branch of `_process_zip_based_manifest`. */
    method InstallForGreenLuma(dir: Dir, written: seq<(string, string)>, luaFiles: seq<string>, codecs: Codecs, appId: string)
      returns (ok: bool)
      modifies this
      ensures var run := GreenLumaInstall(old(files), old(config), dir, written, luaFiles, codecs, appId);
        ok == run.ok && files == run.files && config == run.config
      ensures ModeOf() == old(ModeOf()) && token == old(token) && temp == old(temp)
    {
      var manifests := Glob(dir, ManifestSuffix);
      if manifests == [] {
        return false;
      }
      InstallManifests(manifests, false);
      var keys := CollectKeys(dir, written, luaFiles, codecs, false);
      if keys.None? {
        return false;
      }
      if keys.value != [] {
        var _ := DepotkeyMerge(codecs, keys.value);
        var _ := GreenlumaAdd([appId] + KeysOf(keys.value));
      } else {
        var _ := GreenlumaAdd([appId]);
      }
      return true;
    }
  }
}
