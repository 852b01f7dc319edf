# Cai Install: the unlock pipeline, modelled in Dafny

Cai Install is a desktop tool that prepares Steam unlock files for a game.
It uses either of two unlockers:

- **SteamTools**, which is driven by Lua scripts under `config/stplug-in`;
- **GreenLuma**, which is driven by `AppList/<id>.txt` marker files and by
  depot keys merged into `config/config.vdf`.

The user enters app ids or store links and picks a source:

- one of five archive sites, each serving a zip per app;
- one of two GitHub manifest repositories;
- a search of both GitHub repositories, which uses the most recently
  updated hit.

The pipeline resolves every input to an app id. For a GitHub repository
and for the search it then runs two preflights: a region probe that chooses
between mainland-China mirrors and GitHub's raw host, and the GitHub
rate-limit check, which stops the batch when it fails. An archive site has
no preflight. Then the pipeline installs each app.

- **Archives**: an archive is downloaded and unpacked. Its `.st` containers
  are converted to Lua, its manifests are copied into the depot caches, and
  its depot keys are collected. For SteamTools the keys go into
  `<app_id>.lua`; for GreenLuma they go into `config.vdf` and `AppList`.
- **GitHub**: each file of the app's branch is fetched by its own task:
  - a manifest is stored in both depot caches;
  - a `key.vdf` yields depot keys (and, for SteamTools, the script);
  - for GreenLuma the pipeline then registers the ids and merges the keys.

## The model

The two source files are `backend_gui.py` (class `GuiBackend`, plus the
`.st` converter) and `frontend_gui.py` (class `CaiInstallGui`). Both mix pure
decisions with state changes, and the model keeps that split:

- **Classes for the mutable state.** `Backend.GuiBackend` holds the unlocker
  type, the settings, the files written under the Steam directory, the text
  of `config.vdf` and the temporary directory. `Frontend.CaiInstallGui`
  holds its backend. Their methods update those fields step by step, with
  the source's loops.
- **Functions for the specification.** Every method is proved against a
  function of the state it starts from (`ManifestTask`, `ZipInstall`,
  `GithubRepoRun`, `DispatchBatch`, `StartedRun`, …). Lemmas prove what the
  source promises about those functions.

Modules, in dependency order:

- `Wrappers`: `Option` and `Result`.
- `Strings`: the Python string operations the pipeline uses: `isdigit`,
  `strip`, `split`, `endswith`, `in`, `lower` and the file name of a path.
- `Seqs`: Python lists and insertion-ordered dicts. `list(dict.fromkeys(…))`
  becomes `Dedup`, `d[k] = v` becomes `Put`, and `update` becomes `PutAll`.
- `StContainer`: the `.st` container and `parse_st_file`.
- `AppIds`: `extract_app_id`.
- `Mirrors`: `get_from_url`.
- `GitHub`: headers, preflights, branch and tree lookups, and the
  newest-first sort.
- `Scanners`: the three regular expressions, as hand-written scanners.
- `LuaScript`: the text of `<app_id>.lua`.
- `ConfigStore`: `config.vdf` documents, `depotkey_merge`'s merge and
  `key.vdf` files.
- `Install`: a GitHub file task, an archive installation, the config merge
  and the GreenLuma markers, all as functions.
- `Backend`: the class `GuiBackend`.
- `Frontend`: the input parsing, the dispatch and the class `CaiInstallGui`.

The outside world is passed in as parameters:

- `Install.Network` bundles the answers to every request. It holds the
  rate-limit and region probes, the branch, tree and raw-file lookups by
  URL, and the archive downloads.
- `Install.Codecs` bundles zlib's inflate, UTF-8 decoding, `vdf.loads` and
  `vdf.dumps`, and unzipping.

## Model

| member | source | states |
|---|---|---|
| StContainer.LeBytes | backend_gui.py:44 | the four bytes of a header word, which read back as that word (`LeBytesRoundTrip`) |
| StContainer.XorBytes | backend_gui.py:49-50 | every byte of the payload is XORed with the stream key, and the length is kept |
| StContainer.DropPrefix | backend_gui.py:52 | `[512:]`: the first 512 bytes are dropped, and a shorter buffer gives the empty buffer |
| StContainer.StreamKey | backend_gui.py:45-46 | the XOR key, `(raw_key ^ 0xFFFEA4C8) & 0xFF`; its contract is StreamKeyFromLowByte |
| StContainer.DeclaredSize | backend_gui.py:44-47 | the second little-endian header word, the payload length sliced at line 47; its contract is SameHeader, DecodeComplete and EncodedHeader |
| StContainer.Decode | backend_gui.py:40-54 | a header-length error exactly when there are fewer than 12 bytes; a truncated-payload error exactly when fewer than `size` bytes follow the header; on success the text comes from XOR, inflate, dropping the first 512 bytes and UTF-8, and the metadata is the stream key and the size |
| StContainer.Unpack | backend_gui.py:47-52 | the payload stage never reports a header error, and reports truncation exactly when the payload is shorter than `size` |
| StContainer.ParseStFile | backend_gui.py:40-54 | the header is read, and the XOR is applied in place by a loop over the payload; the result equals `Decode` |
| StContainer.ConvertFile | backend_gui.py:32-38 | the text of `parse_st_file` on success; otherwise its error, re-raised unchanged |
| StContainer.StreamKeyFromLowByte | backend_gui.py:44-46 | the stream key `(raw ^ 0xFFFEA4C8) & 0xFF` depends only on the first byte of the file: it is that byte XOR 0xC8 |
| StContainer.LeBytesRoundTrip | backend_gui.py:44 | reading back four little-endian bytes gives the word |
| StContainer.XorInvolutive | backend_gui.py:49-50 | XOR with the stream key is its own inverse |
| StContainer.DecodeIgnoresTrailing | backend_gui.py:47 | only bytes 12 to 12+size are read: trailing bytes never change the result |
| StContainer.DecodeComplete | backend_gui.py:47-48 | when the whole payload is present, decoding is the payload stage applied to exactly that slice |
| StContainer.SameHeader | backend_gui.py:43-44 | two buffers with the same 12 leading bytes have the same key and size |
| StContainer.Encode | backend_gui.py:43-47 | a container built from a key, a size field, a reserved word and a payload has length 12 plus the payload length |
| StContainer.DecodeEncoded | backend_gui.py:40-54 | a container whose size field states its payload length decodes to the inflated, prefix-stripped text, whatever follows it |
| StContainer.EncodedHeader | backend_gui.py:44 | the header of a built container holds the given raw key and size |
| AppIds.DigitRun | backend_gui.py:193 | `\d+` is greedy: the run is all digits and is followed by a non-digit or the end |
| AppIds.SearchFrom | backend_gui.py:194 | `re.search`: the leftmost position where the pattern is followed by a digit; none exists before it, and `None` means none exists at all |
| AppIds.Capture | backend_gui.py:193-194 | the search succeeds exactly when the pattern followed by a digit occurs somewhere in the input |
| AppIds.CaptureSpec | backend_gui.py:193-194 | the group is the maximal digit run taken from the input right after the leftmost such occurrence |
| AppIds.ExtractAppId | backend_gui.py:192-195 | `extract_app_id`: the store link's id, else the SteamDB link's id, else the input itself when it is all digits, else nothing; its contract is ExtractAppIdDigits, DigitStringResolvesToItself, ExtractAppIdNone and StoreLinkResolves |
| AppIds.ExtractAppIdDigits | backend_gui.py:192-195 | whatever is resolved is a non-empty string of digits |
| AppIds.DigitStringResolvesToItself | backend_gui.py:195 | a bare id resolves to itself |
| AppIds.ExtractAppIdNone | backend_gui.py:192-195 | nothing is resolved exactly when neither link form matches and the input is not all digits; the empty input gives `None` |
| AppIds.StoreLinkResolves | backend_gui.py:193-194 | a store link resolves to the id that follows its first matching occurrence, whatever text follows the id |
| Mirrors.Candidates | backend_gui.py:181 | two mirror URLs in mainland China, otherwise one GitHub raw URL; each ends with `/<path>` |
| Mirrors.FirstOk | backend_gui.py:182-189 | the first candidate answering 200, with every earlier one failing; `None` exactly when none answers 200 |
| Mirrors.Fetched | backend_gui.py:180-190 | the download fails exactly when every candidate fails, and then with the all-mirrors error for the path |
| Mirrors.GetFromUrl | backend_gui.py:180-190 | tries the candidates strictly in order and stops at the first 200; it makes between 1 and all of the attempts, makes all of them on failure, and its result equals `Fetched` |
| Mirrors.FirstOkUnique | backend_gui.py:182-186 | a 200 answer preceded only by failures is the one used |
| GitHub.GithubHeaders | backend_gui.py:135-136 | no headers exactly when the token is empty; otherwise one `Authorization: Bearer <token>` header |
| GitHub.HeadersCarryToken | backend_gui.py:135-136 | the headers carry exactly the configured token |
| GitHub.RateVerdict | backend_gui.py:138-153 | proceed exactly when the query answered and `resources.core.remaining` is present and not 0 |
| GitHub.IsCn | backend_gui.py:155-165 | `IS_CN` is `no` exactly when the probe answered with a false flag; a failed probe means mainland mirrors |
| GitHub.BranchUrl | backend_gui.py:202 | `https://api.github.com/repos/<repo>/branches/<app_id>` (also line 442 of frontend_gui.py); used by HitFor and RepoTree |
| GitHub.HitFor | backend_gui.py:201-206 | a repository gives a hit exactly when the branch lookup has a `commit` and the tree lookup has a `tree`; the hit records the repo, sha, tree and author date |
| GitHub.Hits | backend_gui.py:197-208 | `search_all_repos`: the hit of each repository with a branch and a tree, in repository order; its contract is HitsSpec |
| GitHub.HitsSpec | backend_gui.py:197-208 | every repository with a hit contributes that hit, every recorded hit is the hit of a repository that was searched, and the hits keep the order of the repositories |
| GitHub.LexLtIrreflexive | frontend_gui.py:431 | Python's string `<` is irreflexive |
| GitHub.LexLtTransitive | frontend_gui.py:431 | Python's string `<` is transitive |
| GitHub.LexLtTotal | frontend_gui.py:431 | Python's string `<` is total |
| GitHub.LexLtAsymmetric | frontend_gui.py:431 | Python's string `<` is asymmetric |
| GitHub.NotOlder | frontend_gui.py:431 | the sort key compared: a hit's update date is not smaller than the other's; its contract is NotOlderTransitive and NotOlderTotal |
| GitHub.NotOlderTransitive | frontend_gui.py:431 | "not older than" on update dates is transitive |
| GitHub.NotOlderTotal | frontend_gui.py:431 | "not older than" on update dates is total |
| GitHub.Insert | frontend_gui.py:431 | one insertion step of the stable newest-first sort; its contract is InsertMembers and InsertSpec |
| GitHub.NewestFirst | frontend_gui.py:431 | `sort(key=update_date, reverse=True)` as a stable insertion sort; its contract is NewestFirstSpec and NewestFirstHead |
| GitHub.InsertMembers | frontend_gui.py:431 | an insertion step keeps exactly the elements |
| GitHub.HeadNotOlder | frontend_gui.py:431 | in newest-first order the head is not older than any later hit |
| GitHub.InsertSpec | frontend_gui.py:431 | an insertion step keeps the newest-first order and the multiset of hits |
| GitHub.NewestFirstSpec | frontend_gui.py:431 | `sort(key=update_date, reverse=True)`: the result is newest first and is a permutation of the hits |
| GitHub.NewestIndex | frontend_gui.py:431-432 | the first hit with the latest update date: no hit is newer, and no earlier hit is as new |
| GitHub.NewestFirstHead | frontend_gui.py:431-432 | the stable sort puts first the earliest hit, in search order, with the latest date |
| Scanners.ManifestMatch | backend_gui.py:342 | a match at the start of the name gives a digit depot id and a non-empty word-character manifest id |
| Scanners.ManifestRef | backend_gui.py:342 | `re.search(r'(\d+)_(\w+)\.manifest', name)`: the leftmost match's groups, which have the same shapes |
| Scanners.ManifestRefs | backend_gui.py:239-240 | the matching names in order, at most one pair per name (also lines 341-343 of backend_gui.py) |
| Scanners.ManifestNameRoundTrip | backend_gui.py:342 | the name `<depot>_<manifest>.manifest…` gives back exactly its two parts |
| Scanners.ManifestMatchOf | backend_gui.py:342 | the match at the start of such a name takes the two maximal runs |
| Scanners.ManifestRefsSpec | backend_gui.py:239-240 | every matching name contributes its groups (also lines 341-343 of backend_gui.py) |
| Scanners.ManifestRefsSnoc | backend_gui.py:239-240 | names are read one at a time, so appending a name appends its groups, if any (also lines 341-343 of backend_gui.py) |
| Scanners.ManifestRefsWellFormed | backend_gui.py:239-240 | every pair has a digit depot id and a word-character manifest id (also lines 341-343 of backend_gui.py) |
| Scanners.KeyPart | backend_gui.py:333 | `\s*"([^"]+)"\)`: a non-empty key without a quote, and the length matched |
| Scanners.FlagPart | backend_gui.py:333 | the SteamTools form needs `\s*1,` before the key part; the GreenLuma form does not (also line 362 of backend_gui.py) |
| Scanners.IdPart | backend_gui.py:333 | a non-empty digit group, then a comma, then the flag part (also line 362 of backend_gui.py) |
| Scanners.KeyMatch | backend_gui.py:333 | a match at the start of the text has a non-empty id, a non-empty key without a quote, and a positive length (also line 362 of backend_gui.py) |
| Scanners.KeyMatchDigits | backend_gui.py:333 | the captured depot id is a string of digits (also line 362 of backend_gui.py) |
| Scanners.ScanKeys | backend_gui.py:333 | `re.finditer` of the key pattern, with or without the `1,` flag, resuming after each match (also line 362 of backend_gui.py); its contract is ScanKeysHit, ScanKeysSkip, ScanKeysNone and ScanKeysWellFormed |
| Scanners.ScanKeysHit | backend_gui.py:333 | `re.finditer`: a match at the front is reported first, and the scan resumes after it (also line 362 of backend_gui.py) |
| Scanners.ScanKeysWellFormed | backend_gui.py:333-334 | every pair found has a digit id and a non-empty key without a quote (also lines 362-363 of backend_gui.py) |
| Scanners.KeyPatternsDisjoint | backend_gui.py:333 | the SteamTools and GreenLuma key patterns never match at the same place (also line 362 of backend_gui.py) |
| Scanners.ScanKeysNone | backend_gui.py:333 | text without `addappid(` yields no pairs (also line 362 of backend_gui.py) |
| Scanners.ScanKeysSkip | backend_gui.py:333 | a text that does not start with `a` is scanned from its second character (also line 362 of backend_gui.py) |
| LuaScript.DepotLine | backend_gui.py:237 | `addappid(<id>, 1, "<key>")` (also line 339 of backend_gui.py); its contract is DepotLineMatch and ScanDepotLine |
| LuaScript.BaseLine | backend_gui.py:236 | `addappid(<app_id>, 1, "None")` (also line 337 of backend_gui.py); its contract is ScriptLayout and ScriptReadsBack |
| LuaScript.ManifestLine | backend_gui.py:241-245 | `setManifestid(<depot>, "<manifest>")`, prefixed with `--` when floating (also lines 344-348 of backend_gui.py); its contract is ScriptLayout and ManifestLinesParens |
| LuaScript.DepotLines | backend_gui.py:237 | one `addappid(<id>, 1, "<key>")` line per depot, in order (also line 339 of backend_gui.py) |
| LuaScript.ManifestLines | backend_gui.py:239-245 | one `setManifestid` line per manifest pair, in order, each prefixed with `--` when floating (also lines 341-348 of backend_gui.py) |
| LuaScript.Render | backend_gui.py:235-245 | the lines written one by one, each followed by a newline; its contract is RenderJoin, RenderSplit and RenderAppend |
| LuaScript.Script | backend_gui.py:235-245 | the text of `<app_id>.lua`: base line, depot lines, manifest lines (also lines 336-348 of backend_gui.py); its contract is ScriptLayout and ScriptReadsBack |
| LuaScript.ScriptLayout | backend_gui.py:229-246 | the base line first, then the depot lines; a line starts with `--` exactly when floating and it is a manifest line |
| LuaScript.RenderJoin | backend_gui.py:235-245 | the file text is the lines joined by `\n`, with a final `\n` |
| LuaScript.RenderSplit | backend_gui.py:235-245 | splitting the text at `\n` gives back the lines, followed by an empty piece |
| LuaScript.RenderAppend | backend_gui.py:235-245 | writing two groups of lines one after the other writes their concatenation |
| LuaScript.DepotLineMatch | backend_gui.py:237 | a written depot line is one whole match of the SteamTools key pattern, with its id and key (also line 333 of backend_gui.py) |
| LuaScript.ScanDepotLines | backend_gui.py:237 | the depot lines read back as the depots, in order (also line 333 of backend_gui.py) |
| LuaScript.ScanDepotLine | backend_gui.py:237 | one depot line and its newline read back as that depot's pair (also line 333 of backend_gui.py) |
| LuaScript.NoAddAppId | backend_gui.py:241-245 | `setManifestid` lines contain no `addappid(` |
| LuaScript.ManifestLinesParens | backend_gui.py:239-245 | the manifest lines contain no `addappid(` start |
| LuaScript.ScriptReadsBack | backend_gui.py:229-246 | reading a written script with the SteamTools key pattern gives `(app_id, "None")` followed by exactly the depots, whatever the manifests and the floating mode (also line 333 of backend_gui.py) |
| ConfigStore.GetOr | backend_gui.py:254 | `.get(k, {})` on a dict gives the value or an empty dict; on a string it raises |
| ConfigStore.SteamSection | backend_gui.py:254-255 | the chosen section is `Valve` or `valve`, and it is truthy |
| ConfigStore.SteamSectionSpec | backend_gui.py:254-255 | `Valve` is chosen when it is truthy; `valve` only when `Valve` is not; otherwise the merge is refused |
| ConfigStore.DepotEntries | backend_gui.py:366 | each pair becomes `id: {'DecryptionKey': key}`, in order (also line 459 of frontend_gui.py) |
| ConfigStore.MergeDepots | backend_gui.py:256 | `steam.setdefault('depots', {}).update(...)` on the Steam section, refused where a string stands for a dict; it is the step of MergeDoc that MergeDocSpec and MergeDocFails describe |
| ConfigStore.MergeDoc | backend_gui.py:253-257 | the document `depotkey_merge` writes back, or why it returns False; its contract is MergeDocFails, MergeDocSpec and MergeDocIdempotent |
| ConfigStore.MergeDocFails | backend_gui.py:254-256 | the merge is refused exactly when no truthy section is found (a string on the way to it counts as none), the section is a string, or its `depots` entry is a string |
| ConfigStore.MergeDocSpec | backend_gui.py:256 | a successful merge changes only the chosen section's `depots`; each incoming id takes its last key, and every other depot keeps its value |
| ConfigStore.PutKeyOrder | backend_gui.py:256 | assigning a key the dict already holds keeps the key order |
| ConfigStore.LastValueEntries | backend_gui.py:256 | the last entry written for an id carries the last key given for it |
| ConfigStore.MergeDocIdempotent | backend_gui.py:249-260 | merging the same depots a second time changes nothing |
| ConfigStore.OldDepotsDistinct | backend_gui.py:256 | in a well-formed document the section's depot ids are distinct |
| ConfigStore.LookupWellFormed | backend_gui.py:254 | a value found in a well-formed dict is well formed |
| ConfigStore.DepotKey | backend_gui.py:228 | `info['DecryptionKey']` when `info` is a dict holding a string there, otherwise nothing; it is the value KeyPairs and KeyFileDepots promise pointwise |
| ConfigStore.KeyFileDepots | backend_gui.py:227-228 | `Some` exactly when the document and its `depots` are dicts and every depot entry has a string `DecryptionKey`; then one `(id, DecryptionKey)` pair per depot entry, in order |
| ConfigStore.KeyPairs | backend_gui.py:228 | `Some` exactly when every entry has a string `DecryptionKey`; then the pair of each entry's id and that key, one per entry, in order |
| ConfigStore.KeyPairsOfEntries | backend_gui.py:228 | entries of the shape the merge writes read back as their pairs (also line 366 of backend_gui.py) |
| ConfigStore.KeyFileRoundTrip | backend_gui.py:226-228 | a key file with `depots` in the merge's shape reads back as exactly its pairs |
| Install.IsSteamTools | backend_gui.py:132-133 | `is_steamtools`: the detected unlocker is SteamTools; it selects the branch in WithScript, SteamToolsInstall/GreenLumaInstall and AfterTasks |
| Install.AutoUpdate | backend_gui.py:300 | `is_st_auto_update_mode`: SteamTools with `steamtools_only_lua` set (also line 211 of backend_gui.py); its contract is ManifestTaskSkips and ZipSteamTools |
| Install.Floating | backend_gui.py:301 | `is_floating_version`: auto-update mode without a locked manifest version (also line 233 of backend_gui.py); its contract is ScriptLayout and StartMode |
| Install.Classify | backend_gui.py:220-226 | a `.manifest` path first, else `key.vdf` in the lower-cased path, else any other file; its contract is ManifestTaskKeyFile and ManifestTaskOther |
| Install.KeyFileOf | backend_gui.py:227-228 | UTF-8 decode, `vdf.loads`, then the depot pairs, nothing where any step raises; its contract is ManifestTaskKeyFile and ManifestTaskKeyRun |
| Install.StoreFetched | backend_gui.py:217-247 | what a task does with the fetched bytes; its contract is StoreFetchedFrame and StoreFetchedCopies |
| Install.WithScript | backend_gui.py:229-246 | `<app_id>.lua` written for SteamTools and a non-empty app id, otherwise nothing; its contract is WithScriptReadsBack and WithScriptFrame |
| Install.ManifestTask | backend_gui.py:210-247 | `get_manifest_from_github` on the files it starts from: the depots returned or the error raised, and the files after it; its contract is the ManifestTask lemmas below |
| Install.ManifestTaskSkips | backend_gui.py:211-214 | in auto-update mode a manifest is skipped before any fetch: no depots, no writes, the same whatever the network |
| Install.ManifestTaskFetchFails | backend_gui.py:216 | any other file is fetched first; when every mirror fails that task raises and writes nothing (also lines 180-190 of backend_gui.py) |
| Install.ManifestTaskStores | backend_gui.py:220-225 | a fetched manifest is stored under its base name in `depotcache` and `config/depotcache`; every other file is unchanged and no depots are reported |
| Install.ManifestTaskCopies | backend_gui.py:220-225 | the directory after a fetched manifest is the old one with both copies written |
| Install.ManifestTaskKeyFile | backend_gui.py:226-246 | a key file yields its pairs. For SteamTools with an app id it writes `<app_id>.lua`, which reads back as the base pair followed by those pairs; otherwise nothing is written |
| Install.ManifestTaskKeyRun | backend_gui.py:226-246 | a decoded key file reports its pairs and writes the script, if any |
| Install.WithScriptReadsBack | backend_gui.py:229-246 | the script is present exactly for SteamTools with an app id, and it reads back as the base pair followed by the depots |
| Install.ManifestTaskOther | backend_gui.py:216-247 | a file that is neither a manifest nor a key file is fetched, contributes nothing and writes nothing |
| Install.ManifestTaskFrame | backend_gui.py:210-247 | a task writes at most the two manifest copies and the script |
| Install.StoreFetchedFrame | backend_gui.py:220-246 | after the fetch, nothing but the two copies and the script is written |
| Install.StoreFetchedCopies | backend_gui.py:220-225 | after the fetch, a manifest writes exactly its two copies |
| Install.WithScriptFrame | backend_gui.py:229-246 | writing the script leaves every other file alone |
| Install.MergeConfig | backend_gui.py:249-260 | `depotkey_merge` on the text of `config.vdf`: False without the file, on a parse failure or without a Steam section; its contract is MergeConfigSpec and MergeConfigTwice |
| Install.MergeConfigSpec | backend_gui.py:249-260 | `config.vdf` is rewritten exactly when the merge succeeds, and then holds the dump of the merged document; with no file, or a file that cannot be parsed, the result is `False` and nothing changes |
| Install.MergeConfigTwice | backend_gui.py:249-260 | with an exact reader and writer, merging the same keys twice gives the same file as merging once |
| Install.AddMarkers | backend_gui.py:262-268 | `greenluma_add`: `AppList/<id>.txt` holding the id, for each id in order; its contract is AddMarkersHas and AddMarkersKeeps |
| Install.AddMarkersHas | backend_gui.py:262-268 | every id has `AppList/<id>.txt`, and the file holds the id |
| Install.AddMarkersKeeps | backend_gui.py:262-268 | a file that is no id's marker is unchanged |
| Install.MarkerPathInjective | backend_gui.py:264 | distinct ids have distinct marker files |
| Install.Extracted | backend_gui.py:274-283 | the archive's files, or nothing when the download fails, is not status 200 or is not a readable zip; its contract is ZipNeedsArchive |
| Install.Glob | backend_gui.py:285-287 | exactly the archive's files whose names end with the suffix, in listing order |
| Install.LuaName | backend_gui.py:291 | `with_suffix('.lua')` of an `.st` name ends with `.lua` |
| Install.LuaNameStem | backend_gui.py:291 | `<stem>.st` becomes `<stem>.lua` |
| Install.Convert | backend_gui.py:289-298 | each `.st` file converted to its `.lua` sibling, a file that fails to convert skipped; its contract is ConvertTolerant |
| Install.ConvertTolerant | backend_gui.py:289-298 | a failed conversion does not stop the others: every decodable `.st` file gets a Lua name, every added name comes from one, and no more names are added than there are files |
| Install.ReadAll | backend_gui.py:331-332 | one text per Lua file, in order (also lines 360-361 of backend_gui.py) |
| Install.ReadAllStops | backend_gui.py:331-332 | a file that cannot be read stops the whole collection (the exception leaves the function) (also lines 360-361 of backend_gui.py) |
| Install.Matches | backend_gui.py:331-334 | every key match of the Lua texts, file by file (also lines 360-363 of backend_gui.py); its contract is CollectedSpec and MatchesWellFormed |
| Install.CollectedSpec | backend_gui.py:330-334 | `all_depots[id] = key`: the ids in first-seen order, each with the key of its last match, a later file overriding an earlier one (also lines 359-363 of backend_gui.py) |
| Install.MatchesWellFormed | backend_gui.py:333 | every match has a digit id and a non-empty key without a quote (also line 362 of backend_gui.py) |
| Install.Installed | backend_gui.py:316-321 | the manifests copied to both caches or to `depotcache` only (also line 356 of backend_gui.py); its contract is InstalledSpec |
| Install.InstalledSpec | backend_gui.py:316-321 | each manifest name holds the bytes of its last copy in `depotcache`, and also in `config/depotcache` for SteamTools; every other file is unchanged (also line 356 of backend_gui.py) |
| Install.ZipInstall | backend_gui.py:270-374 | `_process_zip_based_manifest` on the state it starts from; its contract is ZipNeedsArchive, ZipGreenLumaNeedsManifest, ZipSteamTools and ZipGreenLuma |
| Install.SteamToolsInstall | backend_gui.py:303-350 | the SteamTools branch of an archive install; its contract is ZipSteamTools |
| Install.GreenLumaInstall | backend_gui.py:351-370 | the GreenLuma branch of an archive install; its contract is ZipGreenLumaNeedsManifest and ZipGreenLuma |
| Install.ZipNeedsArchive | backend_gui.py:274-276 | without an archive (a failed or non-200 download, or an unreadable zip) nothing is installed and the result is failure (also lines 283, 371-372 of backend_gui.py) |
| Install.ZipGreenLumaNeedsManifest | backend_gui.py:354 | for GreenLuma an archive without a manifest fails, and nothing is written |
| Install.ZipSteamTools | backend_gui.py:303-350 | for SteamTools the run succeeds exactly when the Lua files can be read; `config.vdf` is untouched; the manifests are copied to both caches unless in auto-update mode, and nothing else but `<app_id>.lua` is written; the script reads back as `(app_id, "None")` followed by the collected keys, one per depot id |
| Install.RegisterSpec | backend_gui.py:367 | `greenluma_add([app_id] + ids)` leaves a marker for the app and for every id (also line 458 of frontend_gui.py) |
| Install.ZipGreenLuma | backend_gui.py:351-370 | a successful GreenLuma run had manifests and readable Lua files; the files are exactly the manifests copied to `depotcache` plus a marker for the app and each depot found (only the app without keys); the keys are merged into `config.vdf` exactly when there are keys |
| Backend.Detect | backend_gui.py:118-130 | each of the four verdicts holds exactly when its condition on the Steam directory, `stplug-in` and the two DLLs holds |
| Backend.WriteScript | backend_gui.py:235-245 | the lines are written one at a time by loops, and the text equals `Script` over the matching manifest names (also lines 337-348 of backend_gui.py) |
| Backend.CollectKeys | backend_gui.py:330-334 | the Lua files are read and scanned in order by a loop; the result is the dict of all matches, or `None` when a file cannot be read (also lines 359-363 of backend_gui.py) |
| Backend.PutPairs | backend_gui.py:334 | assigns the pairs one at a time, and the result equals `PutAll` (also line 363 of backend_gui.py) |
| Backend.GuiBackend.constructor | backend_gui.py:57-64 | no unlocker, floating versions not locked, no temporary files; the settings as given |
| Backend.GuiBackend.DetectUnlocker | backend_gui.py:118-130 | returns `Detect`; records the unlocker only when exactly one is found; changes nothing else |
| Backend.GuiBackend.SearchAllRepos | backend_gui.py:197-208 | queries the repositories in order with the token's headers; the results equal `Hits` |
| Backend.GuiBackend.GetManifestFromGithub | backend_gui.py:210-247 | its result and the files afterwards are those of `ManifestTask`; the settings and `config.vdf` are unchanged |
| Backend.GuiBackend.StoreFetched | backend_gui.py:217-247 | the handling after the download equals `Install.StoreFetched` |
| Backend.GuiBackend.DepotkeyMerge | backend_gui.py:249-260 | its result and `config.vdf` are those of `MergeConfig`; the files are unchanged |
| Backend.GuiBackend.GreenlumaAdd | backend_gui.py:262-268 | returns `True`, and the files are `AddMarkers` of the ids, written in order |
| Backend.GuiBackend.InstallManifests | backend_gui.py:316-321 | the copies, in order, equal `Installed` (also line 356 of backend_gui.py) |
| Backend.GuiBackend.ConvertStFiles | backend_gui.py:289-298 | the loop over the `.st` files equals `Convert` |
| Backend.GuiBackend.ProcessZipBasedManifest | backend_gui.py:270-374 | its result, files and `config.vdf` are those of `ZipInstall`, and the temporary directory is empty on every way out |
| Backend.GuiBackend.InstallForSteamTools | backend_gui.py:303-350 | equals `SteamToolsInstall` |
| Backend.GuiBackend.InstallForGreenLuma | backend_gui.py:351-370 | equals `GreenLumaInstall` |
| Frontend.ParseInput | frontend_gui.py:382-384 | `None` exactly when the stripped input is empty; otherwise at least one item |
| Frontend.StripAll | frontend_gui.py:384 | each piece is stripped, in order |
| Frontend.ParseInputItems | frontend_gui.py:382-384 | every item is free of commas, and is empty or starts and ends with a character other than whitespace |
| Frontend.ParseJoin | frontend_gui.py:382-384 | ids written with commas read back as exactly those ids |
| Frontend.JoinedIdsSplit | frontend_gui.py:384 | ids joined with commas split back into the ids |
| Frontend.Resolved | frontend_gui.py:397-398 | the ids the items resolve to, in order, unresolvable items dropped; its contract is ResolvedSpec |
| Frontend.ResolvedSpec | frontend_gui.py:395-399 | an id is resolved exactly when some item resolves to it, and every resolved id is a string of digits |
| Frontend.ResolveAppIds | frontend_gui.py:395-400 | a loop resolves the items one after the other and keeps each id once, at its first position |
| Frontend.BatchIds | frontend_gui.py:395-400 | the batch has the ids some item resolves to, each once, in the order they are first resolved |
| Frontend.ResolvedIds | frontend_gui.py:397-398 | bare ids resolve to themselves |
| Frontend.RepeatedIdOnce | frontend_gui.py:400 | `a,a,b` gives the batch `[a, b]` |
| Frontend.IsGithub | frontend_gui.py:406 | a source value that is none of the five archive sites (also line 424 of frontend_gui.py); its contract is ArchiveUrl and GithubValuesSpec |
| Frontend.ArchiveUrl | frontend_gui.py:406 | an archive URL exactly for the five archive sources (also lines 412-416 of frontend_gui.py) |
| Frontend.GithubValues | frontend_gui.py:424 | the values of the box's GitHub entries, in order; its contract is GithubValuesSpec and GithubReposAre |
| Frontend.GithubValuesSpec | frontend_gui.py:424 | exactly the values of the box's entries that are not archive sources are kept |
| Frontend.GithubReposAre | frontend_gui.py:172-174 | the search covers the two GitHub repositories, in the order of the box (also line 424 of frontend_gui.py) |
| Frontend.ManifestPaths | frontend_gui.py:447 | the tree's `.manifest` paths in tree order; its contract is ManifestPathsSpec |
| Frontend.ManifestPathsSpec | frontend_gui.py:447 | the script's manifest list holds the path of every `.manifest` entry of the tree and nothing else |
| Frontend.RunTasks | frontend_gui.py:448-449 | one result per tree entry |
| Frontend.ManifestTaskResult | backend_gui.py:210-247 | a task's result does not depend on the files it finds |
| Frontend.RunTasksResults | frontend_gui.py:448-449 | each result is the one its task has on its own, so the results do not depend on the order the concurrent tasks run in |
| Frontend.RunTasksResultAt | frontend_gui.py:448-449 | the result of task `i` is that task run alone |
| Frontend.RunTasksSnoc | frontend_gui.py:448-449 | running `i + 1` entries is running the first `i`, then the next task on the files they left |
| Frontend.Aggregate | frontend_gui.py:450-453 | the depots of all tasks in order, or nothing at the first failed task; its contract is AggregateSpec |
| Frontend.AggregateSpec | frontend_gui.py:451-453 | aggregation fails exactly when some task failed; otherwise it holds exactly the pairs all tasks returned |
| Frontend.RepoTree | frontend_gui.py:439-446 | the search hit when given, else the branch and tree lookups; its contract is GithubRepoOk |
| Frontend.AfterTasks | frontend_gui.py:450-460 | what `process_github_repo` does once all tasks ran; its contract is AfterTasksOk and AfterTasksGreenLuma |
| Frontend.GithubRepoRun | frontend_gui.py:437-461 | `process_github_repo` on the state it starts from; its contract is GithubRepoOk, GithubSteamTools and GithubGreenLuma |
| Frontend.GithubRepoOk | frontend_gui.py:437-461 | a repository succeeds exactly when its tree is found, is not empty, and every file's task succeeds |
| Frontend.AfterTasksOk | frontend_gui.py:450-460 | the step after all tasks succeeds exactly when every task did and the tree is not empty |
| Frontend.GithubSteamTools | frontend_gui.py:456 | for SteamTools nothing is written after all tasks, and `config.vdf` is untouched |
| Frontend.GithubGreenLuma | frontend_gui.py:450-460 | for GreenLuma a successful run with keys adds exactly a marker for the app and every depot and merges the keys; without keys it writes nothing more; this holds for a search hit and for a repo looked up directly |
| Frontend.AfterTasksGreenLuma | frontend_gui.py:450-460 | the same facts about the GreenLuma step given any task outcome |
| Frontend.Collect | frontend_gui.py:451-453 | the loop over the results equals `Aggregate` |
| Frontend.SortNewestFirst | frontend_gui.py:431 | equals `NewestFirst` |
| Frontend.ProcessApp | frontend_gui.py:410-435 | one app of a batch: an archive source, a GitHub repository, or the newest search hit; its contract is SearchPicksNewest |
| Frontend.SearchPicksNewest | frontend_gui.py:429-434 | a search with no hits changes nothing and reports not found; otherwise it processes the first hit, in search order, with the newest update |
| Frontend.Batch | frontend_gui.py:410-419 | one outcome per app id |
| Frontend.BatchSnoc | frontend_gui.py:410-419 | the apps run one after the other, each on the state the previous one left |
| Frontend.BatchFound | frontend_gui.py:410-419 | processing from a named source never reports "not found" |
| Frontend.UsesGithub | frontend_gui.py:406-409 | the search or a GitHub repository, the sources that run the preflights (also lines 425-426 of frontend_gui.py); its contract is PreflightGate |
| Frontend.DispatchBatch | frontend_gui.py:402-435 | `process_from_specific_repo` and `process_by_searching_all` on the state they start from; its contract is PreflightGate and BatchIds |
| Frontend.PreflightGate | frontend_gui.py:402-409 | no ids means nothing runs; a refused GitHub preflight processes no app; archive sources skip the preflight; a processed batch has one outcome per resolved id (also lines 421-426 of frontend_gui.py) |
| Frontend.StartMode | frontend_gui.py:360-362 | in auto-update mode the manifest versions float; otherwise the mode is unchanged |
| Frontend.LuaFileAppId | frontend_gui.py:291 | the file name without a trailing `.lua` (also line 309 of frontend_gui.py) |
| Frontend.LibraryLink | frontend_gui.py:309-310 | a library link exactly when the app id is all digits |
| Frontend.ScriptNameRoundTrip | frontend_gui.py:291 | the script written for an app shows as that app, and opens its library page (also lines 309-310 of frontend_gui.py) |
| Frontend.StartedRun | frontend_gui.py:355-393 | `start_processing` and `run_async_tasks` on the state they start from: no unlocker, blank input, or the tab's mode on the parsed items; its contract is StartProcessing and StartMode |
| Frontend.CaiInstallGui.LookupTree | frontend_gui.py:439-446 | the given hit, or the two lookups with the configured token's headers |
| Frontend.CaiInstallGui.RunTreeTasks | frontend_gui.py:448-449 | all tasks run one after the other by a loop; the results and files are those of `RunTasks`; nothing else changes |
| Frontend.CaiInstallGui.ProcessGithubRepo | frontend_gui.py:437-461 | its result, files and `config.vdf` are those of `GithubRepoRun` |
| Frontend.CaiInstallGui.ProcessFromRepo | frontend_gui.py:410-419 | one app from a source entry, equal to `ProcessApp`; the temporary directory is emptied after an archive source and untouched otherwise |
| Frontend.CaiInstallGui.ProcessFromSpecificRepo | frontend_gui.py:402-419 | equals `DispatchBatch` for the source; the temporary directory is emptied when an archive batch ran and untouched otherwise |
| Frontend.CaiInstallGui.SearchApp | frontend_gui.py:427-435 | one app searched in both repositories, equal to `ProcessApp`; the temporary directory is untouched |
| Frontend.CaiInstallGui.ProcessBySearchingAll | frontend_gui.py:421-435 | equals `DispatchBatch` for the search; the temporary directory is untouched |
| Frontend.CaiInstallGui.StartProcessing | frontend_gui.py:355-393 | equals `StartedRun`: nothing is done without an unlocker or with an empty input; the mode floats in auto-update mode; the temporary directory is empty after a run |
| Strings.Strip | frontend_gui.py:382-384 | Python's `str.strip()`; its contract is StripSpec and StripEmpty |
| Strings.FileName | backend_gui.py:224 | `Path(path).name`: the suffix of the path after its last separator, which holds no separator, for paths that do not end in a separator |
| Strings.StripSpec | frontend_gui.py:382 | `strip` removes exactly the surrounding whitespace (also line 384 of frontend_gui.py) |
| Strings.StripEmpty | frontend_gui.py:383 | a string strips to the empty string exactly when it is all whitespace |
| Strings.JoinSplit | frontend_gui.py:384 | joining the pieces of a split gives back the string |
| Strings.Split | frontend_gui.py:384 | at least one piece, and no piece contains the separator |
| Seqs.Dedup | frontend_gui.py:400 | `list(dict.fromkeys(xs))`; its contract is DedupElements and DedupOrder |
| Seqs.DedupElements | frontend_gui.py:400 | `dict.fromkeys` keeps exactly the elements, each once |
| Seqs.DedupOrder | frontend_gui.py:400 | `dict.fromkeys` keeps the order of first occurrence |
| Seqs.Put | backend_gui.py:334 | `d[k] = v` on an insertion-ordered dict: a present key keeps its place, a new key goes last; its contract is PutAllKeys and PutAllLookup |
| Seqs.PutAll | backend_gui.py:334 | `d[k] = v` for each pair in order, as in `dict.update` (also line 256 of backend_gui.py); its contract is PutAllKeys, PutAllLookup and PutAllIdempotent |
| Seqs.PutAllKeys | backend_gui.py:334 | filling a dict key by key lists the keys in first-seen order (also line 363 of backend_gui.py) |
| Seqs.PutAllLookup | backend_gui.py:334 | the dict holds the last value written for each key (also line 363 of backend_gui.py) |
| Seqs.PutAllIdempotent | backend_gui.py:256 | `update` with the same pairs twice is the same as once |

## Left out

- Regular expressions and `isdigit` cover ASCII only. `\d`, `\w` and `isdigit`
  are taken to mean ASCII digits and word characters (Python also accepts
  other Unicode digits and letters), and `lower()` folds only ASCII letters.
  `\s` and `strip()` use Python's full whitespace set.
- Globbing is case-sensitive and follows the archive's listing order. The
  archive is flat: files in sub-directories of the zip are not modelled.
- Writes to disk cannot fail in the model (no `IOError` or permission
  errors). The only failures modelled are the source's own checks, failed
  downloads, and parse failures of the codecs.
- Threads, `asyncio`, `processing_lock`, every UI widget, dialog, message
  box and log line, and `webbrowser` are not modelled. `asyncio.gather` runs
  all tasks one after the other. `RunTasksResults` shows the results do not
  depend on the order; the final files depend on it only when two tasks
  write the same path.
- These are not modelled: the Windows registry lookup and `detect_steam_path`;
  reading, generating and saving `config.json` (the settings are constructor
  arguments); `os.environ['IS_CN']` (a parameter `isCn`, computed by `IsCn`);
  and the combobox selection (the index `choice`).
- GitHub.RateVerdict: when `remaining` is 0 the source fails on the name
  `time`, which it never imports. That error is caught and gives `False`,
  the result the model returns.
- `KeyError` and `TypeError` from unexpected JSON shapes inside the lookups
  are not modelled. Lookups answer with typed values, and a missing `commit`
  or `tree` key is `None`. The only JSON-shape failure modelled is a bad
  `key.vdf` (`BadKeyFile`).
- zlib, UTF-8, `vdf.loads`/`vdf.dumps` and `zipfile` are parameters
  (`Codecs`), not implementations. `MergeConfigTwice` assumes that `loads`
  reads back what `dumps` writes.
- `DecryptionKey` values in a `key.vdf` must be strings. Any other value
  counts as a bad key file, because the model's documents hold strings and
  dicts only.
- Strings.FileName: a path ending in a separator gives `""`, where
  `pathlib`'s `.name` first drops the trailing separators (`a/b/` gives
  `b`). Paths in a repository tree never end in a separator, so this case
  does not arise.
- Frontend.SortNewestFirst: the sort runs on a sequence value, not in place
  on the source's list.
- Backend.GuiBackend.GreenlumaAdd: the exception path (a write failure)
  cannot occur in the model, because writes cannot fail.
- Backend.GuiBackend.ProcessZipBasedManifest: `shutil.rmtree` is modelled as
  `temp := map[]`. The `.zip` and the extracted files are not kept apart
  inside `temp`.
- Not modelled, because they are network- and UI-only with no decision
  logic beyond what is modelled: `search_games_by_name`, the logging and
  status-code messages of `fetch_branch_info`, the logging of
  `cleanup_temp_files`, and the file panel's refresh, delete, view and
  locate actions.
