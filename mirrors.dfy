/** `get_from_url`: a raw repository file is fetched from an ordered list
    of candidate URLs, chosen by the region flag; the first candidate that
    answers HTTP 200 supplies the bytes. */
module Mirrors {
  import opened Wrappers
  import opened Strings

  /** What one GET yields: a response, or an exception (connection error,
      timeout) before any response. */
  datatype HttpOutcome = Response(status: int, body: seq<byte>) | ConnectError

  datatype FetchError = AllMirrorsFailed(path: string)

  predicate IsOk(o: HttpOutcome) { o.Response? && o.status == 200 }

  /** The two mainland-China mirrors in order, or else the canonical
      GitHub raw URL: two candidates in the region, one outside it, each
      naming the file's path at its end. */
  function Candidates(isCn: bool, repo: string, sha: string, path: string): (urls: seq<string>)
    ensures |urls| == if isCn then 2 else 1
    ensures forall i :: 0 <= i < |urls| ==> EndsWith(urls[i], "/" + path)
  {
    if isCn then
      ["https://cdn.jsdmirror.com/gh/" + repo + "@" + sha + "/" + path,
       "https://raw.gitmirror.com/" + repo + "/" + sha + "/" + path]
    else ["https://raw.githubusercontent.com/" + repo + "/" + sha + "/" + path]
  }

  /** Index of the first candidate answering 200, if any. */
  function FirstOk(urls: seq<string>, get: string -> HttpOutcome): (r: Option<nat>)
    ensures r.Some? ==> r.value < |urls| && IsOk(get(urls[r.value]))
    ensures r.Some? ==> forall j :: 0 <= j < r.value ==> !IsOk(get(urls[j]))
    ensures r.None? <==> forall j :: 0 <= j < |urls| ==> !IsOk(get(urls[j]))
  {
    if urls == [] then None
    else if IsOk(get(urls[0])) then Some(0)
    else match FirstOk(urls[1..], get)
      case None => None
      case Some(i) => Some(i + 1)
  }

  /** What `get_from_url` yields: the body of the first candidate answering
      200, or the error raised once every candidate has failed. */
  function Fetched(get: string -> HttpOutcome, isCn: bool, sha: string, path: string, repo: string): (r: Result<seq<byte>, FetchError>)
    ensures r.Err? <==> forall j :: 0 <= j < |Candidates(isCn, repo, sha, path)| ==> !IsOk(get(Candidates(isCn, repo, sha, path)[j]))
    ensures r.Err? ==> r.error == AllMirrorsFailed(path)
  {
    var urls := Candidates(isCn, repo, sha, path);
    match FirstOk(urls, get)
    case None => Err(AllMirrorsFailed(path))
    case Some(i) => Ok(get(urls[i]).body)
  }

  /** Tries the candidates strictly in order; a non-200 response and a
      connection error both move on to the next one.  `attempts` counts the
      requests issued. */
  method GetFromUrl(get: string -> HttpOutcome, isCn: bool, sha: string, path: string, repo: string)
    returns (r: Result<seq<byte>, FetchError>, attempts: nat)
    ensures var urls := Candidates(isCn, repo, sha, path);
      && 1 <= attempts <= |urls|
      && (r.Ok? ==> FirstOk(urls, get) == Some(attempts - 1) && get(urls[attempts - 1]) == Response(200, r.value))
      && (r.Err? ==> FirstOk(urls, get).None? && attempts == |urls| && r.error == AllMirrorsFailed(path))
    ensures r == Fetched(get, isCn, sha, path, repo)
  {
    var urls := Candidates(isCn, repo, sha, path);
    attempts := 0;
    while attempts < |urls|
      invariant attempts <= |urls|
      invariant forall j :: 0 <= j < attempts ==> !IsOk(get(urls[j]))
    {
      var outcome := get(urls[attempts]);
      attempts := attempts + 1;
      if outcome.Response? && outcome.status == 200 {
        FirstOkUnique(urls, get, attempts - 1);
        return Ok(outcome.body), attempts;
      }
    }
    return Err(AllMirrorsFailed(path)), attempts;
  }

  /** The first 200 is unique: any candidate answering 200 after only
      failures is the one `FirstOk` names. */
  lemma FirstOkUnique(urls: seq<string>, get: string -> HttpOutcome, k: nat)
    requires k < |urls| && IsOk(get(urls[k]))
    requires forall j :: 0 <= j < k ==> !IsOk(get(urls[j]))
    ensures FirstOk(urls, get) == Some(k)
  {
    var f := FirstOk(urls, get);
  }
}
