/** `extract_app_id`: an app id is the digit run after the first
    `store.steampowered.com/app/` or `steamdb.info/app/` that is followed by
    a digit, or else the whole input when it is all digits.

    A regular expression `P(\d+)` with a literal `P` matches at the leftmost
    position where `P` occurs followed by at least one digit, and the greedy
    group is the maximal digit run there; the scanners below compute exactly
    that. */
module AppIds {
  import opened Wrappers
  import opened Strings

  const StorePattern: string := "store.steampowered.com/app/"
  const SteamDbPattern: string := "steamdb.info/app/"

  /** Length of the maximal run of digits of `s` starting at `i`. */
  function DigitRun(s: string, i: nat): (n: nat)
    requires i <= |s|
    ensures i + n <= |s|
    ensures forall k :: i <= k < i + n ==> IsDigit(s[k])
    ensures i + n < |s| ==> !IsDigit(s[i + n])
  {
    var n := Run(s[i..], Digits);
    assert forall k :: i <= k < i + n ==> s[k] == s[i..][k - i];
    n
  }

  /** `P(\d+)` can match at position `i`. */
  predicate MatchesAt(s: string, p: string, i: nat)
  {
    OccursAt(s, p, i) && DigitRun(s, i + |p|) > 0
  }

  /** The leftmost position at or after `from` where `P(\d+)` matches. */
  function SearchFrom(s: string, p: string, from: nat): (r: Option<nat>)
    requires from <= |s|
    ensures r.Some? ==> from <= r.value <= |s| && MatchesAt(s, p, r.value)
    ensures r.Some? ==> forall j :: from <= j < r.value ==> !MatchesAt(s, p, j)
    ensures r.None? ==> forall j :: from <= j <= |s| ==> !MatchesAt(s, p, j)
    decreases |s| - from
  {
    if MatchesAt(s, p, from) then Some(from)
    else if from == |s| then None
    else SearchFrom(s, p, from + 1)
  }

  /** `re.search(P(\d+), s).group(1)`, or `None` when there is no match. */
  function Capture(s: string, p: string): (r: Option<string>)
    ensures r.Some? <==> exists i: nat :: i <= |s| && MatchesAt(s, p, i)
  {
    match SearchFrom(s, p, 0)
    case None => None
    case Some(i) => Some(s[i + |p|..i + |p| + DigitRun(s, i + |p|)])
  }

  function ExtractAppId(input: string): Option<string>
  {
    match Capture(input, StorePattern)
    case Some(id) => Some(id)
    case None =>
      match Capture(input, SteamDbPattern)
      case Some(id) => Some(id)
      case None => if IsDigitString(input) then Some(input) else None
  }

  // ---------------------------------------------------------------
  // Properties.

  /** A captured group is a non-empty digit string taken from the input
      right after an occurrence of the pattern, and no earlier occurrence of
      the pattern is followed by a digit. */
  lemma CaptureSpec(s: string, p: string)
    ensures var r := Capture(s, p);
      r.Some? ==> exists i: nat ::
        && i + |p| + |r.value| <= |s| && MatchesAt(s, p, i)
        && (forall j :: 0 <= j < i ==> !MatchesAt(s, p, j))
        && s[i + |p|..i + |p| + |r.value|] == r.value
        && IsDigitString(r.value)
        && (i + |p| + |r.value| < |s| ==> !IsDigit(s[i + |p| + |r.value|]))
  {
    var r := Capture(s, p);
    if r.Some? {
      var i := SearchFrom(s, p, 0).value;
      assert s[i + |p|..i + |p| + |r.value|] == r.value;
    }
  }

  /** Whatever is resolved is a non-empty string of digits. */
  lemma ExtractAppIdDigits(input: string)
    ensures ExtractAppId(input).Some? ==> IsDigitString(ExtractAppId(input).value)
  {
    CaptureSpec(input, StorePattern);
    CaptureSpec(input, SteamDbPattern);
  }

  /** A bare id resolves to itself: neither pattern occurs in a string of
      digits, since both begin with a letter. */
  lemma DigitStringResolvesToItself(input: string)
    requires IsDigitString(input)
    ensures ExtractAppId(input) == Some(input)
  {
    forall i: nat | i <= |input| ensures !MatchesAt(input, StorePattern, i) && !MatchesAt(input, SteamDbPattern, i) {
      OccursAtHead(input, StorePattern, i);
      OccursAtHead(input, SteamDbPattern, i);
    }
  }

  lemma OccursAtHead(s: string, p: string, i: nat)
    requires |p| > 0
    ensures OccursAt(s, p, i) ==> s[i] == p[0]
  {
    OccursAtChar(s, p, i, 0);
  }

  /** Nothing is resolved exactly when neither link form matches and the
      input is not all digits; in particular the empty input gives `None`. */
  lemma ExtractAppIdNone(input: string)
    ensures ExtractAppId(input).None? <==>
      && (forall i: nat :: i <= |input| ==> !MatchesAt(input, StorePattern, i))
      && (forall i: nat :: i <= |input| ==> !MatchesAt(input, SteamDbPattern, i))
      && !IsDigitString(input)
    ensures ExtractAppId("").None?
  {
    assert !MatchesAt("", StorePattern, 0) && !MatchesAt("", SteamDbPattern, 0);
  }

  /** A store page link resolves to the id in it: when the first
      occurrence of the pattern followed by a digit is the one after
      `prefix`, the result is the digit run `id` there, whatever follows it. */
  lemma StoreLinkResolves(prefix: string, id: string, rest: string)
    requires IsDigitString(id) && (rest == [] || !IsDigit(rest[0]))
    requires forall j :: 0 <= j < |prefix| ==> !MatchesAt(prefix + StorePattern + id + rest, StorePattern, j)
    ensures ExtractAppId(prefix + StorePattern + id + rest) == Some(id)
  {
    var s := prefix + StorePattern + id + rest;
    var i := |prefix| + |StorePattern|;
    assert s[|prefix|..i] == StorePattern;
    assert s[i..] == id + rest;
    RunOf(id, rest, Digits);
    assert MatchesAt(s, StorePattern, |prefix|);
    assert SearchFrom(s, StorePattern, 0) == Some(|prefix|);
    assert s[i..i + |id|] == id;
  }
}
