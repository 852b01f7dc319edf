/** The three regular expressions the pipeline applies, as scanners.

    - `(\d+)_(\w+)\.manifest` (`re.search`) names a depot and a manifest
      id in a manifest file name;
    - `addappid\((\d+),\s*1,\s*"([^"]+)"\)` (`re.finditer`) reads the depot
      keys of a SteamTools-format Lua script;
    - `addappid\((\d+),\s*"([^"]+)"\)` (`re.finditer`) reads the depot keys
      of a GreenLuma-format Lua script.

    Each greedy repetition in them is followed by a character outside its
    class (`_` after `\d+`, `.` after `\w+`, `,` after `\d+`, `1` or `"`
    after `\s*`, `"` after `[^"]+`), so backtracking can never shorten one:
    a match at a given position exists exactly when the maximal runs line
    up, and the groups are those runs.  The scanners work on the text from
    the position being tried, so each match is a function of a suffix. */
module Scanners {
  import opened Wrappers
  import opened Strings

  const ManifestSuffix: string := ".manifest"
  const AddAppIdOpen: string := "addappid("

  // ---------------------------------------------------------------
  // Manifest file names.

  /** The match of `(\d+)_(\w+)\.manifest` at the start of `t`. */
  function ManifestMatch(t: string): (r: Option<(string, string)>)
    ensures r.Some? ==> IsDigitString(r.value.0) && |r.value.1| > 0
    ensures r.Some? ==> forall i :: 0 <= i < |r.value.1| ==> IsWordChar(r.value.1[i])
  {
    var d := Run(t, Digits);
    if d == 0 || d >= |t| || t[d] != '_' then None
    else
      var w := Run(t[d + 1..], WordChars);
      if w == 0 || !StartsWith(t[d + 1 + w..], ManifestSuffix) then None
      else Some((t[..d], t[d + 1..d + 1 + w]))
  }

  /** `re.search(r'(\d+)_(\w+)\.manifest', name)`: the groups of the
      leftmost match. */
  function ManifestRef(name: string): (r: Option<(string, string)>)
    ensures r.Some? ==> IsDigitString(r.value.0) && |r.value.1| > 0
    ensures r.Some? ==> forall i :: 0 <= i < |r.value.1| ==> IsWordChar(r.value.1[i])
  {
    if name == [] then None
    else match ManifestMatch(name)
      case Some(m) => Some(m)
      case None => ManifestRef(name[1..])
  }

  /** The names, in order, that match, with their groups. */
  function ManifestRefs(names: seq<string>): (refs: seq<(string, string)>)
    ensures |refs| <= |names|
  {
    if names == [] then []
    else
      var rest := ManifestRefs(names[1..]);
      match ManifestRef(names[0])
      case Some(m) => [m] + rest
      case None => rest
  }

  /** A name of the form `<depot>_<manifest>.manifest` yields its two parts. */
  lemma ManifestNameRoundTrip(depot: string, manifest: string, rest: string)
    requires IsDigitString(depot) && |manifest| > 0
    requires forall i :: 0 <= i < |manifest| ==> IsWordChar(manifest[i])
    ensures ManifestRef(depot + "_" + manifest + ManifestSuffix + rest) == Some((depot, manifest))
  {
    ManifestMatchOf(depot, manifest, rest);
    RegroupName(depot, "_", manifest, ManifestSuffix, rest);
  }

  /** Re-association of the five pieces of a manifest file name. */
  lemma RegroupName(a: string, b: string, c: string, d: string, e: string)
    ensures a + b + c + d + e == a + (b + (c + (d + e)))
  {
  }

  /** The match at the start of such a name takes the two runs. */
  lemma ManifestMatchOf(depot: string, manifest: string, rest: string)
    requires IsDigitString(depot) && |manifest| > 0
    requires forall i :: 0 <= i < |manifest| ==> IsWordChar(manifest[i])
    ensures ManifestMatch(depot + ("_" + (manifest + (ManifestSuffix + rest)))) == Some((depot, manifest))
  {
    var u := manifest + (ManifestSuffix + rest);
    var t := depot + ("_" + u);
    RunOf(depot, "_" + u, Digits);
    assert t[|depot|] == '_';
    assert t[|depot| + 1..] == u;
    RunOf(manifest, ManifestSuffix + rest, WordChars);
    assert t[|depot| + 1 + |manifest|..] == ManifestSuffix + rest;
    assert t[..|depot|] == depot;
    assert t[|depot| + 1..|depot| + 1 + |manifest|] == manifest;
  }

  /** Every manifest name that matches contributes its groups, in order. */
  lemma {:induction false} ManifestRefsSpec(names: seq<string>, i: nat)
    requires i < |names| && ManifestRef(names[i]).Some?
    ensures ManifestRef(names[i]).value in ManifestRefs(names)
  {
    if i > 0 {
      ManifestRefsSpec(names[1..], i - 1);
    }
  }

  /** Each name is read on its own: appending a name appends its groups, if any. */
  lemma {:induction false} ManifestRefsSnoc(names: seq<string>, name: string)
    ensures ManifestRefs(names + [name]) ==
      ManifestRefs(names) + match ManifestRef(name) case Some(m) => [m] case None => []
  {
    if names != [] {
      assert (names + [name])[1..] == names[1..] + [name];
      ManifestRefsSnoc(names[1..], name);
    }
  }

  /** Every pair found has a digit-string depot and a word-character manifest id. */
  lemma {:induction false} ManifestRefsWellFormed(names: seq<string>)
    ensures forall i :: 0 <= i < |ManifestRefs(names)| ==> IsDigitString(ManifestRefs(names)[i].0)
    ensures forall i, k :: 0 <= i < |ManifestRefs(names)| && 0 <= k < |ManifestRefs(names)[i].1| ==>
      IsWordChar(ManifestRefs(names)[i].1[k])
  {
    if names != [] {
      ManifestRefsWellFormed(names[1..]);
    }
  }

  // ---------------------------------------------------------------
  // Depot-key lines.

  /** The key group of a partial match, and the length matched. */
  datatype KeyTail = KeyTail(key: string, len: nat)

  /** One match of a key pattern: the depot id group, the key group and the
      length of the match. */
  datatype KeyHit = KeyHit(id: string, key: string, len: nat)

  /** `\s*"([^"]+)"\)` at the start of `w`: the key and the length matched. */
  function KeyPart(w: string): (r: Option<KeyTail>)
    ensures r.Some? ==> 0 < r.value.len <= |w| && |r.value.key| > 0 && '"' !in r.value.key
  {
    var q := Run(w, Spaces);
    if q >= |w| || w[q] != '"' then None
    else
      var u := w[q + 1..];
      var k := Run(u, NonQuotes);
      if k == 0 || k + 1 >= |u| || u[k + 1] != ')' then None
      else
        assert forall i :: 0 <= i < k ==> u[..k][i] == u[i];
        Some(KeyTail(u[..k], q + k + 3))
  }

  /** What follows `addappid(<digits>,`: for the SteamTools form
      `\s*1,` and then the key part, for the GreenLuma form the key part. */
  function FlagPart(v: string, withFlag: bool): (r: Option<KeyTail>)
    ensures r.Some? ==> 0 < r.value.len <= |v| && |r.value.key| > 0 && '"' !in r.value.key
  {
    if !withFlag then KeyPart(v)
    else
      var c := Run(v, Spaces);
      if c + 1 >= |v| || v[c] != '1' || v[c + 1] != ',' then None
      else
        var k := KeyPart(v[c + 2..]);
        if k.None? then None else Some(KeyTail(k.value.key, c + 2 + k.value.len))
  }

  /** What follows `addappid(`: the digit group, a comma and the rest. */
  function IdPart(u: string, withFlag: bool): (r: Option<KeyHit>)
    ensures r.Some? ==> 0 < r.value.len <= |u| && |r.value.id| > 0 && |r.value.key| > 0 && '"' !in r.value.key
  {
    var d := Run(u, Digits);
    if d == 0 || d >= |u| || u[d] != ',' then None
    else
      var f := FlagPart(u[d + 1..], withFlag);
      if f.None? then None
      else
        Some(KeyHit(u[..d], f.value.key, d + 1 + f.value.len))
  }

  /** The match of the SteamTools (`withFlag`) or GreenLuma key pattern at
      the start of `t`: the depot id, the key and the match's length. */
  function KeyMatch(t: string, withFlag: bool): (r: Option<KeyHit>)
    ensures r.Some? ==> 0 < r.value.len <= |t|
    ensures r.Some? ==> |r.value.id| > 0 && |r.value.key| > 0 && '"' !in r.value.key
  {
    if !StartsWith(t, AddAppIdOpen) then None
    else
      var m := IdPart(t[9..], withFlag);
      if m.None? then None else Some(KeyHit(m.value.id, m.value.key, 9 + m.value.len))
  }

  /** The depot id a match captures is a string of digits. */
  lemma KeyMatchDigits(t: string, withFlag: bool)
    ensures KeyMatch(t, withFlag).Some? ==> IsDigitString(KeyMatch(t, withFlag).value.id)
  {
    if KeyMatch(t, withFlag).Some? {
      var u := t[9..];
      var d := Run(u, Digits);
      assert KeyMatch(t, withFlag).value.id == u[..d];
      assert forall i :: 0 <= i < d ==> u[..d][i] == u[i];
    }
  }

  /** `re.finditer`: the matches from the left, each search resuming where
      the previous match ended. */
  function ScanKeys(t: string, withFlag: bool): seq<(string, string)>
  {
    if t == [] then []
    else match KeyMatch(t, withFlag)
      case Some(h) => [(h.id, h.key)] + ScanKeys(t[h.len..], withFlag)
      case None => ScanKeys(t[1..], withFlag)
  }

  /** A match at the front is reported first and the scan resumes after it. */
  lemma ScanKeysHit(t: string, withFlag: bool, id: string, key: string, n: nat)
    requires var r := KeyMatch(t, withFlag); r.Some? && r.value.id == id && r.value.key == key && r.value.len == n
    ensures n <= |t| && ScanKeys(t, withFlag) == [(id, key)] + ScanKeys(t[n..], withFlag)
  {
  }

  /** Every pair found has a non-empty digit id and a non-empty key without
      a double quote. */
  lemma {:induction false} ScanKeysWellFormed(t: string, withFlag: bool)
    ensures forall i :: 0 <= i < |ScanKeys(t, withFlag)| ==>
      var p := ScanKeys(t, withFlag)[i];
      IsDigitString(p.0) && |p.1| > 0 && '"' !in p.1
  {
    if t != [] {
      KeyMatchDigits(t, withFlag);
      match KeyMatch(t, withFlag)
      case Some(h) => ScanKeysWellFormed(t[h.len..], withFlag);
      case None => ScanKeysWellFormed(t[1..], withFlag);
    }
  }

  /** The two key patterns never match at the same place: after
      `addappid(<digits>,` and blanks, one wants `1` and the other `"`. */
  lemma KeyPatternsDisjoint(t: string)
    ensures KeyMatch(t, true).Some? ==> KeyMatch(t, false).None?
  {
  }

  /** Text without `addappid(` yields no pairs. */
  lemma {:induction false} ScanKeysNone(t: string, withFlag: bool)
    requires forall i: nat :: !OccursAt(t, AddAppIdOpen, i)
    ensures ScanKeys(t, withFlag) == []
  {
    if t != [] {
      assert !OccursAt(t, AddAppIdOpen, 0);
      forall i: nat ensures !OccursAt(t[1..], AddAppIdOpen, i) {
        if OccursAt(t[1..], AddAppIdOpen, i) {
          assert t[1..][i..i + 9] == t[i + 1..i + 10];
          assert OccursAt(t, AddAppIdOpen, i + 1);
        }
      }
      ScanKeysNone(t[1..], withFlag);
    }
  }

  /** A text starting with something other than `a` is scanned from its
      second character on. */
  lemma ScanKeysSkip(c: char, t: string, withFlag: bool)
    requires c != 'a'
    ensures ScanKeys([c] + t, withFlag) == ScanKeys(t, withFlag)
  {
    var u := [c] + t;
    assert u[1..] == t;
    if |u| >= 9 { assert u[..9][0] == c; }
    assert KeyMatch(u, withFlag).None?;
  }
}
