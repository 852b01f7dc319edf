/** The SteamTools unlock script `<app_id>.lua`: a base `addappid` line,
    one `addappid` line per depot key, then one `setManifestid` line per
    manifest name, each `setManifestid` line commented out with `--` when
    the floating-version mode is on.  Every line ends with a newline. */
module LuaScript {
  import opened Wrappers
  import opened Strings
  import opened Scanners

  /** `addappid(<id>, 1, "<key>")`. */
  function DepotLine(id: string, key: string): string
  {
    AddAppIdOpen + id + ", 1, \"" + key + "\")"
  }

  /** `addappid(<app_id>, 1, "None")`: the base line is a depot line with
      the literal key `None`. */
  function BaseLine(appId: string): string
  {
    DepotLine(appId, "None")
  }

  const SetManifestOpen: string := "setManifestid("

  /** `setManifestid(<depot>, "<manifest>")`, with `--` in front when floating. */
  function ManifestLine(depot: string, manifest: string, floating: bool): string
  {
    (if floating then "--" else "") + SetManifestOpen + depot + ", \"" + manifest + "\")"
  }

  function DepotLines(depots: seq<(string, string)>): (lines: seq<string>)
    ensures |lines| == |depots|
    ensures forall i :: 0 <= i < |depots| ==> lines[i] == DepotLine(depots[i].0, depots[i].1)
  {
    seq(|depots|, i requires 0 <= i < |depots| => DepotLine(depots[i].0, depots[i].1))
  }

  function ManifestLines(refs: seq<(string, string)>, floating: bool): (lines: seq<string>)
    ensures |lines| == |refs|
    ensures forall i :: 0 <= i < |refs| ==> lines[i] == ManifestLine(refs[i].0, refs[i].1, floating)
  {
    seq(|refs|, i requires 0 <= i < |refs| => ManifestLine(refs[i].0, refs[i].1, floating))
  }

  function ScriptLines(appId: string, depots: seq<(string, string)>, refs: seq<(string, string)>, floating: bool): seq<string>
  {
    [BaseLine(appId)] + DepotLines(depots) + ManifestLines(refs, floating)
  }

  /** The file text: each line followed by `\n`. */
  function Render(lines: seq<string>): string
  {
    if lines == [] then [] else lines[0] + "\n" + Render(lines[1..])
  }

  /** The text written to `<app_id>.lua`. */
  function Script(appId: string, depots: seq<(string, string)>, refs: seq<(string, string)>, floating: bool): string
  {
    Render(ScriptLines(appId, depots, refs, floating))
  }

  // ---------------------------------------------------------------
  // Layout.

  /** The script's lines: the base line first, the depot lines in
      collection order, then the manifest lines, and a line is commented
      out exactly when it is a manifest line and the mode is floating. */
  lemma ScriptLayout(appId: string, depots: seq<(string, string)>, refs: seq<(string, string)>, floating: bool)
    ensures var ls := ScriptLines(appId, depots, refs, floating);
      && |ls| == 1 + |depots| + |refs|
      && ls[0] == BaseLine(appId)
      && (forall i :: 0 <= i < |depots| ==> ls[1 + i] == DepotLine(depots[i].0, depots[i].1))
      && (forall i :: 0 <= i < |refs| ==> ls[1 + |depots| + i] == ManifestLine(refs[i].0, refs[i].1, floating))
      && (forall i :: 0 <= i < |ls| ==> (StartsWith(ls[i], "--") <==> floating && i > |depots|))
  {
    var ls := ScriptLines(appId, depots, refs, floating);
    forall i | 0 <= i < |ls| ensures StartsWith(ls[i], "--") <==> floating && i > |depots| {
      if i <= |depots| {
        var id, key := if i == 0 then appId else depots[i - 1].0, if i == 0 then "None" else depots[i - 1].1;
        assert ls[i] == DepotLine(id, key);
        assert ls[i][0] == 'a';
      } else {
        var r := refs[i - 1 - |depots|];
        assert ls[i] == ManifestLine(r.0, r.1, floating);
        if floating {
          assert ls[i][..2] == "--";
        } else {
          assert ls[i][0] == 's';
        }
      }
    }
  }

  /** The text is the lines joined by `\n`, with a final `\n`. */
  lemma {:induction false} RenderJoin(lines: seq<string>)
    ensures Render(lines) == Join(lines + [[]], '\n')
  {
    if lines != [] {
      RenderJoin(lines[1..]);
      assert (lines + [[]])[1..] == lines[1..] + [[]];
    }
  }

  /** Splitting the text at `\n` gives the lines back, followed by the empty
      remainder after the last newline, when no line holds a newline. */
  lemma RenderSplit(lines: seq<string>)
    requires forall i :: 0 <= i < |lines| ==> '\n' !in lines[i]
    ensures Split(Render(lines), '\n') == lines + [[]]
  {
    RenderJoin(lines);
    SplitJoin(lines + [[]], '\n');
  }

  lemma {:induction false} RenderAppend(a: seq<string>, b: seq<string>)
    ensures Render(a + b) == Render(a) + Render(b)
  {
    if a != [] {
      RenderAppend(a[1..], b);
      assert (a + b)[1..] == a[1..] + b;
    } else {
      assert a + b == b;
    }
  }

  // ---------------------------------------------------------------
  // Reading a script back with the SteamTools key pattern.

  lemma KeyPartOf(key: string, tail: string)
    requires |key| > 0 && '"' !in key
    ensures var r := KeyPart(" \"" + key + "\")" + tail);
      r.Some? && r.value.key == key && r.value.len == |key| + 4
  {
    var w := " \"" + key + "\")" + tail;
    RunOf(" ", "\"" + key + "\")" + tail, Spaces);
    assert w == " " + ("\"" + key + "\")" + tail);
    var u := w[2..];
    assert u == key + ("\")" + tail);
    RunOf(key, "\")" + tail, NonQuotes);
    assert u[..|key|] == key;
  }

  lemma FlagPartOf(w: string, key: string, n: nat)
    requires KeyPart(w).Some? && KeyPart(w).value.key == key && KeyPart(w).value.len == n
    ensures var r := FlagPart(" 1," + w, true);
      r.Some? && r.value.key == key && r.value.len == n + 3
  {
    var v := " 1," + w;
    RunOf(" ", "1," + w, Spaces);
    assert v == " " + ("1," + w);
    assert v[3..] == w;
  }

  lemma IdPartOf(id: string, v: string, key: string, n: nat)
    requires IsDigitString(id)
    requires FlagPart(v, true).Some? && FlagPart(v, true).value.key == key && FlagPart(v, true).value.len == n
    ensures var r := IdPart(id + ("," + v), true);
      r.Some? && r.value.id == id && r.value.key == key && r.value.len == |id| + 1 + n
  {
    var u := id + ("," + v);
    RunOf(id, "," + v, Digits);
    assert u[|id|] == ',';
    assert u[..|id|] == id;
    assert u[|id| + 1..] == v;
  }

  /** A depot line is one whole match of the SteamTools key pattern. */
  lemma DepotLineMatch(id: string, key: string, tail: string)
    requires IsDigitString(id) && |key| > 0 && '"' !in key
    ensures var r := KeyMatch(DepotLine(id, key) + tail, true);
      r.Some? && r.value.id == id && r.value.key == key && r.value.len == |DepotLine(id, key)|
  {
    var w := " \"" + key + "\")" + tail;
    KeyPartOf(key, tail);
    FlagPartOf(w, key, |key| + 4);
    IdPartOf(id, " 1," + w, key, |key| + 7);
    var u := id + ("," + (" 1," + w));
    KeyMatchOf(u, true);
    DepotLineShape(id, key, tail);
  }

  /** After `addappid(` the scanner reads the digit group and the rest. */
  lemma KeyMatchOf(u: string, withFlag: bool)
    requires IdPart(u, withFlag).Some?
    ensures var r, h := KeyMatch(AddAppIdOpen + u, withFlag), IdPart(u, withFlag).value;
      r.Some? && r.value.id == h.id && r.value.key == h.key && r.value.len == 9 + h.len
  {
    var t := AddAppIdOpen + u;
    assert t[..9] == AddAppIdOpen && t[9..] == u;
  }

  /** A depot line followed by more text, cut where the scanner's stages
      meet. */
  lemma DepotLineShape(id: string, key: string, tail: string)
    ensures DepotLine(id, key) + tail == AddAppIdOpen + (id + ("," + (" 1," + (" \"" + key + "\")" + tail))))
  {
    assert ", 1, \"" == "," + (" 1," + " \"");
    RegroupDepotLine(AddAppIdOpen, id, ",", " 1,", " \"", key, "\")", tail);
  }

  /** Re-association of the pieces of a depot line followed by more text. */
  lemma RegroupDepotLine(a: string, i: string, c1: string, c2: string, c3: string, k: string, q: string, t: string)
    ensures a + i + (c1 + (c2 + c3)) + k + q + t == a + (i + (c1 + (c2 + (c3 + k + q + t))))
  {
  }

  /** The depot lines read back as the depots, in order, before whatever
      follows them. */
  lemma {:induction false} ScanDepotLines(depots: seq<(string, string)>, more: string)
    requires forall i :: 0 <= i < |depots| ==>
      IsDigitString(depots[i].0) && |depots[i].1| > 0 && '"' !in depots[i].1
    ensures ScanKeys(Render(DepotLines(depots)) + more, true) == depots + ScanKeys(more, true)
  {
    if depots == [] {
      assert Render(DepotLines(depots)) + more == more;
    } else {
      ScanDepotLines(depots[1..], more);
      ScanDepotLinesCons(depots, more);
    }
  }

  lemma ScanDepotLinesCons(depots: seq<(string, string)>, more: string)
    requires depots != [] && IsDigitString(depots[0].0) && |depots[0].1| > 0 && '"' !in depots[0].1
    requires ScanKeys(Render(DepotLines(depots[1..])) + more, true) == depots[1..] + ScanKeys(more, true)
    ensures ScanKeys(Render(DepotLines(depots)) + more, true) == depots + ScanKeys(more, true)
  {
    var (id, key) := depots[0];
    var rest := Render(DepotLines(depots[1..])) + more;
    DepotLinesFirst(depots, more);
    ScanDepotLine(id, key, rest);
    ConsThenAppend(ScanKeys(Render(DepotLines(depots)) + more, true), ScanKeys(rest, true), depots, ScanKeys(more, true));
  }

  lemma ConsThenAppend<T>(a: seq<T>, b: seq<T>, xs: seq<T>, s: seq<T>)
    requires xs != [] && a == [xs[0]] + b && b == xs[1..] + s
    ensures a == xs + s
  {
    assert xs == [xs[0]] + xs[1..];
  }

  /** One depot line and its newline read back as that depot's pair. */
  lemma ScanDepotLine(id: string, key: string, rest: string)
    requires IsDigitString(id) && |key| > 0 && '"' !in key
    ensures ScanKeys(DepotLine(id, key) + ("\n" + rest), true) == [(id, key)] + ScanKeys(rest, true)
  {
    var line := DepotLine(id, key);
    var t := line + ("\n" + rest);
    DepotLineMatch(id, key, "\n" + rest);
    ScanKeysHit(t, true, id, key, |line|);
    assert t[|line|..] == "\n" + rest;
    ScanKeysSkip('\n', rest, true);
  }

  /** The rendered depot lines start with the first depot's line. */
  lemma DepotLinesFirst(depots: seq<(string, string)>, more: string)
    requires depots != []
    ensures Render(DepotLines(depots)) + more
      == DepotLine(depots[0].0, depots[0].1) + ("\n" + (Render(DepotLines(depots[1..])) + more))
  {
    var ls := DepotLines(depots);
    assert ls[1..] == DepotLines(depots[1..]);
  }

  /** Every `(` of the text is three characters after a `t`; in
      `addappid(` it is three after a `p`, so that never occurs. */
  predicate ParensAfterT(t: string)
  {
    forall j :: 0 <= j < |t| && t[j] == '(' ==> j >= 3 && t[j - 3] == 't'
  }

  lemma ParensAfterTAppend(a: string, b: string)
    requires ParensAfterT(a) && ParensAfterT(b)
    ensures ParensAfterT(a + b)
  {
    var t := a + b;
    forall j | 0 <= j < |t| && t[j] == '(' ensures j >= 3 && t[j - 3] == 't' {
      if j >= |a| {
        assert b[j - |a|] == '(';
        assert t[j - 3] == b[j - |a| - 3];
      }
    }
  }

  lemma NoAddAppId(t: string)
    requires ParensAfterT(t)
    ensures forall i: nat :: !OccursAt(t, AddAppIdOpen, i)
  {
    forall i: nat ensures !OccursAt(t, AddAppIdOpen, i) {
      OccursAtChar(t, AddAppIdOpen, i, 8);
      OccursAtChar(t, AddAppIdOpen, i, 5);
    }
  }

  lemma ManifestLineParens(depot: string, manifest: string, floating: bool)
    requires IsDigitString(depot)
    requires forall i :: 0 <= i < |manifest| ==> IsWordChar(manifest[i])
    ensures ParensAfterT(ManifestLine(depot, manifest, floating) + "\n")
  {
    var head := (if floating then "--" else "") + SetManifestOpen;
    assert ParensAfterT(SetManifestOpen);
    ParensAfterTAppend(if floating then "--" else "", SetManifestOpen);
    var tail := depot + ", \"" + manifest + "\")" + "\n";
    assert forall j :: 0 <= j < |tail| ==> tail[j] != '(';
    ParensAfterTAppend(head, tail);
    assert ManifestLine(depot, manifest, floating) + "\n" == head + tail;
  }

  lemma {:induction false} ManifestLinesParens(refs: seq<(string, string)>, floating: bool)
    requires forall i :: 0 <= i < |refs| ==> IsDigitString(refs[i].0)
    requires forall i, k :: 0 <= i < |refs| && 0 <= k < |refs[i].1| ==> IsWordChar(refs[i].1[k])
    ensures ParensAfterT(Render(ManifestLines(refs, floating)))
  {
    if refs != [] {
      var ls := ManifestLines(refs, floating);
      assert ls[1..] == ManifestLines(refs[1..], floating);
      ManifestLinesParens(refs[1..], floating);
      ManifestLineParens(refs[0].0, refs[0].1, floating);
      ParensAfterTAppend(ls[0] + "\n", Render(ls[1..]));
    }
  }

  /** Reading a generated script with the SteamTools key pattern gives the
      base pair `(app_id, "None")` followed by the depots in order: the
      `setManifestid` lines contribute nothing, commented out or not. */
  lemma ScriptReadsBack(appId: string, depots: seq<(string, string)>, refs: seq<(string, string)>, floating: bool)
    requires IsDigitString(appId)
    requires forall i :: 0 <= i < |depots| ==>
      IsDigitString(depots[i].0) && |depots[i].1| > 0 && '"' !in depots[i].1
    requires forall i :: 0 <= i < |refs| ==> IsDigitString(refs[i].0)
    requires forall i, k :: 0 <= i < |refs| && 0 <= k < |refs[i].1| ==> IsWordChar(refs[i].1[k])
    ensures ScanKeys(Script(appId, depots, refs, floating), true) == [(appId, "None")] + depots
  {
    var all := [(appId, "None")] + depots;
    assert DepotLines(all) == [BaseLine(appId)] + DepotLines(depots);
    var ml := ManifestLines(refs, floating);
    assert ScriptLines(appId, depots, refs, floating) == DepotLines(all) + ml;
    RenderAppend(DepotLines(all), ml);
    ManifestLinesParens(refs, floating);
    NoAddAppId(Render(ml));
    ScanKeysNone(Render(ml), true);
    ScanDepotLines(all, Render(ml));
  }
}
