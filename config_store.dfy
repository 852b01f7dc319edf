/** Steam's `config/config.vdf` and the key files of manifest repositories,
    as parsed VDF (KeyValues) documents, and the depot-key merge
    `depotkey_merge` performs on them.

    Parsing and printing the text are not modelled: a document is the value
    `vdf.loads` returns, dicts keeping their insertion order. */
module ConfigStore {
  import opened Wrappers
  import opened Seqs

  datatype Vdf = Str(s: string) | Dict(entries: seq<(string, Vdf)>)

  const InstallConfigStore: string := "InstallConfigStore"
  const Software: string := "Software"
  const ValveUpper: string := "Valve"
  const ValveLower: string := "valve"
  const DepotsKey: string := "depots"
  const DecryptionKey: string := "DecryptionKey"

  /** What `vdf.loads` produces: every dict has distinct keys. */
  predicate WellFormed(v: Vdf)
  {
    match v
    case Str(_) => true
    case Dict(es) => NoDups(KeysOf(es)) && forall i :: 0 <= i < |es| ==> WellFormed(es[i].1)
  }

  /** Python truthiness: a non-empty string or a non-empty dict. */
  predicate Truthy(v: Vdf)
  {
    match v
    case Str(s) => s != []
    case Dict(es) => es != []
  }

  /** Why a merge is refused: the Steam section is absent or falsy, or a
      string stands where the code calls a dict method (the exception the
      source catches). */
  datatype MergeError = SectionMissing | NotADict

  /** `v.get(k, {})` on a dict; `None` for the exception raised on a string.
      A one-line primitive: its ensures spells out the body for callers. */
  function GetOr(v: Vdf, k: string): (r: Option<Vdf>)
    ensures r.None? <==> v.Str?
    ensures r.Some? ==> r.value == (if Lookup(v.entries, k).Some? then Lookup(v.entries, k).value else Dict([]))
  {
    if v.Str? then None
    else match Lookup(v.entries, k)
      case Some(x) => Some(x)
      case None => Some(Dict([]))
  }

  /** The child of a dict at `k`, or an empty dict. */
  function Child(v: Vdf, k: string): Vdf
  {
    if v.Dict? && Lookup(v.entries, k).Some? then Lookup(v.entries, k).value else Dict([])
  }

  /** `v[k] = x` on a dict. */
  function SetChild(v: Vdf, k: string, x: Vdf): Vdf
  {
    if v.Dict? then Dict(Put(v.entries, k, x)) else v
  }

  /** `InstallConfigStore/Software/Valve`, or failing that `.../valve`:
      the key chosen and the section found there. */
  function SteamSection(doc: Vdf): (r: Result<(string, Vdf), MergeError>)
    ensures r.Ok? ==> Truthy(r.value.1) && (r.value.0 == ValveUpper || r.value.0 == ValveLower)
  {
    match GetOr(doc, InstallConfigStore)
    case None => Err(NotADict)
    case Some(a) =>
      match GetOr(a, Software)
      case None => Err(NotADict)
      case Some(b) =>
        if b.Str? then Err(NotADict)
        else
          var upper := Lookup(b.entries, ValveUpper);
          if upper.Some? && Truthy(upper.value) then Ok((ValveUpper, upper.value))
          else
            var lower := Lookup(b.entries, ValveLower);
            if lower.Some? && Truthy(lower.value) then Ok((ValveLower, lower.value))
            else Err(SectionMissing)
  }

  /** The value stored for one depot: `{'DecryptionKey': key}`. */
  function DepotEntry(key: string): Vdf
  {
    Dict([(DecryptionKey, Str(key))])
  }

  /** `{'depots': {id: {'DecryptionKey': key} ...}}`'s inner dict, from the
      (id, key) pairs of a dict, in order. */
  function DepotEntries(pairs: seq<(string, string)>): (es: seq<(string, Vdf)>)
    ensures |es| == |pairs|
    ensures forall i :: 0 <= i < |pairs| ==> es[i] == (pairs[i].0, DepotEntry(pairs[i].1))
  {
    seq(|pairs|, i requires 0 <= i < |pairs| => (pairs[i].0, DepotEntry(pairs[i].1)))
  }

  /** The depots already in a section: its `depots` dict, none when absent. */
  function OldDepots(section: Vdf): seq<(string, Vdf)>
  {
    if section.Dict? && Lookup(section.entries, DepotsKey).Some? && Lookup(section.entries, DepotsKey).value.Dict?
    then Lookup(section.entries, DepotsKey).value.entries
    else []
  }

  /** `section.setdefault('depots', {}).update(incoming)`. */
  function MergeDepots(section: Vdf, incoming: seq<(string, string)>): Result<Vdf, MergeError>
  {
    if section.Str? then Err(NotADict)
    else
      var ds := Lookup(section.entries, DepotsKey);
      if ds.Some? && ds.value.Str? then Err(NotADict)
      else Ok(Dict(Put(section.entries, DepotsKey, Dict(PutAll(OldDepots(section), DepotEntries(incoming))))))
  }

  /** The document `depotkey_merge` writes back, or why it returns False. */
  function MergeDoc(doc: Vdf, incoming: seq<(string, string)>): Result<Vdf, MergeError>
  {
    match SteamSection(doc)
    case Err(e) => Err(e)
    case Ok((k, section)) =>
      match MergeDepots(section, incoming)
      case Err(e) => Err(e)
      case Ok(merged) =>
        var a := Child(doc, InstallConfigStore);
        var b := Child(a, Software);
        Ok(SetChild(doc, InstallConfigStore, SetChild(a, Software, SetChild(b, k, merged))))
  }

  // ---------------------------------------------------------------
  // Properties of the merge.

  /** The section is `Valve` when that is truthy, and `valve` only when
      `Valve` is absent or falsy; in both cases it hangs (as a real entry)
      under `InstallConfigStore/Software`. */
  lemma SteamSectionSpec(doc: Vdf)
    ensures var r := SteamSection(doc);
      r.Ok? ==>
        var a := Child(doc, InstallConfigStore);
        var b := Child(a, Software);
        && Lookup(doc.entries, InstallConfigStore).Some? && a.Dict?
        && Lookup(a.entries, Software).Some? && b.Dict?
        && Lookup(b.entries, r.value.0) == Some(r.value.1)
        && (r.value.0 == ValveLower <==>
             !(Lookup(b.entries, ValveUpper).Some? && Truthy(Lookup(b.entries, ValveUpper).value)))
  {
  }

  /** The merge is refused exactly when no truthy section is found, the
      section is a string, or its `depots` entry is a string. */
  lemma MergeDocFails(doc: Vdf, incoming: seq<(string, string)>)
    ensures MergeDoc(doc, incoming).Err? <==>
      || SteamSection(doc).Err?
      || SteamSection(doc).value.1.Str?
      || (var ds := Lookup(SteamSection(doc).value.1.entries, DepotsKey); ds.Some? && ds.value.Str?)
    ensures SteamSection(doc) == Err(SectionMissing) ==> MergeDoc(doc, incoming) == Err(SectionMissing)
  {
  }

  /** Lookups three levels down in a merged document. */
  function SectionOf(doc: Vdf, k: string): Vdf
  {
    Child(Child(Child(doc, InstallConfigStore), Software), k)
  }

  /** A successful merge touches nothing but the chosen section's `depots`:
      every other top-level entry, every other entry of
      `InstallConfigStore`, of `Software` (the unused one of `Valve` /
      `valve` included) and of the section keeps its value, and no key
      moves.  In `depots` an incoming id takes `{'DecryptionKey': key}` with
      the last key given for it, and every other id keeps its value. */
  lemma MergeDocSpec(doc: Vdf, incoming: seq<(string, string)>, x: string)
    requires MergeDoc(doc, incoming).Ok? && SteamSection(doc).Ok?
    ensures var d1, k := MergeDoc(doc, incoming).value, SteamSection(doc).value.0;
      var a, a1 := Child(doc, InstallConfigStore), Child(d1, InstallConfigStore);
      var b, b1 := Child(a, Software), Child(a1, Software);
      var s, s1 := SectionOf(doc, k), SectionOf(d1, k);
      && d1.Dict? && KeysOf(d1.entries) == KeysOf(doc.entries)
      && (x != InstallConfigStore ==> Lookup(d1.entries, x) == Lookup(doc.entries, x))
      && a1.Dict? && KeysOf(a1.entries) == KeysOf(a.entries)
      && (x != Software ==> Lookup(a1.entries, x) == Lookup(a.entries, x))
      && b1.Dict? && KeysOf(b1.entries) == KeysOf(b.entries)
      && (x != k ==> Lookup(b1.entries, x) == Lookup(b.entries, x))
      && s1.Dict? && (x != DepotsKey ==> Lookup(s1.entries, x) == Lookup(s.entries, x))
      && Lookup(s1.entries, DepotsKey).Some? && Lookup(s1.entries, DepotsKey).value.Dict?
      && Lookup(Lookup(s1.entries, DepotsKey).value.entries, x) ==
           match LastValue(incoming, x)
           case Some(key) => Some(DepotEntry(key))
           case None => Lookup(OldDepots(s), x)
  {
    var d1 := MergeDoc(doc, incoming).value;
    var (k, section) := SteamSection(doc).value;
    SteamSectionSpec(doc);
    var a := Child(doc, InstallConfigStore);
    var b := Child(a, Software);
    var merged := MergeDepots(section, incoming).value;
    var b1 := Dict(Put(b.entries, k, merged));
    var a1 := Dict(Put(a.entries, Software, b1));
    assert d1 == Dict(Put(doc.entries, InstallConfigStore, a1));
    PutKeyOrder(doc.entries, InstallConfigStore, a1);
    PutKeyOrder(a.entries, Software, b1);
    PutKeyOrder(b.entries, k, merged);
    PutLookup(doc.entries, InstallConfigStore, a1, x);
    PutLookup(doc.entries, InstallConfigStore, a1, InstallConfigStore);
    PutLookup(a.entries, Software, b1, x);
    PutLookup(a.entries, Software, b1, Software);
    PutLookup(b.entries, k, merged, x);
    PutLookup(b.entries, k, merged, k);
    var nd := PutAll(OldDepots(section), DepotEntries(incoming));
    PutLookup(section.entries, DepotsKey, Dict(nd), x);
    PutLookup(section.entries, DepotsKey, Dict(nd), DepotsKey);
    PutAllLookup(OldDepots(section), DepotEntries(incoming), x);
    LastValueEntries(incoming, x);
  }

  /** Assigning a key a dict already holds keeps the key order. */
  lemma PutKeyOrder<V>(d: seq<(string, V)>, k: string, v: V)
    requires Lookup(d, k).Some?
    ensures KeysOf(Put(d, k, v)) == KeysOf(d)
  {
    LookupAbsent(d, k);
    PutKeys(d, k, v);
  }

  /** The last entry written for an id carries the last key given for it. */
  lemma {:induction false} LastValueEntries(pairs: seq<(string, string)>, x: string)
    ensures LastValue(DepotEntries(pairs), x) ==
      match LastValue(pairs, x)
      case Some(key) => Some(DepotEntry(key))
      case None => None
  {
    if pairs != [] {
      var qs := pairs[..|pairs| - 1];
      assert DepotEntries(pairs)[..|pairs| - 1] == DepotEntries(qs);
      LastValueEntries(qs, x);
    }
  }

  /** Merging the same depots a second time changes nothing: the second
      merge finds the same section (a `valve` section is chosen again since
      `Valve` is untouched) and re-assigns values it already holds. */
  lemma MergeDocIdempotent(doc: Vdf, incoming: seq<(string, string)>)
    requires WellFormed(doc) && MergeDoc(doc, incoming).Ok?
    ensures MergeDoc(MergeDoc(doc, incoming).value, incoming) == MergeDoc(doc, incoming)
  {
    var d1 := MergeDoc(doc, incoming).value;
    var (k, section) := SteamSection(doc).value;
    SteamSectionSpec(doc);
    var a := Child(doc, InstallConfigStore);
    var b := Child(a, Software);
    var merged := MergeDepots(section, incoming).value;
    var b1 := Dict(Put(b.entries, k, merged));
    var a1 := Dict(Put(a.entries, Software, b1));
    assert d1 == Dict(Put(doc.entries, InstallConfigStore, a1));
    PutLookup(doc.entries, InstallConfigStore, a1, InstallConfigStore);
    PutLookup(a.entries, Software, b1, Software);
    PutLookup(b.entries, k, merged, k);
    PutLookup(b.entries, k, merged, ValveUpper);
    assert SteamSection(d1) == Ok((k, merged));
    var nd := PutAll(OldDepots(section), DepotEntries(incoming));
    PutLookup(section.entries, DepotsKey, Dict(nd), DepotsKey);
    assert OldDepots(merged) == nd;
    OldDepotsDistinct(doc, k, section);
    PutAllIdempotent(OldDepots(section), DepotEntries(incoming));
    PutPut(section.entries, DepotsKey, Dict(nd), Dict(nd));
    assert MergeDepots(merged, incoming) == Ok(merged);
    PutPut(b.entries, k, merged, merged);
    PutPut(a.entries, Software, b1, b1);
    PutPut(doc.entries, InstallConfigStore, a1, a1);
  }

  /** In a well-formed document the section's depot ids are distinct. */
  lemma OldDepotsDistinct(doc: Vdf, k: string, section: Vdf)
    requires WellFormed(doc) && SteamSection(doc) == Ok((k, section))
    ensures NoDups(KeysOf(OldDepots(section)))
  {
    SteamSectionSpec(doc);
    var a := Child(doc, InstallConfigStore);
    var b := Child(a, Software);
    LookupWellFormed(doc.entries, InstallConfigStore);
    LookupWellFormed(a.entries, Software);
    LookupWellFormed(b.entries, k);
    if section.Dict? && Lookup(section.entries, DepotsKey).Some? {
      LookupWellFormed(section.entries, DepotsKey);
    }
  }

  /** A value found in a well-formed dict is well formed. */
  lemma {:induction false} LookupWellFormed(es: seq<(string, Vdf)>, k: string)
    requires WellFormed(Dict(es)) && Lookup(es, k).Some?
    ensures WellFormed(Lookup(es, k).value)
  {
    if es[0].0 != k {
      assert KeysOf(es[1..]) == KeysOf(es)[1..];
      assert forall i :: 0 <= i < |es| - 1 ==> es[1..][i] == es[i + 1];
      LookupWellFormed(es[1..], k);
    }
  }

  // ---------------------------------------------------------------
  // Key files.

  /** `info['DecryptionKey']` for one depot's entry, when it is a string. */
  function DepotKey(info: Vdf): Option<string>
  {
    if info.Str? then None
    else
      var key := Lookup(info.entries, DecryptionKey);
      if key.Some? && key.value.Str? then Some(key.value.s) else None
  }

  /** `[(id, info['DecryptionKey']) for id, info in cfg.get('depots', {}).items()]`
      for the document parsed from a `key.vdf`: `None` where the code raises
      (a string where a dict is indexed, a missing `DecryptionKey`) and where
      the key is not a string. */
  function KeyFileDepots(cfg: Vdf): (r: Option<seq<(string, string)>>)
    ensures r.Some? <==>
      && cfg.Dict? && Child(cfg, DepotsKey).Dict?
      && forall i :: 0 <= i < |Child(cfg, DepotsKey).entries| ==> DepotKey(Child(cfg, DepotsKey).entries[i].1).Some?
    ensures r.Some? ==>
      var es := Child(cfg, DepotsKey).entries;
      && |r.value| == |es|
      && forall i :: 0 <= i < |es| ==> r.value[i] == (es[i].0, DepotKey(es[i].1).value)
  {
    match GetOr(cfg, DepotsKey)
    case None => None
    case Some(ds) =>
      if ds.Str? then None else KeyPairs(ds.entries)
  }

  /** One `(id, DecryptionKey)` pair per entry, in order, or `None` as soon
      as one entry has no string key. */
  function KeyPairs(es: seq<(string, Vdf)>): (r: Option<seq<(string, string)>>)
    ensures r.Some? <==> forall i :: 0 <= i < |es| ==> DepotKey(es[i].1).Some?
    ensures r.Some? ==> |r.value| == |es| && forall i :: 0 <= i < |es| ==> r.value[i] == (es[i].0, DepotKey(es[i].1).value)
  {
    if es == [] then Some([])
    else match DepotKey(es[0].1)
      case None => None
      case Some(key) =>
        match KeyPairs(es[1..])
        case None => None
        case Some(rest) =>
          assert forall i :: 1 <= i < |es| ==> es[1..][i - 1] == es[i];
          Some([(es[0].0, key)] + rest)
  }

  /** A key file in the shape the merge writes is read back as the pairs it
      was built from. */
  lemma {:induction false} KeyPairsOfEntries(pairs: seq<(string, string)>)
    ensures KeyPairs(DepotEntries(pairs)) == Some(pairs)
  {
    if pairs != [] {
      assert DepotEntries(pairs)[1..] == DepotEntries(pairs[1..]);
      KeyPairsOfEntries(pairs[1..]);
      assert pairs == [pairs[0]] + pairs[1..];
    }
  }

  lemma KeyFileRoundTrip(pairs: seq<(string, string)>)
    ensures KeyFileDepots(Dict([(DepotsKey, Dict(DepotEntries(pairs)))])) == Some(pairs)
  {
    KeyPairsOfEntries(pairs);
  }
}
