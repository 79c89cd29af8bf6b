/**
 * The gallery registry: the lookup built from the bundled artwork modules,
 * the list of its paths, and the resolution of a route path to an artwork,
 * falling back to loading a local module by a normalised relative path.
 */
module Gallery {
  import opened Wrappers
  import opened Paths

  /** The `path` member of a default export. */
  datatype PathField = NoPath | StringPath(s: string) | OtherPath(truthy: bool)

  /** An artwork object; `id` tells artworks with the same path apart. */
  datatype Artwork = Artwork(id: nat, path: PathField)

  /** The `default` member of one export of an imported module. */
  datatype DefaultExport =
    | Absent
    | Primitive(truthy: bool)
    | FunctionValue
    | ObjectValue(artwork: Artwork)

  /** The keys of the lookup in creation order, and what each maps to. */
  datatype Index = Index(keys: seq<string>, entries: map<string, Artwork>)

  /** The keys are those of the map, each listed once. */
  ghost predicate WellFormed(idx: Index) {
    && (forall k :: k in idx.keys <==> k in idx.entries)
    && (forall i, j :: 0 <= i < j < |idx.keys| ==> idx.keys[i] != idx.keys[j])
  }

  /** A truthy default export that is an object with a truthy string `path`. */
  predicate Indexed(e: DefaultExport) {
    e.ObjectValue? && e.artwork.path.StringPath? && e.artwork.path.s != ""
  }

  /** `acc[path] = e`: a new key goes to the end, an existing key keeps its place. */
  function Put(idx: Index, k: string, a: Artwork): Index {
    Index(if k in idx.entries then idx.keys else idx.keys + [k], idx.entries[k := a])
  }

  /** The lookup after the exports `es`, taken in order. */
  function Lookup(es: seq<DefaultExport>): Index {
    if |es| == 0 then Index([], map[])
    else
      var prior := Lookup(es[..|es| - 1]);
      var e := es[|es| - 1];
      if Indexed(e) then Put(prior, e.artwork.path.s, e.artwork) else prior
  }

  /** All the exports of all the imports, in order. */
  function Flatten(imports: seq<seq<DefaultExport>>): seq<DefaultExport> {
    if |imports| == 0 then [] else Flatten(imports[..|imports| - 1]) + imports[|imports| - 1]
  }

  /**
   * `buildLookupFromImports`: every import's exports are scanned in order and
   * the indexable ones are written into the accumulator under their path.
   */
  method BuildLookupFromImports(imports: seq<seq<DefaultExport>>) returns (idx: Index)
    ensures idx == Lookup(Flatten(imports))
  {
    idx := Index([], map[]);
    var m := 0;
    while m < |imports|
      invariant 0 <= m <= |imports|
      invariant idx == Lookup(Flatten(imports[..m]))
    {
      assert imports[..m + 1][..m] == imports[..m];
      idx := AddExports(idx, Flatten(imports[..m]), imports[m]);
      m := m + 1;
    }
    assert imports[..m] == imports;
  }

  /** The `reduce` callback: the exports of one import written into the accumulator after `before`. */
  method AddExports(acc: Index, ghost before: seq<DefaultExport>, exports: seq<DefaultExport>) returns (idx: Index)
    requires acc == Lookup(before)
    ensures idx == Lookup(before + exports)
  {
    idx := acc;
    var n := 0;
    assert before + exports[..0] == before;
    while n < |exports|
      invariant 0 <= n <= |exports|
      invariant idx == Lookup(before + exports[..n])
    {
      var e := exports[n];
      assert (before + exports[..n + 1])[..|before| + n] == before + exports[..n];
      if e.ObjectValue? && e.artwork.path.StringPath? && e.artwork.path.s != "" {
        idx := Put(idx, e.artwork.path.s, e.artwork);
      }
      n := n + 1;
    }
    assert exports[..n] == exports;
  }

  /** Every lookup is well formed. */
  lemma {:induction false} LookupWellFormed(es: seq<DefaultExport>)
    ensures WellFormed(Lookup(es))
  {
    if |es| > 0 {
      LookupWellFormed(es[..|es| - 1]);
    }
  }

  /** Export `e` would be written into the lookup under `k`. */
  predicate Carries(e: DefaultExport, k: string) {
    Indexed(e) && e.artwork.path.s == k
  }

  /**
   * A path is a key exactly when some indexable export carries it, and it maps
   * to the last such export: a later export overwrites an earlier one.
   */
  lemma LookupLastWins(es: seq<DefaultExport>, k: string)
    ensures k in Lookup(es).entries <==> exists i :: 0 <= i < |es| && Carries(es[i], k)
    ensures k in Lookup(es).entries ==>
      exists i :: 0 <= i < |es| && Carries(es[i], k)
        && Lookup(es).entries[k] == es[i].artwork
        && forall j :: i < j < |es| ==> !Carries(es[j], k)
  {
    LookupHas(es, k);
    if k in Lookup(es).entries {
      var i := LastCarrier(es, k);
    }
  }

  /** A path is a key exactly when some export carries it. */
  lemma {:induction false} LookupHas(es: seq<DefaultExport>, k: string)
    ensures k in Lookup(es).entries <==> exists i :: 0 <= i < |es| && Carries(es[i], k)
  {
    if |es| > 0 {
      var n := |es| - 1;
      var prior := es[..n];
      LookupHas(prior, k);
      if Carries(es[n], k) {
        assert k in Lookup(es).entries;
      } else {
        assert k in Lookup(es).entries <==> k in Lookup(prior).entries;
        if exists i :: 0 <= i < |es| && Carries(es[i], k) {
          var i :| 0 <= i < |es| && Carries(es[i], k);
          assert prior[i] == es[i];
        }
        if exists i :: 0 <= i < n && Carries(prior[i], k) {
          var i :| 0 <= i < n && Carries(prior[i], k);
          assert es[i] == prior[i];
        }
      }
    }
  }

  /** The last export carrying a key is the one the key maps to. */
  lemma {:induction false} LastCarrier(es: seq<DefaultExport>, k: string) returns (i: nat)
    requires k in Lookup(es).entries
    ensures i < |es| && Carries(es[i], k) && Lookup(es).entries[k] == es[i].artwork
    ensures forall j :: i < j < |es| ==> !Carries(es[j], k)
  {
    var n := |es| - 1;
    var prior := es[..n];
    if Carries(es[n], k) {
      i := n;
    } else {
      assert k in Lookup(prior).entries && Lookup(es).entries[k] == Lookup(prior).entries[k];
      i := LastCarrier(prior, k);
      assert es[i] == prior[i];
      forall j | i < j < |es|
        ensures !Carries(es[j], k)
      {
        if j < n {
          assert es[j] == prior[j];
        }
      }
    }
  }

  /** `getGalleryIndex`: the paths of the lookup, each once. */
  function GetGalleryIndex(idx: Index): (paths: seq<string>)
    requires WellFormed(idx)
    ensures forall k :: k in paths <==> k in idx.entries
    ensures forall i, j :: 0 <= i < j < |paths| ==> paths[i] != paths[j]
  {
    idx.keys
  }

  /** `loadLocalArtwork`'s module specifier: "." followed by the segments other than "." and "..". */
  function Normalize(path: seq<string>): (r: string)
    ensures |r| >= 1 && r[0] == '.'
  {
    Join(["."] + Remove(path, IsDotSegment))
  }

  predicate IsDotSegment(s: string) {
    s == "." || s == ".."
  }

  /**
   * When no segment holds a "/", the normalised specifier splits back into
   * "." and the kept segments: it starts at "." and never climbs with "..".
   */
  lemma NormalizeStaysLocal(path: seq<string>)
    requires forall i :: 0 <= i < |path| ==> NoSep(path[i])
    ensures Split(Normalize(path)) == ["."] + Remove(path, IsDotSegment)
    ensures Split(Normalize(path))[0] == "."
    ensures forall i :: 0 <= i < |Split(Normalize(path))| ==> Split(Normalize(path))[i] != ".."
  {
    var kept := ["."] + Remove(path, IsDotSegment);
    assert NoSep(".");
    forall i | 0 <= i < |kept|
      ensures NoSep(kept[i])
    {
      if i > 0 {
        assert kept[i] in path;
      }
    }
    SplitJoin(kept);
  }

  /** `new RegExp(pattern).test(text)` for a pattern of literal characters and "." wildcards. */
  predicate RegexTest(pattern: string, text: string) {
    exists start :: 0 <= start && start + |pattern| <= |text| && MatchesAt(pattern, text, start)
  }

  predicate MatchesAt(pattern: string, text: string, start: nat)
    requires start + |pattern| <= |text|
  {
    forall i :: 0 <= i < |pattern| ==> pattern[i] == '.' || pattern[i] == text[start + i]
  }

  /** A message that quotes the pattern literally matches it. */
  lemma QuotedMessageMatches(pattern: string, before: string, after: string)
    ensures RegexTest(pattern, before + pattern + after)
  {
    var text := before + pattern + after;
    assert MatchesAt(pattern, text, |before|);
  }

  /** What `require(specifier)` does: return a module (with its `default`), or throw. */
  datatype LoadOutcome = Loaded(loaded: Option<DefaultExport>) | Threw(isError: bool, message: string)

  /** What resolving a path gives. */
  datatype Resolution =
    | FromIndex(artwork: Artwork)
    | FromModule(value: DefaultExport)
    | NotFound
    | Rethrown(isError: bool, message: string)

  /**
   * `loadLocalArtwork(path)`, the module loader being `load`: a missing module
   * gives `undefined`; a load error whose message matches the specifier gives
   * `null`; any other thrown value is thrown on.
   */
  function LoadLocalArtwork(path: seq<string>, load: string -> LoadOutcome): (r: Resolution)
    ensures load(Normalize(path)).Loaded? ==>
      r == FromModule(if load(Normalize(path)).loaded.Some? then load(Normalize(path)).loaded.value else Absent)
    ensures load(Normalize(path)).Threw? ==>
      (r.NotFound? <==> load(Normalize(path)).isError && RegexTest(Normalize(path), load(Normalize(path)).message))
    ensures load(Normalize(path)).Threw? && !r.NotFound? ==>
      r == Rethrown(load(Normalize(path)).isError, load(Normalize(path)).message)
    ensures r.Rethrown? ==> load(Normalize(path)) == Threw(r.isError, r.message)
    ensures !r.FromIndex?
  {
    var spec := Normalize(path);
    match load(spec)
    case Loaded(m) => FromModule(if m.Some? then m.value else Absent)
    case Threw(isError, message) =>
      if isError && RegexTest(spec, message) then NotFound else Rethrown(isError, message)
  }

  /**
   * `getArtworkRenderer(path)`: the indexed artwork when the joined path is a
   * key of the lookup; only otherwise is a local module loaded.
   */
  function GetArtworkRenderer(idx: Index, path: seq<string>, load: string -> LoadOutcome): (r: Resolution)
    ensures Join(path) in idx.entries ==> r == FromIndex(idx.entries[Join(path)])
    ensures Join(path) !in idx.entries ==> r == LoadLocalArtwork(path, load) && !r.FromIndex?
  {
    var known := Join(path);
    if known in idx.entries then FromIndex(idx.entries[known]) else LoadLocalArtwork(path, load)
  }

  /**
   * A load error that quotes the specifier resolves to "not found", whatever
   * the rest of its message says.
   */
  lemma MissingModuleNotFound(idx: Index, path: seq<string>, before: string, after: string, load: string -> LoadOutcome)
    requires Join(path) !in idx.entries
    requires load(Normalize(path)) == Threw(true, before + Normalize(path) + after)
    ensures GetArtworkRenderer(idx, path, load) == NotFound
  {
    QuotedMessageMatches(Normalize(path), before, after);
  }
}
