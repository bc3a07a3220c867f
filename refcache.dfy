/**
 * The reference-cache check of loadAddonFromReferenceDirectory: an addon is loaded from the
 * reference directory, skipping extraction and conversion, when an entry named like the addon is a
 * directory whose `.cacheproperties` marker does not say `valid=false`.
 */
module ReferenceCache {
  import opened Common
  import opened FileTree

  const CachePropertiesName: string := ".cacheproperties"

  /** The outcome of Properties.load on the marker: its key/value pairs, or an IOException. */
  datatype MarkerRead = Unreadable | Loaded(props: map<string, string>)

  /**
   * What the check decides: reprocess the addon from its archives, take the cached entry, or (in
   * the code as written) fail with a NullPointerException that ends the whole indexing run.
   */
  datatype CacheDecision = Reprocess | CacheHit(entry: FsNode) | ValidPropertyMissing

  /** The first entry of a listing with exactly the given name (listFiles with a name filter, then [0]). */
  function FirstNamed(entries: seq<FsNode>, name: string): (r: Option<FsNode>)
    ensures r.None? <==> forall e :: e in entries ==> e.name != name
    ensures r.Some? ==> exists i :: 0 <= i < |entries| && entries[i] == r.value && r.value.name == name
                          && forall j :: 0 <= j < i ==> entries[j].name != name
  {
    if entries == [] then None
    else if entries[0].name == name then
      assert entries[0] == entries[0];
      Some(entries[0])
    else
      var r := FirstNamed(entries[1..], name);
      assert forall e :: e in entries ==> e == entries[0] || e in entries[1..];
      if r.Some? then
        var i :| 0 <= i < |entries[1..]| && entries[1..][i] == r.value && r.value.name == name
                 && forall j :: 0 <= j < i ==> entries[1..][j].name != name;
        assert entries[i + 1] == r.value;
        assert forall j :: 0 <= j < i + 1 ==> entries[j].name != name by {
          forall j | 0 <= j < i + 1 ensures entries[j].name != name {
            if j > 0 { assert entries[j] == entries[1..][j - 1]; }
          }
        }
        r
      else r
  }

  /** Whether the cached entry carries a `.cacheproperties` marker. */
  predicate HasMarker(entry: FsNode)
  {
    FirstNamed(Children(entry), CachePropertiesName).Some?
  }

  /** The marker was read and says `valid=false`: the only way a present entry is distrusted. */
  predicate MarkedInvalid(entry: FsNode, marker: MarkerRead)
  {
    HasMarker(entry) && marker.Loaded? && "valid" in marker.props && marker.props["valid"] == "false"
  }

  /**
   * The check as the source writes it. `marker` is what reading the entry's marker gives; it is
   * consulted only when the entry has one. A marker without a `valid` key makes getProperty return
   * null, and `valid.equals("false")` then throws.
   */
  function CacheDecisionAsWritten(refEntries: seq<FsNode>, addonName: string, marker: MarkerRead): CacheDecision
  {
    var found := FirstNamed(refEntries, addonName);
    if found.None? then Reprocess
    else if !found.value.Dir? then Reprocess
    else if HasMarker(found.value) && marker.Loaded? && "valid" !in marker.props then ValidPropertyMissing
    else if HasMarker(found.value) && marker.Loaded? && marker.props["valid"] == "false" then Reprocess
    else CacheHit(found.value)
  }

  /** A marker holding other keys but no `valid` one ends the whole run instead of meaning "valid". */
  lemma MarkerWithoutValidKeyAbortsRun()
    ensures CacheDecisionAsWritten([Dir("@A", [File(".cacheproperties", 0)])], "@A", Loaded(map["built" := "1"]))
            == ValidPropertyMissing
  {
    assert FirstNamed([File(".cacheproperties", 0)], CachePropertiesName).Some?;
  }

  /**
   * The check as evidently intended: a marker without a `valid` key is treated like a missing
   * marker. The entry is trusted exactly when it exists, is a directory and is not marked invalid.
   */
  function CacheDecisionOf(refEntries: seq<FsNode>, addonName: string, marker: MarkerRead): (d: CacheDecision)
    ensures !d.ValidPropertyMissing?
    ensures d.CacheHit? <==> (FirstNamed(refEntries, addonName).Some? && FirstNamed(refEntries, addonName).value.Dir?
                              && !MarkedInvalid(FirstNamed(refEntries, addonName).value, marker))
    ensures d.CacheHit? ==> d.entry.name == addonName && d.entry in refEntries && d.entry.Dir?
    ensures (forall e :: e in refEntries ==> e.name != addonName) ==> d == Reprocess
  {
    var found := FirstNamed(refEntries, addonName);
    if found.None? then Reprocess
    else if !found.value.Dir? then Reprocess
    else if MarkedInvalid(found.value, marker) then Reprocess
    else CacheHit(found.value)
  }

  /** The two agree on every input except a present marker that was read and lacks `valid`. */
  lemma CacheDecisionAgreement(refEntries: seq<FsNode>, addonName: string, marker: MarkerRead)
    ensures var found := FirstNamed(refEntries, addonName);
      if found.Some? && found.value.Dir? && HasMarker(found.value) && marker.Loaded? && "valid" !in marker.props
      then CacheDecisionAsWritten(refEntries, addonName, marker) == ValidPropertyMissing
           && CacheDecisionOf(refEntries, addonName, marker) == CacheHit(found.value)
      else CacheDecisionAsWritten(refEntries, addonName, marker) == CacheDecisionOf(refEntries, addonName, marker)
  {
  }

  /**
   * loadAddonFromReferenceDirectory up to the parse: decide, and on a hit collect the entry's
   * `config.cpp` files for parsing. `loaded` is the method's boolean result.
   */
  method LoadFromReferenceDirectory(refEntries: seq<FsNode>, addonName: string, marker: MarkerRead)
    returns (loaded: bool, configFiles: seq<FsNode>)
    ensures loaded <==> CacheDecisionOf(refEntries, addonName, marker).CacheHit?
    ensures loaded ==> configFiles == Filter(BfsOrder([CacheDecisionOf(refEntries, addonName, marker).entry]), IsConfigCpp)
    ensures !loaded ==> configFiles == []
  {
    var d := CacheDecisionOf(refEntries, addonName, marker);
    if !d.CacheHit? {
      return false, [];
    }
    configFiles := CollectConfigCpp(d.entry);
    loaded := true;
  }
}
