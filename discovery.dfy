/**
 * Addon discovery and the choice of the temporary extraction directory, from doLoadAddons.
 * Directory listings are given as sequences of entry names; a listing the JVM could not produce
 * (a missing root, a root that is a file, an I/O error) is `None`.
 */
module AddonDiscovery {
  import opened Common

  // ---------------------------------------------------------------------------------------------
  // Which directories under an addon root are indexed.

  /**
   * The name filter handed to listFiles: an addon directory is named with a leading '@', is not
   * blacklisted, and is whitelisted unless the whitelist is empty. The blacklist wins over the
   * whitelist.
   */
  function AcceptAddonName(name: string, blacklist: seq<string>, whitelist: seq<string>): (ok: bool)
    ensures ok <==> |name| > 0 && name[0] == '@' && name !in blacklist && (whitelist == [] || name in whitelist)
    ensures name in blacklist ==> !ok
    ensures whitelist == [] ==> (ok <==> |name| > 0 && name[0] == '@' && name !in blacklist)
  {
    if |name| == 0 then false
    else if name[0] != '@' then false
    else if name in blacklist then false
    else
      var useWhitelist := whitelist != [];
      !useWhitelist || name in whitelist
  }

  /** The addon directories marked for indexing, root after root, each root in listing order. */
  function Discovered(roots: seq<Option<seq<string>>>, blacklist: seq<string>, whitelist: seq<string>): seq<string>
  {
    if roots == [] then []
    else
      var last := roots[|roots| - 1];
      Discovered(roots[..|roots| - 1], blacklist, whitelist)
        + (if last.Some? then Filter(last.value, n => AcceptAddonName(n, blacklist, whitelist)) else [])
  }

  /** A name is discovered exactly when some readable root lists it and the filter accepts it. */
  lemma {:induction false} DiscoveredMembers(roots: seq<Option<seq<string>>>, blacklist: seq<string>, whitelist: seq<string>, n: string)
    ensures n in Discovered(roots, blacklist, whitelist)
        <==> (exists i :: 0 <= i < |roots| && roots[i].Some? && n in roots[i].value)
             && AcceptAddonName(n, blacklist, whitelist)
  {
    if roots != [] {
      var init := roots[..|roots| - 1];
      DiscoveredMembers(init, blacklist, whitelist, n);
      if exists i :: 0 <= i < |roots| && roots[i].Some? && n in roots[i].value {
        var i :| 0 <= i < |roots| && roots[i].Some? && n in roots[i].value;
        if i < |init| {
          assert init[i] == roots[i];
        }
      }
      if exists i :: 0 <= i < |init| && init[i].Some? && n in init[i].value {
        var i :| 0 <= i < |init| && init[i].Some? && n in init[i].value;
        assert roots[i] == init[i];
      }
    }
  }

  /** The discovery loops of doLoadAddons: every root, then every accepted entry of it, in order. */
  method DiscoverAddons(roots: seq<Option<seq<string>>>, blacklist: seq<string>, whitelist: seq<string>)
    returns (helpers: seq<string>)
    ensures helpers == Discovered(roots, blacklist, whitelist)
    ensures forall n :: n in helpers ==> AcceptAddonName(n, blacklist, whitelist)
  {
    helpers := [];
    for r := 0 to |roots|
      invariant helpers == Discovered(roots[..r], blacklist, whitelist)
    {
      assert roots[..r + 1][..r] == roots[..r];
      if roots[r].Some? {
        var files := Filter(roots[r].value, n => AcceptAddonName(n, blacklist, whitelist));
        ghost var before := helpers;
        for j := 0 to |files|
          invariant helpers == before + files[..j]
        {
          assert files[..j + 1] == files[..j] + [files[j]];
          helpers := helpers + [files[j]];
        }
        assert files[..|files|] == files;
      }
    }
    assert roots[..|roots|] == roots;
    forall n | n in helpers ensures AcceptAddonName(n, blacklist, whitelist) {
      DiscoveredMembers(roots, blacklist, whitelist, n);
    }
  }

  // ---------------------------------------------------------------------------------------------
  // The temporary extraction directory inside the reference directory.

  const TempDirBase: string := "_armaPluginTemp"

  /** The candidate temp directory name after `k` clashes: the base name and `k` underscores. */
  function TempName(k: nat): (r: string)
    ensures |r| == |TempDirBase| + k
  {
    TempDirBase + seq(k, _ => '_')
  }

  function MaxLen(names: seq<string>): (m: nat)
    ensures forall n :: n in names ==> |n| <= m
  {
    if names == [] then 0
    else
      var m := MaxLen(names[..|names| - 1]);
      assert forall n :: n in names ==> n in names[..|names| - 1] || n == names[|names| - 1];
      if |names[|names| - 1]| > m then |names[|names| - 1]| else m
  }

  datatype TempDirChoice = Chosen(name: string) | ListingFailed

  /**
   * The `while (true)` loop that appends '_' to the temp directory name until no entry of the
   * reference directory carries that name. It stops because a name longer than every entry of the
   * finite listing cannot clash. A listing that cannot be read is the source's IllegalStateException.
   */
  method ChooseTempDirName(listing: Option<seq<string>>) returns (r: TempDirChoice)
    ensures listing.None? <==> r.ListingFailed?
    ensures r.Chosen? ==> r.name !in listing.value
    ensures r.Chosen? ==> exists k: nat :: r.name == TempName(k) && forall j: nat :: j < k ==> TempName(j) in listing.value
  {
    var tempDirName := TempDirBase;
    ghost var k: nat := 0;
    assert TempName(0) == TempDirBase;
    while true
      invariant tempDirName == TempName(k)
      invariant listing.Some? ==> forall j: nat :: j < k ==> TempName(j) in listing.value
      decreases if listing.Some? && |tempDirName| <= MaxLen(listing.value) then MaxLen(listing.value) + 1 - |tempDirName| else 0
    {
      if listing.None? {
        return ListingFailed;
      }
      var files := listing.value;
      var matched := false;
      for i := 0 to |files|
        invariant !matched ==> forall j :: 0 <= j < i ==> files[j] != tempDirName
      {
        if files[i] == tempDirName {
          assert TempName(k) in files;
          assert TempName(k + 1) == tempDirName + "_";
          tempDirName := tempDirName + "_";
          k := k + 1;
          matched := true;
          break;
        }
      }
      if !matched {
        break;
      }
    }
    r := Chosen(tempDirName);
  }
}
