/**
 * The per-addon objects of the indexer: ArmaAddonHelper, the mutable handle one addon carries through
 * a run, and ArmaAddonImpl, the finished addon built from a handle; and the assembly of the final
 * addon list. A parsed config (HeaderFile) is represented by its path; the parser itself is not
 * part of this model.
 */
module Addons {
  import opened Common

  /** What the config parser returns for one file: the file and the macros it defines. */
  datatype ParseResult = ParseResult(file: string, defineMacros: map<string, string>)

  /** The handle of one addon during a run. Progress counters (doubles) are not modelled. */
  class ArmaAddonHelper {
    const addonDirectory: string
    var cancelled: bool
    var parseResults: seq<ParseResult>
    var addonDirectoryInReferenceDirectory: Option<string>

    constructor (addonDirectory: string)
      ensures this.addonDirectory == addonDirectory
      ensures !cancelled && parseResults == [] && addonDirectoryInReferenceDirectory == None
    {
      this.addonDirectory := addonDirectory;
      cancelled := false;
      parseResults := [];
      addonDirectoryInReferenceDirectory := None;
    }

    /** cancel(): the flag is set and stays set; nothing else changes. */
    method Cancel()
      modifies this
      ensures cancelled
      ensures parseResults == old(parseResults)
      ensures addonDirectoryInReferenceDirectory == old(addonDirectoryInReferenceDirectory)
    {
      cancelled := true;
    }

    function IsCancelled(): bool
      reads this
    {
      cancelled
    }

    /** getParseResults().add(r), as the parse stage does for each config that parses. */
    method AddParseResult(r: ParseResult)
      modifies this
      ensures parseResults == old(parseResults) + [r]
      ensures cancelled == old(cancelled)
      ensures addonDirectoryInReferenceDirectory == old(addonDirectoryInReferenceDirectory)
    {
      parseResults := parseResults + [r];
    }

    method SetAddonDirectoryInReferenceDirectory(f: string)
      modifies this
      ensures addonDirectoryInReferenceDirectory == Some(f)
      ensures cancelled == old(cancelled) && parseResults == old(parseResults)
    {
      addonDirectoryInReferenceDirectory := Some(f);
    }
  }

  // ---------------------------------------------------------------------------------------------
  // The merge of the parse results into one addon.

  function ConfigFilesOf(results: seq<ParseResult>): (files: seq<string>)
    ensures |files| == |results|
    ensures forall i :: 0 <= i < |results| ==> files[i] == results[i].file
  {
    if results == [] then [] else ConfigFilesOf(results[..|results| - 1]) + [results[|results| - 1].file]
  }

  /** The macro table after putting every result's macros in turn: later results overwrite earlier ones. */
  function MergeMacros(results: seq<ParseResult>): map<string, string>
  {
    if results == [] then map[] else MergeMacros(results[..|results| - 1]) + results[|results| - 1].defineMacros
  }

  /**
   * A macro is in the merged table exactly when some result defines it, and its value is the one
   * given by the last result that defines it.
   */
  lemma {:induction false} MergeMacrosLastWins(results: seq<ParseResult>, name: string)
    ensures name in MergeMacros(results) <==> exists i :: 0 <= i < |results| && name in results[i].defineMacros
    ensures name in MergeMacros(results) ==>
              exists i :: 0 <= i < |results| && name in results[i].defineMacros
                          && MergeMacros(results)[name] == results[i].defineMacros[name]
                          && forall j :: i < j < |results| ==> name !in results[j].defineMacros
  {
    if results != [] {
      var init := results[..|results| - 1];
      var last := results[|results| - 1];
      MergeMacrosLastWins(init, name);
      if name in last.defineMacros {
        assert MergeMacros(results)[name] == last.defineMacros[name];
      } else if name in MergeMacros(init) {
        var i :| 0 <= i < |init| && name in init[i].defineMacros
                 && MergeMacros(init)[name] == init[i].defineMacros[name]
                 && forall j :: i < j < |init| ==> name !in init[j].defineMacros;
        assert results[i] == init[i];
        assert forall j :: i < j < |results| ==> name !in results[j].defineMacros by {
          forall j | i < j < |results| ensures name !in results[j].defineMacros {
            if j < |init| { assert results[j] == init[j]; }
          }
        }
      }
      if exists i :: 0 <= i < |results| && name in results[i].defineMacros {
        var i :| 0 <= i < |results| && name in results[i].defineMacros;
        if i < |init| { assert init[i] == results[i]; }
      }
    }
  }

  /** The finished addon: config files in parse-result order and the merged macro table. */
  class ArmaAddonImpl {
    const configFiles: seq<string>
    const addonDirectory: string
    const defineMacros: map<string, string>
    const addonDirectoryInReferenceDirectory: Option<string>

    constructor (helper: ArmaAddonHelper)
      ensures configFiles == ConfigFilesOf(helper.parseResults)
      ensures defineMacros == MergeMacros(helper.parseResults)
      ensures addonDirectory == helper.addonDirectory
      ensures addonDirectoryInReferenceDirectory == helper.addonDirectoryInReferenceDirectory
    {
      var results := helper.parseResults;
      var parsedConfigs: seq<string> := [];
      var macros: map<string, string> := map[];
      for i := 0 to |results|
        invariant parsedConfigs == ConfigFilesOf(results[..i])
        invariant macros == MergeMacros(results[..i])
      {
        assert results[..i + 1][..i] == results[..i];
        parsedConfigs := parsedConfigs + [results[i].file];
        macros := PutAll(macros, results[i].defineMacros);
      }
      assert results[..|results|] == results;
      configFiles := parsedConfigs;
      addonDirectory := helper.addonDirectory;
      defineMacros := macros;
      addonDirectoryInReferenceDirectory := helper.addonDirectoryInReferenceDirectory;
    }
  }

  /** `defineMacros.forEach((name, value) -> table.put(name, value))`, one key at a time. */
  method PutAll(table: map<string, string>, defined: map<string, string>) returns (r: map<string, string>)
    ensures r == table + defined
  {
    r := table;
    var todo := defined.Keys;
    while todo != {}
      invariant todo <= defined.Keys
      invariant forall k :: k in r <==> k in table || (k in defined && k !in todo)
      invariant forall k :: k in r ==> r[k] == if k in defined && k !in todo then defined[k] else table[k]
      decreases todo
    {
      var name :| name in todo;
      r := r[name := defined[name]];
      todo := todo - {name};
    }
  }

  // ---------------------------------------------------------------------------------------------
  // The final addon list.

  /** The helpers that were not cancelled, in discovery order. */
  function Kept(helpers: seq<ArmaAddonHelper>): seq<ArmaAddonHelper>
    reads helpers
  {
    if helpers == [] then []
    else Kept(helpers[..|helpers| - 1]) + (if helpers[|helpers| - 1].cancelled then [] else [helpers[|helpers| - 1]])
  }

  /** A helper is kept exactly when it is one of the helpers and was not cancelled. */
  lemma {:induction false} KeptMembers(helpers: seq<ArmaAddonHelper>, h: ArmaAddonHelper)
    ensures h in Kept(helpers) <==> h in helpers && !h.cancelled
  {
    if helpers != [] {
      var init := helpers[..|helpers| - 1];
      KeptMembers(init, h);
      assert helpers == init + [helpers[|helpers| - 1]];
    }
  }

  /**
   * The closing loop of doLoadAddons: one ArmaAddonImpl per helper that was not cancelled, in the
   * order the helpers were discovered.
   */
  method FinalAddonList(helpers: seq<ArmaAddonHelper>) returns (addons: seq<ArmaAddonImpl>)
    ensures |addons| == |Kept(helpers)|
    ensures forall i :: 0 <= i < |addons| ==>
              fresh(addons[i])
              && addons[i].addonDirectory == Kept(helpers)[i].addonDirectory
              && addons[i].configFiles == ConfigFilesOf(Kept(helpers)[i].parseResults)
              && addons[i].defineMacros == MergeMacros(Kept(helpers)[i].parseResults)
              && addons[i].addonDirectoryInReferenceDirectory == Kept(helpers)[i].addonDirectoryInReferenceDirectory
  {
    addons := [];
    for i := 0 to |helpers|
      invariant |addons| == |Kept(helpers[..i])|
      invariant forall j :: 0 <= j < |addons| ==>
                  fresh(addons[j])
                  && addons[j].addonDirectory == Kept(helpers[..i])[j].addonDirectory
                  && addons[j].configFiles == ConfigFilesOf(Kept(helpers[..i])[j].parseResults)
                  && addons[j].defineMacros == MergeMacros(Kept(helpers[..i])[j].parseResults)
                  && addons[j].addonDirectoryInReferenceDirectory == Kept(helpers[..i])[j].addonDirectoryInReferenceDirectory
    {
      var helper := helpers[i];
      assert helpers[..i + 1][..i] == helpers[..i];
      if helper.IsCancelled() {
        assert Kept(helpers[..i + 1]) == Kept(helpers[..i]);
        continue;
      }
      assert Kept(helpers[..i + 1]) == Kept(helpers[..i]) + [helper];
      forall j | 0 <= j < |addons| ensures Kept(helpers[..i])[j] in helpers {
        KeptMembers(helpers[..i], Kept(helpers[..i])[j]);
      }
      var addon := new ArmaAddonImpl(helper);
      addons := addons + [addon];
    }
    assert helpers[..|helpers|] == helpers;
  }
}
