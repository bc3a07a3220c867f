/**
 * The macro step of parseAddonsConfig: every addon root and the reference directory read from
 * addonscfg.xml have each `$PROJECT_DIR$` replaced by the project's base path, or by "." when the
 * project has none; a configuration without a reference directory yields no configuration.
 */
module ConfigMacros {
  import opened Common

  const ProjectDirMacro: string := "$PROJECT_DIR$"

  /** Left-to-right, non-overlapping replacement of each occurrence of `token`; the output is not rescanned. */
  function ReplaceAll(s: string, token: string, value: string): string
    requires token != []
    decreases |s|
  {
    if |s| < |token| then s
    else if s[..|token|] == token then value + ReplaceAll(s[|token|..], token, value)
    else [s[0]] + ReplaceAll(s[1..], token, value)
  }

  /** Text without the token's first character is copied through unchanged, whatever follows it. */
  lemma {:induction false} ReplaceAllSkipsPlainPrefix(a: string, b: string, token: string, value: string)
    requires token != [] && token[0] !in a
    ensures ReplaceAll(a + b, token, value) == a + ReplaceAll(b, token, value)
    decreases |a|
  {
    if a != [] {
      var s := a + b;
      assert s[0] == a[0];
      if |s| >= |token| {
        assert s[..|token|] != token by { assert s[..|token|][0] == a[0]; }
        assert s[1..] == a[1..] + b;
        ReplaceAllSkipsPlainPrefix(a[1..], b, token, value);
      } else {
        assert |b| < |token|;
        assert ReplaceAll(b, token, value) == b;
      }
    } else {
      assert a + b == b;
    }
  }

  /** The value the macro stands for: the project's base path, or "." when there is none. */
  function ProjectDirValue(basePath: Option<string>): string
  {
    if basePath.None? then "." else basePath.value
  }

  /** evalMacros: each `$PROJECT_DIR$` becomes the project's base path. */
  function EvalMacros(s: string, basePath: Option<string>): string
  {
    ReplaceAll(s, ProjectDirMacro, ProjectDirValue(basePath))
  }

  /** A path without the macro's '$' is left as it is. */
  lemma EvalMacrosWithoutMacro(s: string, basePath: Option<string>)
    requires '$' !in s
    ensures EvalMacros(s, basePath) == s
  {
    ReplaceAllSkipsPlainPrefix(s, [], ProjectDirMacro, ProjectDirValue(basePath));
    assert s + [] == s;
  }

  /** A leading plain part, then the macro: the macro gives way to the base path (or "."). */
  lemma EvalMacrosResolves(a: string, b: string, basePath: Option<string>)
    requires '$' !in a
    ensures EvalMacros(a + ProjectDirMacro + b, basePath) == a + ProjectDirValue(basePath) + EvalMacros(b, basePath)
  {
    var t := ProjectDirMacro + b;
    assert a + ProjectDirMacro + b == a + t;
    ReplaceAllSkipsPlainPrefix(a, t, ProjectDirMacro, ProjectDirValue(basePath));
    assert t[..|ProjectDirMacro|] == ProjectDirMacro;
    assert t[|ProjectDirMacro|..] == b;
  }

  /** The fields of addonscfg.xml the macro step sees; `referenceDir` is `None` when absent. */
  datatype RawConfig = RawConfig(blacklist: seq<string>, whitelist: seq<string>, roots: seq<string>, referenceDir: Option<string>)

  datatype ProjectConfig = ProjectConfig(blacklist: seq<string>, whitelist: seq<string>, roots: seq<string>, referenceDir: string)

  /**
   * The end of parseAddonsConfig: no reference directory means no configuration; otherwise the
   * macro is evaluated in every root and in the reference directory, and the lists are kept as read.
   */
  method ResolveConfig(raw: RawConfig, basePath: Option<string>) returns (r: Option<ProjectConfig>)
    ensures raw.referenceDir.None? <==> r.None?
    ensures r.Some? ==> r.value.referenceDir == EvalMacros(raw.referenceDir.value, basePath)
    ensures r.Some? ==> |r.value.roots| == |raw.roots|
                        && forall i :: 0 <= i < |raw.roots| ==> r.value.roots[i] == EvalMacros(raw.roots[i], basePath)
    ensures r.Some? ==> r.value.blacklist == raw.blacklist && r.value.whitelist == raw.whitelist
  {
    if raw.referenceDir.None? {
      return None;
    }
    var rootsTemp: seq<string> := [];
    for i := 0 to |raw.roots|
      invariant |rootsTemp| == i
      invariant forall j :: 0 <= j < i ==> rootsTemp[j] == EvalMacros(raw.roots[j], basePath)
    {
      rootsTemp := rootsTemp + [EvalMacros(raw.roots[i], basePath)];
    }
    var referenceDir := EvalMacros(raw.referenceDir.value, basePath);
    r := Some(ProjectConfig(raw.blacklist, raw.whitelist, rootsTemp, referenceDir));
  }
}
