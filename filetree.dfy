/**
 * Directory trees and the breadth-first walks the addon indexer runs over them: the search for
 * `config.cpp` under a cached addon (loadAddonFromReferenceDirectory) and the search for
 * `config.bin` / `config.cpp` under the extraction directories (debinarizeConfigsForHelper).
 * Both pop the head of a LinkedList, append the children the head lists, and test the head's name.
 */
module FileTree {
  import opened Common

  /** A directory entry: a regular file with its length, or a directory with the entries it lists. */
  datatype FsNode = File(name: string, size: nat) | Dir(name: string, entries: seq<FsNode>)

  /** What listFiles() yields, with `null` (a regular file) read as no children. */
  function Children(n: FsNode): seq<FsNode>
  {
    if n.Dir? then n.entries else []
  }

  // ---------------------------------------------------------------------------------------------
  // Case-insensitive names. String.equalsIgnoreCase is modelled for ASCII letters.

  function LowerAscii(c: char): char
  {
    if 'A' <= c <= 'Z' then (c as int + 32) as char else c
  }

  predicate EqualsIgnoreCase(a: string, b: string)
  {
    |a| == |b| && forall i :: 0 <= i < |a| ==> LowerAscii(a[i]) == LowerAscii(b[i])
  }

  const ConfigCppName: string := "config.cpp"
  const ConfigBinName: string := "config.bin"

  predicate IsConfigCpp(n: FsNode)
  {
    EqualsIgnoreCase(n.name, ConfigCppName)
  }

  predicate IsConfigBin(n: FsNode)
  {
    EqualsIgnoreCase(n.name, ConfigBinName)
  }

  /** No name is both a binarized and a text config, so the walk's `else if` drops nothing. */
  lemma ConfigNamesDisjoint(n: FsNode)
    ensures !(IsConfigBin(n) && IsConfigCpp(n))
  {
    if IsConfigBin(n) {
      assert LowerAscii(n.name[7]) == LowerAscii(ConfigBinName[7]) == 'b';
      assert LowerAscii(ConfigCppName[7]) == 'c';
    }
  }

  // ---------------------------------------------------------------------------------------------
  // The nodes of a tree, and the order in which a breadth-first walk visits them.

  function Count(n: FsNode): nat
  {
    match n
    case File(_, _) => 1
    case Dir(_, entries) => 1 + CountAll(entries)
  }

  function CountAll(s: seq<FsNode>): nat
  {
    if s == [] then 0 else Count(s[0]) + CountAll(s[1..])
  }

  lemma CountChildren(n: FsNode)
    ensures Count(n) == 1 + CountAll(Children(n))
  {
  }

  lemma {:induction false} CountAllAppend(a: seq<FsNode>, b: seq<FsNode>)
    ensures CountAll(a + b) == CountAll(a) + CountAll(b)
  {
    if a != [] {
      assert (a + b)[1..] == a[1..] + b;
      CountAllAppend(a[1..], b);
    } else {
      assert a + b == b;
    }
  }

  /** Every node of the tree rooted at `n`, the root first. */
  function Nodes(n: FsNode): seq<FsNode>
  {
    match n
    case File(_, _) => [n]
    case Dir(_, entries) => [n] + NodesAll(entries)
  }

  function NodesAll(s: seq<FsNode>): seq<FsNode>
  {
    if s == [] then [] else Nodes(s[0]) + NodesAll(s[1..])
  }

  lemma {:induction false} NodesAllAppend(a: seq<FsNode>, b: seq<FsNode>)
    ensures NodesAll(a + b) == NodesAll(a) + NodesAll(b)
  {
    if a != [] {
      assert (a + b)[1..] == a[1..] + b;
      NodesAllAppend(a[1..], b);
    } else {
      assert a + b == b;
    }
  }

  /** The order in which the LinkedList walk visits the nodes reachable from `queue`. */
  function BfsOrder(queue: seq<FsNode>): seq<FsNode>
    decreases CountAll(queue)
  {
    if queue == [] then []
    else
      CountAllAppend(queue[1..], Children(queue[0]));
      CountChildren(queue[0]);
      [queue[0]] + BfsOrder(queue[1..] + Children(queue[0]))
  }

  /**
   * One step of the walk: popping the head and appending what it lists moves the head from the
   * pending walk to the visited prefix, and shrinks what is left to visit.
   */
  lemma BfsAdvance(visited: seq<FsNode>, queue: seq<FsNode>, whole: seq<FsNode>)
    requires queue != [] && visited + BfsOrder(queue) == whole
    ensures CountAll(queue[1..] + Children(queue[0])) < CountAll(queue)
    ensures (visited + [queue[0]]) + BfsOrder(queue[1..] + Children(queue[0])) == whole
  {
    CountAllAppend(queue[1..], Children(queue[0]));
    CountChildren(queue[0]);
    var next := queue[1..] + Children(queue[0]);
    assert BfsOrder(queue) == [queue[0]] + BfsOrder(next);
    assert (visited + [queue[0]]) + BfsOrder(next) == visited + ([queue[0]] + BfsOrder(next));
  }

  /** The walk visits every node reachable from the queue, each as often as it occurs. */
  lemma {:induction false} BfsVisitsAll(queue: seq<FsNode>)
    ensures multiset(BfsOrder(queue)) == multiset(NodesAll(queue))
    decreases CountAll(queue)
  {
    if queue != [] {
      var head, rest := queue[0], queue[1..];
      CountAllAppend(rest, Children(head));
      CountChildren(head);
      BfsVisitsAll(rest + Children(head));
      NodesAllAppend(rest, Children(head));
      assert Nodes(head) == [head] + NodesAll(Children(head));
    }
  }

  /** What a walk collects by a name test is, as a collection, every matching node of the trees. */
  lemma WalkFindsMatches(queue: seq<FsNode>, matches: FsNode -> bool)
    ensures multiset(Filter(BfsOrder(queue), matches)) == multiset(Filter(NodesAll(queue), matches))
  {
    BfsVisitsAll(queue);
    FilterMultiset(BfsOrder(queue), NodesAll(queue), matches);
  }

  /** A walk from one directory collects, as a collection, every matching node of its tree. */
  lemma WalkFromRootFindsMatches(root: FsNode, matches: FsNode -> bool)
    ensures multiset(Filter(BfsOrder([root]), matches)) == multiset(Filter(Nodes(root), matches))
  {
    WalkFindsMatches([root], matches);
    assert [root][1..] == [];
    assert NodesAll([root]) == Nodes(root) + NodesAll([]);
    assert Nodes(root) + [] == Nodes(root);
  }

  // ---------------------------------------------------------------------------------------------
  // The two walks.

  /**
   * The `config.cpp` search under a cached addon's directory: the names matched ignoring case,
   * in visiting order; as a collection, exactly the matching nodes of the tree.
   */
  method CollectConfigCpp(root: FsNode) returns (configFiles: seq<FsNode>)
    ensures configFiles == Filter(BfsOrder([root]), IsConfigCpp)
    ensures multiset(configFiles) == multiset(Filter(Nodes(root), IsConfigCpp))
  {
    var toVisit := [root];
    configFiles := [];
    ghost var visited: seq<FsNode> := [];
    while toVisit != []
      invariant visited + BfsOrder(toVisit) == BfsOrder([root])
      invariant configFiles == Filter(visited, IsConfigCpp)
      decreases CountAll(toVisit)
    {
      var visit := toVisit[0];
      BfsAdvance(visited, toVisit, BfsOrder([root]));
      ghost var next := toVisit[1..] + Children(visit);
      toVisit := toVisit[1..];
      if visit.Dir? {
        toVisit := toVisit + visit.entries;
      } else {
        assert toVisit == next;
      }
      FilterAppend(visited, [visit], IsConfigCpp);
      visited := visited + [visit];
      if EqualsIgnoreCase(visit.name, ConfigCppName) {
        configFiles := configFiles + [visit];
      }
    }
    assert visited == BfsOrder([root]);
    WalkFromRootFindsMatches(root, IsConfigCpp);
  }

  /**
   * The search under the extraction directories: `config.bin` matches go to the conversion list,
   * `config.cpp` matches straight to the list of text configs, both in visiting order.
   */
  method CollectConfigsToDebinarize(extractDirs: seq<FsNode>)
    returns (configBinFiles: seq<FsNode>, debinarizedConfigs: seq<FsNode>)
    ensures configBinFiles == Filter(BfsOrder(extractDirs), IsConfigBin)
    ensures debinarizedConfigs == Filter(BfsOrder(extractDirs), IsConfigCpp)
    ensures multiset(configBinFiles) == multiset(Filter(NodesAll(extractDirs), IsConfigBin))
    ensures multiset(debinarizedConfigs) == multiset(Filter(NodesAll(extractDirs), IsConfigCpp))
  {
    var toVisit := extractDirs;
    configBinFiles, debinarizedConfigs := [], [];
    ghost var visited: seq<FsNode> := [];
    while toVisit != []
      invariant visited + BfsOrder(toVisit) == BfsOrder(extractDirs)
      invariant configBinFiles == Filter(visited, IsConfigBin)
      invariant debinarizedConfigs == Filter(visited, IsConfigCpp)
      decreases CountAll(toVisit)
    {
      var visit := toVisit[0];
      BfsAdvance(visited, toVisit, BfsOrder(extractDirs));
      ghost var next := toVisit[1..] + Children(visit);
      toVisit := toVisit[1..];
      if visit.Dir? {
        toVisit := toVisit + visit.entries;
      } else {
        assert toVisit == next;
      }
      FilterAppend(visited, [visit], IsConfigBin);
      FilterAppend(visited, [visit], IsConfigCpp);
      ConfigNamesDisjoint(visit);
      visited := visited + [visit];
      if EqualsIgnoreCase(visit.name, ConfigBinName) {
        configBinFiles := configBinFiles + [visit];
      } else if EqualsIgnoreCase(visit.name, ConfigCppName) {
        debinarizedConfigs := debinarizedConfigs + [visit];
      }
    }
    assert visited == BfsOrder(extractDirs);
    WalkFindsMatches(extractDirs, IsConfigBin);
    WalkFindsMatches(extractDirs, IsConfigCpp);
  }

  // ---------------------------------------------------------------------------------------------
  // Which entries the save stage copies into the reference directory.

  predicate EndsWith(s: string, suffix: string)
  {
    |suffix| <= |s| && s[|s| - |suffix|..] == suffix
  }

  /** Config and header extensions. */
  predicate HasHeaderExtension(name: string)
  {
    EndsWith(name, ".cpp") || EndsWith(name, ".h") || EndsWith(name, ".hh") || EndsWith(name, ".hpp")
  }

  /** Script, config and header extensions: the files kept in the reference directory. */
  predicate HasKeptExtension(name: string)
  {
    EndsWith(name, ".sqf") || HasHeaderExtension(name)
  }

  /**
   * The copy test of the save stage. `&&` binds tighter than `||`, so only `.sqf` requires a
   * regular file: a directory whose name ends in `.cpp`, `.h`, `.hh` or `.hpp` is copied as an
   * entry (and then not descended into), while a directory ending in `.sqf` is not.
   */
  function ShouldCopy(child: FsNode): (copy: bool)
    ensures child.File? ==> (copy <==> HasKeptExtension(child.name))
    ensures child.Dir? ==> (copy <==> HasHeaderExtension(child.name))
  {
    (child.File? && EndsWith(child.name, ".sqf"))
      || EndsWith(child.name, ".cpp")
      || EndsWith(child.name, ".h")
      || EndsWith(child.name, ".hh")
      || EndsWith(child.name, ".hpp")
  }
}
