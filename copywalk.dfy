/**
 * The save stage's walk over the extraction directories: scripts and headers are copied into the
 * addon's reference directory, and sub-directories are pushed on the front of the work list with
 * the folder their contents are copied into. Paths are sequences of names; I/O always succeeds.
 */
module ReferenceCopy {
  import opened Common
  import opened FileTree

  /** One entry of the walk's work list: a directory, its path, and the folder that receives its files. */
  datatype Pending = Pending(node: FsNode, source: seq<string>, target: seq<string>)

  /** One file copy, from the entry's path to the target path. */
  datatype Copy = Copy(source: seq<string>, target: seq<string>)

  /**
   * How the folder for a sub-directory is named: as written it takes the name of the directory
   * being listed (`visit.getName()`), where replicating the tree takes the sub-directory's own name.
   */
  datatype Naming = AsWritten | Mirrored

  function NewFolder(naming: Naming, folderCopy: seq<string>, visitName: string, childName: string): (f: seq<string>)
    ensures |f| == |folderCopy| + 1 && f[..|folderCopy|] == folderCopy
  {
    match naming
    case AsWritten => folderCopy + [visitName]
    case Mirrored => folderCopy + [childName]
  }

  /** The copies made while listing `children` of a directory at `source` into `target`, in order. */
  function ChildCopies(children: seq<FsNode>, source: seq<string>, target: seq<string>): (cs: seq<Copy>)
    ensures |cs| <= |children|
  {
    if children == [] then []
    else
      var c := children[|children| - 1];
      ChildCopies(children[..|children| - 1], source, target)
      + (if ShouldCopy(c) then [Copy(source + [c.name], target + [c.name])] else [])
  }

  /** The work list after listing `children`: each sub-directory that is not copied is pushed on the front. */
  function Pushed(naming: Naming, visitName: string, children: seq<FsNode>, source: seq<string>,
                  target: seq<string>, rest: seq<Pending>): seq<Pending>
  {
    if children == [] then rest
    else
      var c := children[|children| - 1];
      var before := Pushed(naming, visitName, children[..|children| - 1], source, target, rest);
      if !ShouldCopy(c) && c.Dir? then [Pending(c, source + [c.name], NewFolder(naming, target, visitName, c.name))] + before
      else before
  }

  function StackCount(stack: seq<Pending>): nat
  {
    if stack == [] then 0 else Count(stack[0].node) + StackCount(stack[1..])
  }

  lemma {:induction false} PushedCount(naming: Naming, visitName: string, children: seq<FsNode>,
                                       source: seq<string>, target: seq<string>, rest: seq<Pending>)
    ensures StackCount(Pushed(naming, visitName, children, source, target, rest)) <= CountAll(children) + StackCount(rest)
  {
    if children != [] {
      var init := children[..|children| - 1];
      var c := children[|children| - 1];
      PushedCount(naming, visitName, init, source, target, rest);
      assert children == init + [c];
      CountAllAppend(init, [c]);
      assert CountAll([c]) == Count(c);
    }
  }

  /** The copies of the whole walk, in the order the work list is popped. */
  function WalkCopies(naming: Naming, stack: seq<Pending>): seq<Copy>
    decreases StackCount(stack)
  {
    if stack == [] then []
    else
      var top := stack[0];
      var kids := Children(top.node);
      PushedCount(naming, top.node.name, kids, top.source, top.target, stack[1..]);
      CountChildren(top.node);
      ChildCopies(kids, top.source, top.target)
      + WalkCopies(naming, Pushed(naming, top.node.name, kids, top.source, top.target, stack[1..]))
  }

  /** The initial work list: one entry per extraction directory, in order, into `dest`/<its name>. */
  function InitialStack(extractDirs: seq<FsNode>, dest: seq<string>): (stack: seq<Pending>)
    ensures |stack| == |extractDirs|
    ensures forall i :: 0 <= i < |stack| ==>
      stack[i] == Pending(extractDirs[i], [extractDirs[i].name], dest + [extractDirs[i].name])
  {
    if extractDirs == [] then []
    else [Pending(extractDirs[0], [extractDirs[0].name], dest + [extractDirs[0].name])]
         + InitialStack(extractDirs[1..], dest)
  }

  // ---------------------------------------------------------------------------------------------
  // Which files the walk copies, independently of the work list's order.

  /**
   * The copies made below the directory `n` (at `source`, copied into `target`), depth first in
   * listing order: its kept entries, then what is copied below each sub-directory that is not
   * itself copied.
   */
  function TreeCopies(naming: Naming, n: FsNode, source: seq<string>, target: seq<string>): seq<Copy>
    decreases n, 1
  {
    ChildCopies(Children(n), source, target) + SubCopies(naming, n, |Children(n)|, source, target)
  }

  /** What is copied below the first `k` entries of `n` that are directories the walk descends into. */
  function SubCopies(naming: Naming, n: FsNode, k: nat, source: seq<string>, target: seq<string>): seq<Copy>
    requires k <= |Children(n)|
    decreases n, 0, k
  {
    if k == 0 then [] else SubCopies(naming, n, k - 1, source, target) + Below(naming, n, k - 1, source, target)
  }

  /** What is copied below the entry `i` of `n`: nothing unless the walk descends into it. */
  function Below(naming: Naming, n: FsNode, i: nat, source: seq<string>, target: seq<string>): seq<Copy>
    requires i < |Children(n)|
    decreases n, 0, i, 0
  {
    var c := n.entries[i];
    if !ShouldCopy(c) && c.Dir? then TreeCopies(naming, c, source + [c.name], NewFolder(naming, target, n.name, c.name)) else []
  }

  function TreeCopiesAll(naming: Naming, stack: seq<Pending>): seq<Copy>
  {
    if stack == [] then []
    else TreeCopies(naming, stack[0].node, stack[0].source, stack[0].target) + TreeCopiesAll(naming, stack[1..])
  }

  /**
   * `c` copies an entry reached from the directory `n` only through sub-directories that are not
   * copied themselves, the entry being copied to the same relative path under `target`.
   */
  ghost predicate Reaches(n: FsNode, source: seq<string>, target: seq<string>, c: Copy)
    decreases n, 0
  {
    n.Dir? && exists i :: 0 <= i < |n.entries| && ReachesThrough(n.entries[i], source, target, c)
  }

  /** The same for one entry `e` of a directory at `source`. */
  ghost predicate ReachesThrough(e: FsNode, source: seq<string>, target: seq<string>, c: Copy)
    decreases e, 1
  {
    if ShouldCopy(e) then c == Copy(source + [e.name], target + [e.name])
    else e.Dir? && Reaches(e, source + [e.name], target + [e.name], c)
  }

  /** `c` copies an entry reached from one of the extraction directories. */
  ghost predicate CopiedFromDirs(extractDirs: seq<FsNode>, dest: seq<string>, c: Copy)
  {
    exists i :: 0 <= i < |extractDirs| && Reaches(extractDirs[i], [extractDirs[i].name], dest + [extractDirs[i].name], c)
  }

  /** How many entries the walk copies below `n`: its kept entries, and those below the directories it enters. */
  function KeptCount(n: FsNode): nat
    decreases n, 1
  {
    FileCount(Children(n)) + DescendCount(n, |Children(n)|)
  }

  /** How many of `children` are kept by the copy test. */
  function FileCount(children: seq<FsNode>): nat
  {
    if children == [] then 0
    else FileCount(children[..|children| - 1]) + (if ShouldCopy(children[|children| - 1]) then 1 else 0)
  }

  /** How many entries are copied below the first `k` entries of `n` that the walk descends into. */
  function DescendCount(n: FsNode, k: nat): nat
    requires k <= |Children(n)|
    decreases n, 0, k
  {
    if k == 0 then 0
    else
      var c := n.entries[k - 1];
      DescendCount(n, k - 1) + (if !ShouldCopy(c) && c.Dir? then KeptCount(c) else 0)
  }

  function KeptCountAll(extractDirs: seq<FsNode>): nat
  {
    if extractDirs == [] then 0 else KeptCount(extractDirs[0]) + KeptCountAll(extractDirs[1..])
  }

  /** Pushing the listed sub-directories adds exactly what is copied below them. */
  /** The work-list entry listing the entry `i` of `n` pushes: none unless the walk descends into it. */
  function PushedHead(naming: Naming, n: FsNode, i: nat, source: seq<string>, target: seq<string>): seq<Pending>
    requires i < |Children(n)|
  {
    var c := n.entries[i];
    if !ShouldCopy(c) && c.Dir? then [Pending(c, source + [c.name], NewFolder(naming, target, n.name, c.name))] else []
  }

  lemma PushedLast(naming: Naming, n: FsNode, k: nat, source: seq<string>, target: seq<string>, rest: seq<Pending>)
    requires 0 < k <= |Children(n)|
    ensures Pushed(naming, n.name, Children(n)[..k], source, target, rest)
         == PushedHead(naming, n, k - 1, source, target) + Pushed(naming, n.name, Children(n)[..k - 1], source, target, rest)
  {
    var ch := Children(n);
    assert ch[..k][..k - 1] == ch[..k - 1];
    assert ch[..k][k - 1] == n.entries[k - 1];
  }

  lemma PushedHeadBlock(naming: Naming, n: FsNode, i: nat, source: seq<string>, target: seq<string>)
    requires i < |Children(n)|
    ensures TreeCopiesAll(naming, PushedHead(naming, n, i, source, target)) == Below(naming, n, i, source, target)
  {
    var head := PushedHead(naming, n, i, source, target);
    if head != [] {
      assert head[1..] == [];
    }
  }

  lemma {:induction false} TreeCopiesAllAppend(naming: Naming, a: seq<Pending>, b: seq<Pending>)
    ensures TreeCopiesAll(naming, a + b) == TreeCopiesAll(naming, a) + TreeCopiesAll(naming, b)
  {
    if a != [] {
      assert (a + b)[1..] == a[1..] + b;
      TreeCopiesAllAppend(naming, a[1..], b);
      AppendAssoc(TreeCopies(naming, a[0].node, a[0].source, a[0].target), TreeCopiesAll(naming, a[1..]), TreeCopiesAll(naming, b));
    } else {
      assert a + b == b;
    }
  }

  /** The blocks below the first `k` entries, last entry first: the order the work list takes them in. */
  function RevSubCopies(naming: Naming, n: FsNode, k: nat, source: seq<string>, target: seq<string>): seq<Copy>
    requires k <= |Children(n)|
  {
    if k == 0 then [] else Below(naming, n, k - 1, source, target) + RevSubCopies(naming, n, k - 1, source, target)
  }

  lemma {:induction false} RevSubCopiesSame(naming: Naming, n: FsNode, k: nat, source: seq<string>, target: seq<string>)
    requires k <= |Children(n)|
    ensures multiset(RevSubCopies(naming, n, k, source, target)) == multiset(SubCopies(naming, n, k, source, target))
  {
    if k > 0 {
      RevSubCopiesSame(naming, n, k - 1, source, target);
    }
  }

  /** Pushing the listed sub-directories puts what is copied below them, last first, ahead of the rest. */
  lemma {:induction false} PushedTreeCopies(naming: Naming, n: FsNode, k: nat, source: seq<string>,
                                            target: seq<string>, rest: seq<Pending>)
    requires k <= |Children(n)|
    ensures TreeCopiesAll(naming, Pushed(naming, n.name, Children(n)[..k], source, target, rest))
         == RevSubCopies(naming, n, k, source, target) + TreeCopiesAll(naming, rest)
  {
    if k > 0 {
      var head := PushedHead(naming, n, k - 1, source, target);
      var before := Pushed(naming, n.name, Children(n)[..k - 1], source, target, rest);
      PushedTreeCopies(naming, n, k - 1, source, target, rest);
      PushedLast(naming, n, k, source, target, rest);
      TreeCopiesAllAppend(naming, head, before);
      PushedHeadBlock(naming, n, k - 1, source, target);
      AppendAssoc(Below(naming, n, k - 1, source, target), RevSubCopies(naming, n, k - 1, source, target), TreeCopiesAll(naming, rest));
    } else {
      assert Children(n)[..0] == [];
      assert [] + TreeCopiesAll(naming, rest) == TreeCopiesAll(naming, rest);
    }
  }

  /**
   * The stack walk copies the same entries as the depth-first reference, each as often: only the
   * order differs, whichever naming is used.
   */
  lemma {:induction false} WalkMatchesTree(naming: Naming, stack: seq<Pending>)
    ensures multiset(WalkCopies(naming, stack)) == multiset(TreeCopiesAll(naming, stack))
    decreases StackCount(stack)
  {
    if stack != [] {
      var top := stack[0];
      var kids := Children(top.node);
      var next := Pushed(naming, top.node.name, kids, top.source, top.target, stack[1..]);
      PushedCount(naming, top.node.name, kids, top.source, top.target, stack[1..]);
      CountChildren(top.node);
      WalkMatchesTree(naming, next);
      assert kids[..|kids|] == kids;
      PushedTreeCopies(naming, top.node, |kids|, top.source, top.target, stack[1..]);
      RevSubCopiesSame(naming, top.node, |kids|, top.source, top.target);
    }
  }

  lemma {:induction false} ChildCopiesMembers(children: seq<FsNode>, source: seq<string>, target: seq<string>, c: Copy)
    ensures c in ChildCopies(children, source, target) <==>
      exists i :: 0 <= i < |children| && ShouldCopy(children[i]) && c == Copy(source + [children[i].name], target + [children[i].name])
  {
    if children != [] {
      var init := children[..|children| - 1];
      ChildCopiesMembers(init, source, target, c);
      forall i | 0 <= i < |init| ensures init[i] == children[i] { }
    }
  }

  /** A copy made below the directories the walk enters comes from one of them. */
  lemma {:induction false} SubCopiesWitness(n: FsNode, k: nat, source: seq<string>, target: seq<string>, c: Copy)
    returns (i: nat)
    requires k <= |Children(n)| && c in SubCopies(Mirrored, n, k, source, target)
    ensures i < k && c in Below(Mirrored, n, i, source, target)
  {
    assert k > 0;
    if c in SubCopies(Mirrored, n, k - 1, source, target) {
      i := SubCopiesWitness(n, k - 1, source, target, c);
    } else {
      i := k - 1;
    }
  }

  /** Every copy below one of the first `k` entries is among their copies. */
  lemma {:induction false} SubCopiesHas(n: FsNode, k: nat, source: seq<string>, target: seq<string>, c: Copy, i: nat)
    requires k <= |Children(n)| && i < k && c in Below(Mirrored, n, i, source, target)
    ensures c in SubCopies(Mirrored, n, k, source, target)
  {
    if i < k - 1 {
      SubCopiesHas(n, k - 1, source, target, c, i);
    }
  }

  /** The depth-first reference copies exactly the entries reached through directories that are not copied. */
  lemma {:induction false} TreeCopiesMembers(n: FsNode, source: seq<string>, target: seq<string>, c: Copy)
    ensures c in TreeCopies(Mirrored, n, source, target) <==> Reaches(n, source, target, c)
    decreases n
  {
    var ch := Children(n);
    ChildCopiesMembers(ch, source, target, c);
    if n.Dir? {
      if Reaches(n, source, target, c) {
        var i :| 0 <= i < |n.entries| && ReachesThrough(n.entries[i], source, target, c);
        var e := n.entries[i];
        if ShouldCopy(e) {
          assert ch[i] == e;
        } else {
          TreeCopiesMembers(e, source + [e.name], target + [e.name], c);
          assert NewFolder(Mirrored, target, n.name, e.name) == target + [e.name];
          SubCopiesHas(n, |ch|, source, target, c, i);
        }
      }
      if c in ChildCopies(ch, source, target) {
        var i :| 0 <= i < |ch| && ShouldCopy(ch[i]) && c == Copy(source + [ch[i].name], target + [ch[i].name]);
        assert ReachesThrough(n.entries[i], source, target, c);
      }
      if c in SubCopies(Mirrored, n, |ch|, source, target) {
        var i := SubCopiesWitness(n, |ch|, source, target, c);
        var e := n.entries[i];
        assert NewFolder(Mirrored, target, n.name, e.name) == target + [e.name];
        TreeCopiesMembers(e, source + [e.name], target + [e.name], c);
        assert ReachesThrough(e, source, target, c);
      }
    }
  }

  lemma {:induction false} InitialStackMembers(extractDirs: seq<FsNode>, dest: seq<string>, c: Copy)
    ensures c in TreeCopiesAll(Mirrored, InitialStack(extractDirs, dest)) <==> CopiedFromDirs(extractDirs, dest, c)
  {
    if extractDirs != [] {
      var d := extractDirs[0];
      var stack := InitialStack(extractDirs, dest);
      assert stack[1..] == InitialStack(extractDirs[1..], dest);
      InitialStackMembers(extractDirs[1..], dest, c);
      TreeCopiesMembers(d, [d.name], dest + [d.name], c);
      if CopiedFromDirs(extractDirs, dest, c) {
        var i :| 0 <= i < |extractDirs| && Reaches(extractDirs[i], [extractDirs[i].name], dest + [extractDirs[i].name], c);
        if i > 0 {
          assert extractDirs[1..][i - 1] == extractDirs[i];
        }
      }
      if CopiedFromDirs(extractDirs[1..], dest, c) {
        var i :| 0 <= i < |extractDirs[1..]| && Reaches(extractDirs[1..][i], [extractDirs[1..][i].name], dest + [extractDirs[1..][i].name], c);
        assert extractDirs[1..][i] == extractDirs[i + 1];
      }
    }
  }

  lemma {:induction false} ChildCopiesLength(children: seq<FsNode>, source: seq<string>, target: seq<string>)
    ensures |ChildCopies(children, source, target)| == FileCount(children)
  {
    if children != [] {
      ChildCopiesLength(children[..|children| - 1], source, target);
    }
  }

  lemma {:induction false} SubCopiesLength(naming: Naming, n: FsNode, k: nat, source: seq<string>, target: seq<string>)
    requires k <= |Children(n)|
    ensures |SubCopies(naming, n, k, source, target)| == DescendCount(n, k)
    decreases n, 0, k
  {
    if k > 0 {
      var e := n.entries[k - 1];
      SubCopiesLength(naming, n, k - 1, source, target);
      if !ShouldCopy(e) && e.Dir? {
        KeptCountCounts(naming, e, source + [e.name], NewFolder(naming, target, n.name, e.name));
      }
    }
  }

  /** Below every directory the reference copies one entry per entry it reaches. */
  lemma {:induction false} KeptCountCounts(naming: Naming, n: FsNode, source: seq<string>, target: seq<string>)
    ensures |TreeCopies(naming, n, source, target)| == KeptCount(n)
    decreases n, 1
  {
    ChildCopiesLength(Children(n), source, target);
    SubCopiesLength(naming, n, |Children(n)|, source, target);
  }

  lemma {:induction false} InitialStackCounts(naming: Naming, extractDirs: seq<FsNode>, dest: seq<string>)
    ensures |TreeCopiesAll(naming, InitialStack(extractDirs, dest))| == KeptCountAll(extractDirs)
  {
    if extractDirs != [] {
      var d := extractDirs[0];
      assert InitialStack(extractDirs, dest)[1..] == InitialStack(extractDirs[1..], dest);
      InitialStackCounts(naming, extractDirs[1..], dest);
      KeptCountCounts(naming, d, [d.name], dest + [d.name]);
    }
  }

  /**
   * What the save stage copies: exactly the entries reached from the extraction directories through
   * directories that are not copied themselves.
   */
  lemma WalkCopiesReachedEntries(extractDirs: seq<FsNode>, dest: seq<string>, c: Copy)
    ensures c in WalkCopies(Mirrored, InitialStack(extractDirs, dest)) <==> CopiedFromDirs(extractDirs, dest, c)
  {
    var stack := InitialStack(extractDirs, dest);
    WalkMatchesTree(Mirrored, stack);
    assert c in WalkCopies(Mirrored, stack) <==> c in multiset(WalkCopies(Mirrored, stack));
    InitialStackMembers(extractDirs, dest, c);
  }

  /** One copy per entry reached, whichever naming is used. */
  lemma WalkCopiesCount(naming: Naming, extractDirs: seq<FsNode>, dest: seq<string>)
    ensures |WalkCopies(naming, InitialStack(extractDirs, dest))| == KeptCountAll(extractDirs)
  {
    var stack := InitialStack(extractDirs, dest);
    WalkMatchesTree(naming, stack);
    InitialStackCounts(naming, extractDirs, dest);
    assert |WalkCopies(naming, stack)| == |multiset(WalkCopies(naming, stack))|;
    assert |TreeCopiesAll(naming, stack)| == |multiset(TreeCopiesAll(naming, stack))|;
  }

  /** A work-list entry whose target folder mirrors its source path under `dest`. */
  ghost predicate MirrorsUnder(p: Pending, dest: seq<string>)
  {
    p.target == dest + p.source
  }

  lemma {:induction false} ChildCopiesMirror(children: seq<FsNode>, source: seq<string>, target: seq<string>, dest: seq<string>)
    requires target == dest + source
    ensures forall c :: c in ChildCopies(children, source, target) ==> c.target == dest + c.source
  {
    if children != [] {
      ChildCopiesMirror(children[..|children| - 1], source, target, dest);
      var c := children[|children| - 1];
      assert target + [c.name] == dest + (source + [c.name]);
    }
  }

  lemma {:induction false} PushedMirror(visitName: string, children: seq<FsNode>, source: seq<string>,
                                        target: seq<string>, rest: seq<Pending>, dest: seq<string>)
    requires target == dest + source
    requires forall p :: p in rest ==> MirrorsUnder(p, dest)
    ensures forall p :: p in Pushed(Mirrored, visitName, children, source, target, rest) ==> MirrorsUnder(p, dest)
  {
    if children != [] {
      PushedMirror(visitName, children[..|children| - 1], source, target, rest, dest);
      var c := children[|children| - 1];
      assert NewFolder(Mirrored, target, visitName, c.name) == dest + (source + [c.name]);
    }
  }

  /** With mirrored naming, every file lands at the same relative path under the reference directory. */
  lemma {:induction false} MirroredWalkReplicatesTree(stack: seq<Pending>, dest: seq<string>)
    requires forall p :: p in stack ==> MirrorsUnder(p, dest)
    ensures forall c :: c in WalkCopies(Mirrored, stack) ==> c.target == dest + c.source
    decreases StackCount(stack)
  {
    if stack != [] {
      var top := stack[0];
      var kids := Children(top.node);
      var next := Pushed(Mirrored, top.node.name, kids, top.source, top.target, stack[1..]);
      assert top in stack;
      assert forall p :: p in stack[1..] ==> p in stack;
      ChildCopiesMirror(kids, top.source, top.target, dest);
      PushedMirror(top.node.name, kids, top.source, top.target, stack[1..], dest);
      PushedCount(Mirrored, top.node.name, kids, top.source, top.target, stack[1..]);
      CountChildren(top.node);
      MirroredWalkReplicatesTree(next, dest);
    }
  }

  lemma InitialStackMirrors(extractDirs: seq<FsNode>, dest: seq<string>)
    ensures forall p :: p in InitialStack(extractDirs, dest) ==> MirrorsUnder(p, dest)
  {
    var stack := InitialStack(extractDirs, dest);
    forall p | p in stack ensures MirrorsUnder(p, dest) {
      var i :| 0 <= i < |stack| && stack[i] == p;
    }
  }

  lemma ScriptEntries()
    ensures !ShouldCopy(Dir("scripts", [File("a.sqf", 1)])) && ShouldCopy(File("a.sqf", 1))
  {
    assert !EndsWith("scripts", ".cpp") && !EndsWith("scripts", ".h") && !EndsWith("scripts", ".hh")
      && !EndsWith("scripts", ".hpp") && !EndsWith("scripts", ".sqf");
    assert EndsWith("a.sqf", ".sqf");
  }

  /** Listing `x` copies nothing and pushes `scripts` with the folder the naming gives it. */
  lemma ListingOuterFolder(naming: Naming, dest: seq<string>)
    ensures WalkCopies(naming, InitialStack(NestedScript(), dest))
         == WalkCopies(naming, [Pending(Dir("scripts", [File("a.sqf", 1)]), ["x", "scripts"],
                                        NewFolder(naming, dest + ["x"], "x", "scripts"))])
  {
    var scripts := Dir("scripts", [File("a.sqf", 1)]);
    var x := Dir("x", [scripts]);
    ScriptEntries();
    assert NestedScript() == [x];
    assert [x][1..] == [];
    assert ["x"] + ["scripts"] == ["x", "scripts"];
    var stack := InitialStack([x], dest);
    assert stack == [Pending(x, ["x"], dest + ["x"])];
    assert [scripts][..0] == [];
    assert ChildCopies([scripts], ["x"], dest + ["x"]) == [];
    var second := [Pending(scripts, ["x", "scripts"], NewFolder(naming, dest + ["x"], "x", "scripts"))];
    assert Pushed(naming, "x", [scripts], ["x"], dest + ["x"], []) == second;
  }

  /** Listing `scripts` copies `a.sqf` into the folder it was given and pushes nothing. */
  lemma ListingInnerFolder(naming: Naming, folder: seq<string>)
    ensures WalkCopies(naming, [Pending(Dir("scripts", [File("a.sqf", 1)]), ["x", "scripts"], folder)])
         == [Copy(["x", "scripts", "a.sqf"], folder + ["a.sqf"])]
  {
    var a := File("a.sqf", 1);
    ScriptEntries();
    assert ["x", "scripts"] + ["a.sqf"] == ["x", "scripts", "a.sqf"];
    assert [a][..0] == [];
    assert ChildCopies([a], ["x", "scripts"], folder) == [Copy(["x", "scripts", "a.sqf"], folder + ["a.sqf"])];
    var stack := [Pending(Dir("scripts", [a]), ["x", "scripts"], folder)];
    assert stack[1..] == [];
    assert Pushed(naming, "scripts", [a], ["x", "scripts"], folder, []) == [];
    assert WalkCopies(naming, stack) == ChildCopies([a], ["x", "scripts"], folder) + WalkCopies(naming, []);
  }

  /** The extraction directory `x` holding the folder `scripts` with one script. */
  function NestedScript(): (dirs: seq<FsNode>)
    ensures |dirs| == 1
  {
    [Dir("x", [Dir("scripts", [File("a.sqf", 1)])])]
  }

  /**
   * As written, the script in `x/scripts/a.sqf` is copied to `dest/x/x/a.sqf`: the folder made for
   * `scripts` is named after `x`.
   */
  lemma SubfolderNamedAfterParent(dest: seq<string>)
    ensures WalkCopies(AsWritten, InitialStack(NestedScript(), dest)) == [Copy(["x", "scripts", "a.sqf"], dest + ["x", "x", "a.sqf"])]
  {
    ListingOuterFolder(AsWritten, dest);
    ListingInnerFolder(AsWritten, NewFolder(AsWritten, dest + ["x"], "x", "scripts"));
    AppendRegroup(dest, ["x"], ["x"], ["a.sqf"]);
    assert ["x"] + ["x"] + ["a.sqf"] == ["x", "x", "a.sqf"];
  }

  /** With mirrored naming the same script goes to `dest/x/scripts/a.sqf`. */
  lemma MirroredNamingKeepsSubfolder(dest: seq<string>)
    ensures WalkCopies(Mirrored, InitialStack(NestedScript(), dest)) == [Copy(["x", "scripts", "a.sqf"], dest + ["x", "scripts", "a.sqf"])]
  {
    ListingOuterFolder(Mirrored, dest);
    ListingInnerFolder(Mirrored, NewFolder(Mirrored, dest + ["x"], "x", "scripts"));
    AppendRegroup(dest, ["x"], ["scripts"], ["a.sqf"]);
    assert ["x"] + ["scripts"] + ["a.sqf"] == ["x", "scripts", "a.sqf"];
  }

  /** Listing one popped directory: copy its kept entries, push its other sub-directories. */
  method ListDirectory(visit: Pending, rest: seq<Pending>) returns (copies: seq<Copy>, toVisit: seq<Pending>)
    ensures copies == ChildCopies(Children(visit.node), visit.source, visit.target)
    ensures toVisit == Pushed(Mirrored, visit.node.name, Children(visit.node), visit.source, visit.target, rest)
  {
    var children := Children(visit.node);
    copies := [];
    toVisit := rest;
    for j := 0 to |children|
      invariant copies == ChildCopies(children[..j], visit.source, visit.target)
      invariant toVisit == Pushed(Mirrored, visit.node.name, children[..j], visit.source, visit.target, rest)
    {
      var child := children[j];
      assert children[..j + 1][..j] == children[..j];
      if ShouldCopy(child) {
        copies := copies + [Copy(visit.source + [child.name], visit.target + [child.name])];
      } else if child.Dir? {
        toVisit := [Pending(child, visit.source + [child.name], NewFolder(Mirrored, visit.target, visit.node.name, child.name))] + toVisit;
      }
    }
    assert children[..|children|] == children;
  }

  /**
   * The save stage's walk (with mirrored naming): pop the first entry, list it, copy the kept
   * entries and push the other sub-directories on the front of the work list.
   */
  method CopyReferences(extractDirs: seq<FsNode>, dest: seq<string>) returns (copies: seq<Copy>)
    ensures copies == WalkCopies(Mirrored, InitialStack(extractDirs, dest))
    ensures forall c :: c in copies ==> c.target == dest + c.source
    ensures forall c :: c in copies <==> CopiedFromDirs(extractDirs, dest, c)
    ensures |copies| == KeptCountAll(extractDirs)
  {
    var toVisit := InitialStack(extractDirs, dest);
    copies := [];
    while toVisit != []
      invariant copies + WalkCopies(Mirrored, toVisit) == WalkCopies(Mirrored, InitialStack(extractDirs, dest))
      decreases StackCount(toVisit)
    {
      var visit := toVisit[0];
      var rest := toVisit[1..];
      PushedCount(Mirrored, visit.node.name, Children(visit.node), visit.source, visit.target, rest);
      CountChildren(visit.node);
      var listed, next := ListDirectory(visit, rest);
      assert WalkCopies(Mirrored, toVisit) == listed + WalkCopies(Mirrored, next);
      copies := copies + listed;
      toVisit := next;
    }
    InitialStackMirrors(extractDirs, dest);
    MirroredWalkReplicatesTree(InitialStack(extractDirs, dest), dest);
    forall c: Copy ensures c in copies <==> CopiedFromDirs(extractDirs, dest, c) {
      WalkCopiesReachedEntries(extractDirs, dest, c);
    }
    WalkCopiesCount(Mirrored, extractDirs, dest);
  }
}
