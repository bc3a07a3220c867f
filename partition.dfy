/**
 * The two-way work partitioner of the addon indexer. Before archives are extracted, and again before
 * binarized configs are converted, the files are sorted by byte size and dealt, largest first, into
 * a `left` and a `right` bucket so that the two worker threads get about the same number of bytes.
 * A file goes to `left` only when `left` currently holds strictly fewer bytes than `right`; on a tie
 * (in particular for the first, largest file) it goes to `right`.
 */
module WorkPartition {

  /** A file as the partitioner sees it: its name and its length in bytes. */
  datatype FileEntry = FileEntry(name: string, size: nat)

  /** The two buckets and the running byte totals the loop keeps for them. */
  datatype Buckets = Buckets(left: seq<FileEntry>, right: seq<FileEntry>, leftCapacity: nat, rightCapacity: nat)

  function SumSizes(fs: seq<FileEntry>): nat
  {
    if fs == [] then 0 else SumSizes(fs[..|fs| - 1]) + fs[|fs| - 1].size
  }

  /** The size of the largest file, 0 for no files. */
  function MaxSize(fs: seq<FileEntry>): nat
  {
    if fs == [] then 0
    else if fs[|fs| - 1].size > MaxSize(fs[..|fs| - 1]) then fs[|fs| - 1].size
    else MaxSize(fs[..|fs| - 1])
  }

  lemma {:induction false} MaxSizeBounds(fs: seq<FileEntry>, f: FileEntry)
    requires f in fs
    ensures f.size <= MaxSize(fs)
  {
    if f != fs[|fs| - 1] {
      assert fs == fs[..|fs| - 1] + [fs[|fs| - 1]];
      MaxSizeBounds(fs[..|fs| - 1], f);
    }
  }

  lemma {:induction false} MaxSizeAttained(fs: seq<FileEntry>) returns (g: FileEntry)
    requires fs != []
    ensures g in fs && g.size == MaxSize(fs)
  {
    if |fs| == 1 || fs[|fs| - 1].size > MaxSize(fs[..|fs| - 1]) {
      g := fs[|fs| - 1];
    } else {
      g := MaxSizeAttained(fs[..|fs| - 1]);
    }
  }

  function Dist(a: nat, b: nat): nat
  {
    if a < b then b - a else a - b
  }

  ghost predicate SortedBySize(fs: seq<FileEntry>)
  {
    forall i, j :: 0 <= i < j < |fs| ==> fs[i].size <= fs[j].size
  }

  // ---------------------------------------------------------------------------------------------
  // Sorting by ascending size. The source uses Arrays.sort / List.sort with a comparator on the
  // length, both of which are stable; this insertion sort keeps files of equal size in input order.

  function InsertBySize(s: seq<FileEntry>, x: FileEntry): seq<FileEntry>
  {
    if s == [] then [x]
    else if x.size < s[0].size then [x] + s
    else [s[0]] + InsertBySize(s[1..], x)
  }

  lemma {:induction false} InsertBySizeMultiset(s: seq<FileEntry>, x: FileEntry)
    ensures multiset(InsertBySize(s, x)) == multiset(s) + multiset{x}
  {
    if s != [] && x.size >= s[0].size {
      InsertBySizeMultiset(s[1..], x);
      assert s == [s[0]] + s[1..];
    }
  }

  lemma {:induction false} InsertBySizeMembers(s: seq<FileEntry>, x: FileEntry, f: FileEntry)
    requires f in InsertBySize(s, x)
    ensures f in s || f == x
  {
    if s != [] && x.size >= s[0].size && f != s[0] {
      InsertBySizeMembers(s[1..], x, f);
    }
  }

  lemma ConsSorted(h: FileEntry, r: seq<FileEntry>)
    requires SortedBySize(r)
    requires forall f :: f in r ==> h.size <= f.size
    ensures SortedBySize([h] + r)
  {
    forall i, j | 0 <= i < j < |[h] + r| ensures ([h] + r)[i].size <= ([h] + r)[j].size {
      if i > 0 {
        assert ([h] + r)[i] == r[i - 1] && ([h] + r)[j] == r[j - 1];
      } else {
        assert ([h] + r)[j] == r[j - 1];
        assert r[j - 1] in r;
      }
    }
  }

  lemma {:induction false} InsertBySizeSorted(s: seq<FileEntry>, x: FileEntry)
    requires SortedBySize(s)
    ensures SortedBySize(InsertBySize(s, x))
  {
    if s == [] {
    } else if x.size < s[0].size {
      forall f | f in s ensures x.size <= f.size {
        var k :| 0 <= k < |s| && s[k] == f;
        assert s[0].size <= s[k].size;
      }
      ConsSorted(x, s);
    } else {
      var t := s[1..];
      assert SortedBySize(t) by {
        forall i, j | 0 <= i < j < |t| ensures t[i].size <= t[j].size {
          assert t[i] == s[i + 1] && t[j] == s[j + 1];
        }
      }
      InsertBySizeSorted(t, x);
      forall f | f in InsertBySize(t, x) ensures s[0].size <= f.size {
        InsertBySizeMembers(t, x, f);
        if f != x {
          var k :| 0 <= k < |t| && t[k] == f;
          assert s[0].size <= s[k + 1].size;
        }
      }
      ConsSorted(s[0], InsertBySize(t, x));
    }
  }

  /** The files in ascending order of size. */
  function SortBySize(fs: seq<FileEntry>): (r: seq<FileEntry>)
    ensures SortedBySize(r)
    ensures multiset(r) == multiset(fs)
  {
    if fs == [] then []
    else
      var rest := SortBySize(fs[..|fs| - 1]);
      InsertBySizeSorted(rest, fs[|fs| - 1]);
      InsertBySizeMultiset(rest, fs[|fs| - 1]);
      assert fs == fs[..|fs| - 1] + [fs[|fs| - 1]];
      InsertBySize(rest, fs[|fs| - 1])
  }

  function Reversed(s: seq<FileEntry>): (r: seq<FileEntry>)
    ensures |r| == |s|
  {
    seq(|s|, j requires 0 <= j < |s| => s[|s| - 1 - j])
  }

  lemma {:induction false} ReversedMultiset(s: seq<FileEntry>)
    ensures multiset(Reversed(s)) == multiset(s)
  {
    if s != [] {
      var t := s[1..];
      ReversedMultiset(t);
      assert Reversed(s) == Reversed(t) + [s[0]];
      assert s == [s[0]] + t;
    }
  }

  // ---------------------------------------------------------------------------------------------
  // The greedy dealing, as a function of the order in which the files are dealt.

  /** One iteration of the loop body: deal file `f` onto the buckets `b`. */
  function Deal(b: Buckets, f: FileEntry): Buckets
  {
    if b.leftCapacity < b.rightCapacity
    then Buckets(b.left + [f], b.right, b.leftCapacity + f.size, b.rightCapacity)
    else Buckets(b.left, b.right + [f], b.leftCapacity, b.rightCapacity + f.size)
  }

  /** The buckets after dealing `order` from its first element to its last. */
  function Greedy(order: seq<FileEntry>): Buckets
  {
    if order == [] then Buckets([], [], 0, 0)
    else Deal(Greedy(order[..|order| - 1]), order[|order| - 1])
  }

  /** Dealing `s` from its last entry down to its first: the loop `for (i = n - 1; i >= 0; i--)`. */
  function DealDown(s: seq<FileEntry>): Buckets
  {
    if s == [] then Buckets([], [], 0, 0) else Deal(DealDown(s[1..]), s[0])
  }

  /** Dealing from the last entry down is the greedy dealing of the reversed sequence. */
  lemma {:induction false} DealDownIsGreedy(s: seq<FileEntry>)
    ensures DealDown(s) == Greedy(Reversed(s))
  {
    if s != [] {
      DealDownIsGreedy(s[1..]);
      var r := Reversed(s);
      assert r[..|r| - 1] == Reversed(s[1..]);
      assert r[|r| - 1] == s[0];
    }
  }

  /** The buckets partition the files dealt: nothing is lost and nothing is duplicated. */
  lemma {:induction false} GreedyPermutation(order: seq<FileEntry>)
    ensures multiset(Greedy(order).left + Greedy(order).right) == multiset(order)
  {
    if order != [] {
      var init := order[..|order| - 1];
      GreedyPermutation(init);
      assert order == init + [order[|order| - 1]];
    }
  }

  /** Each capacity counter equals the byte total of its bucket. */
  lemma {:induction false} GreedyCapacities(order: seq<FileEntry>)
    ensures Greedy(order).leftCapacity == SumSizes(Greedy(order).left)
    ensures Greedy(order).rightCapacity == SumSizes(Greedy(order).right)
  {
    if order != [] {
      var init := order[..|order| - 1];
      var f := order[|order| - 1];
      GreedyCapacities(init);
      var b := Greedy(init);
      assert (b.left + [f])[..|b.left + [f]| - 1] == b.left;
      assert (b.right + [f])[..|b.right + [f]| - 1] == b.right;
    }
  }

  /**
   * The balance bound: whatever the dealing order, the two byte totals never drift apart by
   * more than the largest file dealt so far.
   */
  lemma {:induction false} GreedyBalance(order: seq<FileEntry>)
    ensures Dist(Greedy(order).leftCapacity, Greedy(order).rightCapacity) <= MaxSize(order)
  {
    if order != [] {
      var init := order[..|order| - 1];
      GreedyBalance(init);
      MaxSizeBounds(order, order[|order| - 1]);
      if init != [] {
        var g := MaxSizeAttained(init);
        MaxSizeBounds(order, g);
      }
    }
  }

  /** Tie-break: the first file dealt always lands at the head of `right`. */
  lemma {:induction false} GreedyFirstGoesRight(order: seq<FileEntry>)
    requires order != []
    ensures Greedy(order).right != [] && Greedy(order).right[0] == order[0]
  {
    if |order| > 1 {
      var init := order[..|order| - 1];
      GreedyFirstGoesRight(init);
      assert init[0] == order[0];
    }
  }

  // What the partition promises, about the dealing of the sorted files from the largest down.

  /** `left ++ right` is a permutation of the input files. */
  lemma PartitionIsPermutation(files: seq<FileEntry>)
    ensures var b := Greedy(Reversed(SortBySize(files))); multiset(b.left + b.right) == multiset(files)
  {
    var sorted := SortBySize(files);
    GreedyPermutation(Reversed(sorted));
    ReversedMultiset(sorted);
  }

  /** The two byte totals differ by at most the size of the largest file. */
  lemma PartitionBalanced(files: seq<FileEntry>)
    ensures var b := Greedy(Reversed(SortBySize(files))); Dist(b.leftCapacity, b.rightCapacity) <= MaxSize(files)
  {
    var sorted := SortBySize(files);
    var order := Reversed(sorted);
    GreedyBalance(order);
    ReversedMultiset(sorted);
    SameElementsMaxSize(order, files);
  }

  /** The largest file is dealt first and, the totals being tied at zero, goes to `right`. */
  lemma PartitionLargestGoesRight(files: seq<FileEntry>)
    requires files != []
    ensures var b := Greedy(Reversed(SortBySize(files))); b.right != [] && b.right[0].size == MaxSize(files)
  {
    var sorted := SortBySize(files);
    assert |sorted| == |multiset(sorted)| == |multiset(files)| == |files|;
    var order := Reversed(sorted);
    assert |order| == |sorted| && order[0] == sorted[|sorted| - 1];
    GreedyFirstGoesRight(order);
    SortedLastIsMax(sorted, files);
  }

  lemma SameElementsMaxSize(a: seq<FileEntry>, b: seq<FileEntry>)
    requires multiset(a) == multiset(b)
    ensures MaxSize(a) <= MaxSize(b)
  {
    if a != [] {
      var g := MaxSizeAttained(a);
      assert g in multiset(b);
      MaxSizeBounds(b, g);
    }
  }

  lemma SortedLastIsMax(sorted: seq<FileEntry>, files: seq<FileEntry>)
    requires sorted != [] && SortedBySize(sorted) && multiset(sorted) == multiset(files)
    ensures sorted[|sorted| - 1].size == MaxSize(files)
  {
    var top := sorted[|sorted| - 1];
    var g := MaxSizeAttained(files);
    assert g in multiset(sorted);
    var k :| 0 <= k < |sorted| && sorted[k] == g;
    assert g.size <= top.size;
    assert top in multiset(files);
    MaxSizeBounds(files, top);
  }

  /**
   * The partition loops of extractPBOsForHelper and debinarizeConfigsForHelper: sort by size, then
   * walk from the largest file down, dealing each file onto the lighter bucket.
   */
  method PartitionBySize(files: seq<FileEntry>)
    returns (left: seq<FileEntry>, right: seq<FileEntry>, leftCapacity: nat, rightCapacity: nat)
    ensures Buckets(left, right, leftCapacity, rightCapacity) == Greedy(Reversed(SortBySize(files)))
    ensures multiset(left + right) == multiset(files)
    ensures leftCapacity == SumSizes(left) && rightCapacity == SumSizes(right)
    ensures Dist(leftCapacity, rightCapacity) <= MaxSize(files)
    ensures files == [] ==> left == [] && right == []
    ensures files != [] ==> right != [] && right[0].size == MaxSize(files)
  {
    var sorted := SortBySize(files);
    left, right := [], [];
    leftCapacity, rightCapacity := 0, 0;
    var i := |sorted| - 1;
    while i >= 0
      invariant -1 <= i < |sorted|
      invariant Buckets(left, right, leftCapacity, rightCapacity) == DealDown(sorted[i + 1..])
    {
      var file := sorted[i];
      assert sorted[i..][1..] == sorted[i + 1..];
      if leftCapacity < rightCapacity {
        left := left + [file];
        leftCapacity := leftCapacity + file.size;
      } else {
        right := right + [file];
        rightCapacity := rightCapacity + file.size;
      }
      i := i - 1;
    }
    assert sorted[0..] == sorted;
    DealDownIsGreedy(sorted);
    PartitionIsPermutation(files);
    GreedyCapacities(Reversed(sorted));
    PartitionBalanced(files);
    if files != [] {
      PartitionLargestGoesRight(files);
    }
  }
}
