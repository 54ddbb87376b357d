/**
 * Duplicate detection: files of equal byte size form a group; each group of
 * two or more is ranked by quality score (a stable sort, best first) and every
 * member but the first is a duplicate.  Groups are visited in the order a
 * JavaScript object enumerates its integer-like keys.
 */
module Duplicates {
  import opened Files
  import opened Sequences
  import opened Scoring
  import opened Sorting

  function Score(f: FileRecord): nat
  {
    QualityScore(f.name)
  }

  /** The sizes that occur among the files. */
  function Sizes(files: seq<FileRecord>): set<nat>
  {
    set f | f in files :: f.size
  }

  // ---------------------------------------------------------------------------
  // Grouping by size

  /** The files of the given size, in input order: what `sizeGroups[size]` collects. */
  function Group(files: seq<FileRecord>, size: nat): (g: seq<FileRecord>)
    ensures forall f :: f in g ==> f.size == size
    ensures multiset(g) <= multiset(files)
    ensures g == [] <==> size !in Sizes(files)
  {
    if files == [] then []
    else
      var last := files[|files| - 1];
      assert files == files[..|files| - 1] + [last];
      assert Sizes(files) == Sizes(files[..|files| - 1]) + {last.size};
      Group(files[..|files| - 1], size) + (if last.size == size then [last] else [])
  }

  /** A size's group is the input filtered by that size: every file of the size, as often, in input order. */
  lemma GroupIsFilter(files: seq<FileRecord>, size: nat)
    ensures forall f :: f in files && f.size == size ==> f in Group(files, size)
    ensures forall f: FileRecord :: f.size == size ==> multiset(Group(files, size))[f] == multiset(files)[f]
    ensures Subseq(Group(files, size), files)
  {
    GroupCounts(files, size);
    GroupSubseq(files, size);
    forall f | f in files && f.size == size ensures f in Group(files, size) {
      assert multiset(files)[f] > 0;
    }
  }

  lemma {:induction false} GroupCounts(files: seq<FileRecord>, size: nat)
    ensures forall f: FileRecord :: f.size == size ==> multiset(Group(files, size))[f] == multiset(files)[f]
  {
    if files != [] {
      var front, last := files[..|files| - 1], files[|files| - 1];
      GroupCounts(front, size);
      assert files == front + [last];
    }
  }

  lemma {:induction false} GroupSubseq(files: seq<FileRecord>, size: nat)
    ensures Subseq(Group(files, size), files)
  {
    if files != [] {
      var front, last := files[..|files| - 1], files[|files| - 1];
      GroupSubseq(front, size);
      assert files == front + [last];
      var g := Group(front, size);
      if last.size == size {
        assert Group(files, size) == g + [last];
        SubseqTake(g, front, last);
      } else {
        assert Group(files, size) == g;
        SubseqSkip(g, front, last);
      }
    }
  }

  // ---------------------------------------------------------------------------
  // The enumeration order of the size dictionary's keys

  /**
   * Keys below this bound are array indices: an object enumerates them first,
   * in ascending order, and its other keys afterwards in insertion order.
   */
  const ArrayIndexBound: nat := 0xFFFF_FFFF

  /** Every array-index key is larger than all keys before it. */
  predicate InKeyOrder(keys: seq<nat>)
  {
    forall i, j :: 0 <= i < j < |keys| && keys[j] < ArrayIndexBound ==> keys[i] < keys[j]
  }

  /** Places an array-index key before the first larger key. */
  function InsertIndexKey(keys: seq<nat>, k: nat): seq<nat>
  {
    if keys == [] || k < keys[0] then [k] + keys
    else [keys[0]] + InsertIndexKey(keys[1..], k)
  }

  /** Every array-index key of `s` is larger than `x`. */
  predicate AllAbove(x: nat, s: seq<nat>)
  {
    forall j :: 0 <= j < |s| && s[j] < ArrayIndexBound ==> x < s[j]
  }

  lemma InKeyOrderCons(x: nat, s: seq<nat>)
    ensures InKeyOrder([x] + s) <==> AllAbove(x, s) && InKeyOrder(s)
    ensures Distinct([x] + s) <==> x !in s && Distinct(s)
  {
    OrderCons(x, s);
    DistinctCons(x, s);
  }

  lemma OrderCons(x: nat, s: seq<nat>)
    ensures InKeyOrder([x] + s) <==> AllAbove(x, s) && InKeyOrder(s)
  {
    var r := [x] + s;
    assert forall j :: 0 < j < |r| ==> r[j] == s[j - 1];
    if AllAbove(x, s) && InKeyOrder(s) {
      forall i, j | 0 <= i < j < |r| && r[j] < ArrayIndexBound ensures r[i] < r[j] {
        if i > 0 { assert r[i] == s[i - 1]; }
      }
    }
    if InKeyOrder(r) {
      forall i, j | 0 <= i < j < |s| && s[j] < ArrayIndexBound ensures s[i] < s[j] {
        assert s[i] == r[i + 1] && s[j] == r[j + 1];
      }
      forall j | 0 <= j < |s| && s[j] < ArrayIndexBound ensures x < s[j] {
        assert r[0] == x && s[j] == r[j + 1];
        assert r[0] < r[j + 1];
      }
    }
  }

  lemma DistinctCons(x: nat, s: seq<nat>)
    ensures Distinct([x] + s) <==> x !in s && Distinct(s)
  {
    var r := [x] + s;
    assert forall j :: 0 < j < |r| ==> r[j] == s[j - 1];
    if x !in s && Distinct(s) {
      forall i, j | 0 <= i < j < |r| ensures r[i] != r[j] {
        if i > 0 { assert r[i] == s[i - 1]; }
      }
    }
    if Distinct(r) {
      forall i, j | 0 <= i < j < |s| ensures s[i] != s[j] {
        assert s[i] == r[i + 1] && s[j] == r[j + 1];
      }
      forall j | 0 <= j < |s| ensures s[j] != x {
        assert s[j] == r[j + 1] && r[0] == x;
      }
    }
  }

  lemma {:induction false} InsertIndexKeyElements(keys: seq<nat>, k: nat)
    ensures multiset(InsertIndexKey(keys, k)) == multiset(keys) + multiset{k}
  {
    if keys != [] && k >= keys[0] {
      InsertIndexKeyElements(keys[1..], k);
      assert keys == [keys[0]] + keys[1..];
    }
  }

  lemma {:induction false} AllAboveInsert(x: nat, s: seq<nat>, k: nat)
    requires AllAbove(x, s) && x < k
    ensures AllAbove(x, InsertIndexKey(s, k))
  {
    var r := InsertIndexKey(s, k);
    if s == [] || k < s[0] {
      assert forall j :: 0 < j < |r| ==> r[j] == s[j - 1];
    } else {
      assert AllAbove(x, s[1..]) by {
        assert forall j :: 0 <= j < |s[1..]| ==> s[1..][j] == s[j + 1];
      }
      AllAboveInsert(x, s[1..], k);
      assert forall j :: 0 < j < |r| ==> r[j] == InsertIndexKey(s[1..], k)[j - 1];
    }
  }

  lemma {:induction false} InsertIndexKeyKeepsOrder(keys: seq<nat>, k: nat)
    requires k < ArrayIndexBound && k !in keys && InKeyOrder(keys) && Distinct(keys)
    ensures InKeyOrder(InsertIndexKey(keys, k)) && Distinct(InsertIndexKey(keys, k))
  {
    InKeyOrderCons(k, keys);
    if keys != [] {
      assert keys == [keys[0]] + keys[1..];
      InKeyOrderCons(keys[0], keys[1..]);
      if k >= keys[0] {
        var rest := InsertIndexKey(keys[1..], k);
        InsertIndexKeyKeepsOrder(keys[1..], k);
        AllAboveInsert(keys[0], keys[1..], k);
        InsertIndexKeyElements(keys[1..], k);
        assert keys[0] !in multiset(rest);
        InKeyOrderCons(keys[0], rest);
      } else {
        assert AllAbove(k, keys) by {
          forall j | 0 <= j < |keys| && keys[j] < ArrayIndexBound ensures k < keys[j] {
            if j > 0 { assert keys[0] < keys[j]; }
          }
        }
      }
    }
  }

  /** The key order after `sizeGroups[k]` is first assigned. */
  function AddKey(keys: seq<nat>, k: nat): (r: seq<nat>)
    requires InKeyOrder(keys) && Distinct(keys)
    ensures forall x :: x in r <==> x in keys || x == k
    ensures InKeyOrder(r) && Distinct(r)
    ensures k in keys ==> r == keys
    ensures k !in keys && k >= ArrayIndexBound ==> r == keys + [k]
  {
    if k in keys then keys
    else if k < ArrayIndexBound then
      InsertIndexKeyKeepsOrder(keys, k);
      InsertIndexKeyElements(keys, k);
      assert forall x :: x in InsertIndexKey(keys, k) <==> x in multiset(InsertIndexKey(keys, k));
      InsertIndexKey(keys, k)
    else keys + [k]
  }

  /** The order in which `Object.values(sizeGroups)` visits the groups. */
  function KeyOrder(files: seq<FileRecord>): (keys: seq<nat>)
    ensures InKeyOrder(keys) && Distinct(keys)
    ensures forall k :: k in keys <==> k in Sizes(files)
  {
    if files == [] then []
    else
      var last := files[|files| - 1];
      assert files == files[..|files| - 1] + [last];
      assert Sizes(files) == Sizes(files[..|files| - 1]) + {last.size};
      AddKey(KeyOrder(files[..|files| - 1]), last.size)
  }

  /** When every size is an array index, the groups are visited by ascending size. */
  lemma KeyOrderAscending(files: seq<FileRecord>)
    requires forall f :: f in files ==> f.size < ArrayIndexBound
    ensures forall i, j :: 0 <= i < j < |KeyOrder(files)| ==> KeyOrder(files)[i] < KeyOrder(files)[j]
  {
    var keys := KeyOrder(files);
    forall j | 0 <= j < |keys| ensures keys[j] < ArrayIndexBound {
      assert keys[j] in Sizes(files);
    }
  }

  /** The keys of `keys` that are not array indices, in order. */
  function Late(keys: seq<nat>): (late: seq<nat>)
    ensures forall x :: x in late <==> x in keys && x >= ArrayIndexBound
  {
    if keys == [] then []
    else (if keys[0] >= ArrayIndexBound then [keys[0]] else []) + Late(keys[1..])
  }

  /** The sizes of `files` that are not array indices, in the order of their first occurrence. */
  function FirstSeen(files: seq<FileRecord>): (seen: seq<nat>)
    ensures forall x :: x in seen <==> x in Sizes(files) && x >= ArrayIndexBound
  {
    if files == [] then []
    else
      var front, last := files[..|files| - 1], files[|files| - 1];
      assert files == front + [last];
      assert Sizes(files) == Sizes(front) + {last.size};
      var seen := FirstSeen(front);
      seen + (if last.size >= ArrayIndexBound && last.size !in seen then [last.size] else [])
  }

  lemma {:induction false} LateInsert(keys: seq<nat>, k: nat)
    requires k < ArrayIndexBound
    ensures Late(InsertIndexKey(keys, k)) == Late(keys)
  {
    if keys == [] || k < keys[0] {
      assert ([k] + keys)[1..] == keys;
    } else {
      LateInsert(keys[1..], k);
      assert ([keys[0]] + InsertIndexKey(keys[1..], k))[1..] == InsertIndexKey(keys[1..], k);
    }
  }

  lemma {:induction false} LateAppend(keys: seq<nat>, k: nat)
    ensures Late(keys + [k]) == Late(keys) + (if k >= ArrayIndexBound then [k] else [])
  {
    if keys != [] {
      LateAppend(keys[1..], k);
      assert (keys + [k])[1..] == keys[1..] + [k];
    }
  }

  /**
   * The groups whose size is not an array index are visited after the
   * others in the order their sizes first occur: insertion order.
   */
  lemma {:induction false} KeyOrderLate(files: seq<FileRecord>)
    ensures Late(KeyOrder(files)) == FirstSeen(files)
  {
    if files != [] {
      var front, last := files[..|files| - 1], files[|files| - 1];
      KeyOrderLate(front);
      var keys, k := KeyOrder(front), last.size;
      assert KeyOrder(files) == AddKey(keys, k);
      if k in keys {
        assert k >= ArrayIndexBound ==> k in Late(keys);
      } else if k < ArrayIndexBound {
        LateInsert(keys, k);
      } else {
        LateAppend(keys, k);
      }
    }
  }

  // ---------------------------------------------------------------------------
  // Duplicates and kept files

  /** All but the first of a sorted group of two or more; none of a singleton. */
  function GroupDuplicates(g: seq<FileRecord>): seq<FileRecord>
  {
    if |g| > 1 then SortByKey(g, Score)[1..] else []
  }

  /** The member of a non-empty group that is not marked. */
  function GroupKeeper(g: seq<FileRecord>): seq<FileRecord>
  {
    if g == [] then [] else [SortByKey(g, Score)[0]]
  }

  /** A group splits into its keeper and its duplicates. */
  lemma GroupSplits(g: seq<FileRecord>)
    ensures multiset(GroupDuplicates(g)) + multiset(GroupKeeper(g)) == multiset(g)
  {
    if g != [] {
      var s := SortByKey(g, Score);
      assert s == [s[0]] + s[1..];
    }
  }

  /** The duplicates collected from the groups of `keys`, in that order. */
  function DuplicatesIn(files: seq<FileRecord>, keys: seq<nat>): seq<FileRecord>
  {
    if keys == [] then []
    else DuplicatesIn(files, keys[..|keys| - 1]) + GroupDuplicates(Group(files, keys[|keys| - 1]))
  }

  function KeptIn(files: seq<FileRecord>, keys: seq<nat>): seq<FileRecord>
  {
    if keys == [] then []
    else KeptIn(files, keys[..|keys| - 1]) + GroupKeeper(Group(files, keys[|keys| - 1]))
  }

  /** `findDuplicates(files)`. */
  function Duplicates(files: seq<FileRecord>): seq<FileRecord>
  {
    DuplicatesIn(files, KeyOrder(files))
  }

  /** The one file kept from each size group, in group order. */
  function Kept(files: seq<FileRecord>): seq<FileRecord>
  {
    KeptIn(files, KeyOrder(files))
  }

  /** The file kept from the group of the given size. */
  function Keeper(files: seq<FileRecord>, size: nat): FileRecord
    requires size in Sizes(files)
  {
    SortByKey(Group(files, size), Score)[0]
  }

  /** The files whose size is one of `keys`, in input order. */
  function Within(files: seq<FileRecord>, keys: seq<nat>): seq<FileRecord>
  {
    if files == [] then []
    else
      var last := files[|files| - 1];
      Within(files[..|files| - 1], keys) + (if last.size in keys then [last] else [])
  }

  lemma WithinAddStep(wk: seq<FileRecord>, w: seq<FileRecord>, g: seq<FileRecord>, last: FileRecord, inKeys: bool, isKey: bool)
    requires !(inKeys && isKey)
    requires multiset(wk) == multiset(w) + multiset(g)
    ensures multiset(wk + (if inKeys || isKey then [last] else []))
         == multiset(w + (if inKeys then [last] else [])) + multiset(g + (if isKey then [last] else []))
  {
  }

  lemma {:induction false} WithinAdd(files: seq<FileRecord>, keys: seq<nat>, k: nat)
    requires k !in keys
    ensures multiset(Within(files, keys + [k])) == multiset(Within(files, keys)) + multiset(Group(files, k))
  {
    if files != [] {
      var front, last := files[..|files| - 1], files[|files| - 1];
      var ks := keys + [k];
      WithinAdd(front, keys, k);
      assert last.size in ks <==> last.size in keys || last.size == k;
      WithinAddStep(Within(front, ks), Within(front, keys), Group(front, k), last, last.size in keys, last.size == k);
    }
  }

  lemma {:induction false} WithinAll(files: seq<FileRecord>, keys: seq<nat>)
    requires forall f :: f in files ==> f.size in keys
    ensures Within(files, keys) == files
  {
    if files != [] {
      var init := files[..|files| - 1];
      assert files == init + [files[|files| - 1]];
      WithinAll(init, keys);
    }
  }

  lemma {:induction false} WithinNone(files: seq<FileRecord>)
    ensures Within(files, []) == []
  {
    if files != [] {
      WithinNone(files[..|files| - 1]);
    }
  }

  lemma {:induction false} PartitionIn(files: seq<FileRecord>, keys: seq<nat>)
    requires Distinct(keys)
    ensures multiset(DuplicatesIn(files, keys)) + multiset(KeptIn(files, keys))
         == multiset(Within(files, keys))
  {
    if keys == [] {
      WithinNone(files);
    } else {
      var init, k := keys[..|keys| - 1], keys[|keys| - 1];
      var g := Group(files, k);
      assert multiset(Within(files, keys)) == multiset(Within(files, init)) + multiset(g) by {
        DistinctInit(keys);
        assert keys == init + [k];
        WithinAdd(files, init, k);
      }
      assert multiset(DuplicatesIn(files, init)) + multiset(KeptIn(files, init))
          == multiset(Within(files, init)) by {
        DistinctInit(keys);
        PartitionIn(files, init);
      }
      GroupSplits(g);
      SplitStep(DuplicatesIn(files, init), KeptIn(files, init), GroupDuplicates(g), GroupKeeper(g));
    }
  }

  lemma SplitStep(dups: seq<FileRecord>, kept: seq<FileRecord>, d: seq<FileRecord>, k: seq<FileRecord>)
    ensures multiset(dups + d) + multiset(kept + k) == (multiset(dups) + multiset(kept)) + (multiset(d) + multiset(k))
  {
  }

  lemma DistinctInit(keys: seq<nat>)
    requires Distinct(keys) && keys != []
    ensures Distinct(keys[..|keys| - 1]) && keys[|keys| - 1] !in keys[..|keys| - 1]
  {
    var init := keys[..|keys| - 1];
    forall i | 0 <= i < |init| ensures init[i] != keys[|keys| - 1] {
      assert init[i] == keys[i];
    }
  }

  /**
   * Every input file is either kept or marked as a duplicate, exactly once:
   * the duplicates and the kept files together are the input.
   */
  lemma DuplicatesPartition(files: seq<FileRecord>)
    ensures multiset(Duplicates(files)) + multiset(Kept(files)) == multiset(files)
  {
    var keys := KeyOrder(files);
    PartitionIn(files, keys);
    assert forall f :: f in files ==> f.size in Sizes(files);
    WithinAll(files, keys);
  }

  lemma {:induction false} KeptInLength(files: seq<FileRecord>, keys: seq<nat>)
    requires forall k :: k in keys ==> k in Sizes(files)
    ensures |KeptIn(files, keys)| == |keys|
  {
    if keys != [] {
      KeptInLength(files, keys[..|keys| - 1]);
    }
  }

  /**
   * One file per distinct size is kept, so the number of duplicates is the
   * number of files minus the number of distinct sizes.
   */
  lemma DuplicatesCount(files: seq<FileRecord>)
    ensures |Kept(files)| == |KeyOrder(files)| == |Sizes(files)|
    ensures |Duplicates(files)| == |files| - |Sizes(files)|
  {
    var keys := KeyOrder(files);
    KeptInLength(files, keys);
    DistinctCardinality(keys);
    assert KeySet(keys) == Sizes(files);
    DuplicatesPartition(files);
    assert |multiset(Duplicates(files))| + |multiset(Kept(files))| == |multiset(files)|;
  }

  /** A non-empty group keeps exactly one file, of the group's size. */
  lemma GroupKeeperSize(files: seq<FileRecord>, size: nat)
    requires size in Sizes(files)
    ensures |GroupKeeper(Group(files, size))| == 1 && GroupKeeper(Group(files, size))[0].size == size
  {
    var g := Group(files, size);
    assert SortByKey(g, Score)[0] in multiset(g);
  }

  /** The kept files have the sizes of the keys, one per key, in key order. */
  lemma {:induction false} KeptInSizes(files: seq<FileRecord>, keys: seq<nat>)
    requires forall k :: k in keys ==> k in Sizes(files)
    ensures |KeptIn(files, keys)| == |keys|
    ensures forall i :: 0 <= i < |keys| ==> KeptIn(files, keys)[i].size == keys[i]
  {
    if keys != [] {
      var front, k := keys[..|keys| - 1], keys[|keys| - 1];
      assert keys == front + [k];
      KeptInSizes(files, front);
      GroupKeeperSize(files, k);
      SizesAppend(KeptIn(files, front), GroupKeeper(Group(files, k)), front, k);
    }
  }

  lemma SizesAppend(a: seq<FileRecord>, b: seq<FileRecord>, keys: seq<nat>, k: nat)
    requires |a| == |keys| && forall i :: 0 <= i < |keys| ==> a[i].size == keys[i]
    requires |b| == 1 && b[0].size == k
    ensures |a + b| == |keys + [k]|
    ensures forall i :: 0 <= i < |keys| + 1 ==> (a + b)[i].size == (keys + [k])[i]
  {
  }

  /**
   * The kept files have pairwise different sizes, and every duplicate has the
   * size of one of them: each duplicate has the size of exactly one kept file.
   */
  lemma OneKeeperPerDuplicate(files: seq<FileRecord>)
    ensures forall i, j :: 0 <= i < j < |Kept(files)| ==> Kept(files)[i].size != Kept(files)[j].size
    ensures forall d :: d in Duplicates(files) ==> exists i :: 0 <= i < |Kept(files)| && Kept(files)[i].size == d.size
  {
    var keys := KeyOrder(files);
    var kept := Kept(files);
    KeptInSizes(files, keys);
    forall d | d in Duplicates(files) ensures exists i :: 0 <= i < |kept| && kept[i].size == d.size {
      KeeperBeatsDuplicates(files, d);
      var i :| 0 <= i < |keys| && keys[i] == d.size;
      assert kept[i].size == d.size;
    }
  }

  /** The keys of a sequence, as a set. */
  function KeySet(keys: seq<nat>): (ks: set<nat>)
    ensures forall k :: k in ks <==> k in keys
  {
    if keys == [] then {}
    else
      assert keys == keys[..|keys| - 1] + [keys[|keys| - 1]];
      KeySet(keys[..|keys| - 1]) + {keys[|keys| - 1]}
  }

  lemma {:induction false} DistinctCardinality(keys: seq<nat>)
    requires Distinct(keys)
    ensures |KeySet(keys)| == |keys|
  {
    if keys != [] {
      DistinctInit(keys);
      DistinctCardinality(keys[..|keys| - 1]);
    }
  }

  /** A group of n > 0 files contributes n - 1 duplicates; a singleton none. */
  lemma GroupDuplicatesCount(g: seq<FileRecord>)
    ensures |GroupDuplicates(g)| == if g == [] then 0 else |g| - 1
  {
  }

  lemma {:induction false} DuplicatesInGroup(files: seq<FileRecord>, keys: seq<nat>, d: FileRecord)
    requires d in DuplicatesIn(files, keys)
    ensures d.size in keys && d in GroupDuplicates(Group(files, d.size))
  {
    var init := keys[..|keys| - 1];
    var k := keys[|keys| - 1];
    if d in DuplicatesIn(files, init) {
      DuplicatesInGroup(files, init, d);
    } else {
      var g := Group(files, k);
      assert d in SortByKey(g, Score)[1..];
      assert d in multiset(SortByKey(g, Score));
    }
  }

  /**
   * Every duplicate is an input file, and the file kept from its size group
   * has the same size and a score at least as high.
   */
  lemma KeeperBeatsDuplicates(files: seq<FileRecord>, d: FileRecord)
    requires d in Duplicates(files)
    ensures d in files && d.size in Sizes(files)
    ensures Keeper(files, d.size).size == d.size
    ensures Score(Keeper(files, d.size)) >= Score(d)
  {
    DuplicatesInGroup(files, KeyOrder(files), d);
    var g := Group(files, d.size);
    GroupDuplicateBeaten(g, d);
    assert d in multiset(g);
  }

  lemma GroupDuplicateBeaten(g: seq<FileRecord>, d: FileRecord)
    requires d in GroupDuplicates(g)
    ensures |g| > 1 && d in g && SortByKey(g, Score)[0] in g
    ensures Score(SortByKey(g, Score)[0]) >= Score(d)
  {
    var s := SortByKey(g, Score);
    var m :| 0 <= m < |s[1..]| && s[1..][m] == d;
    assert s[m + 1] == d;
    assert s[0] in multiset(g) && d in multiset(g);
  }

  /** The kept file is the earliest of its size group among those with the top score. */
  lemma KeeperIsEarliestBest(files: seq<FileRecord>, size: nat)
    requires size in Sizes(files)
    ensures var g := Group(files, size);
      Keeper(files, size) == g[FirstBest(g, Score)]
  {
    SortHead(Group(files, size), Score);
  }

  lemma {:induction false} DuplicatesInSizes(files: seq<FileRecord>, keys: seq<nat>)
    ensures forall d :: d in DuplicatesIn(files, keys) ==> d.size in keys
  {
    forall d | d in DuplicatesIn(files, keys) ensures d.size in keys {
      DuplicatesInGroup(files, keys, d);
    }
  }

  /** Sizes never decrease along `s`. */
  predicate SizesAscending(s: seq<FileRecord>)
  {
    forall i, j :: 0 <= i < j < |s| ==> s[i].size <= s[j].size
  }

  /** When every size is an array index, duplicates come out by ascending size. */
  lemma DuplicatesBySize(files: seq<FileRecord>)
    requires forall f :: f in files ==> f.size < ArrayIndexBound
    ensures SizesAscending(Duplicates(files))
  {
    KeyOrderAscending(files);
    DuplicatesBySizeIn(files, KeyOrder(files));
  }

  lemma AscendingAppend(a: seq<FileRecord>, b: seq<FileRecord>, k: nat)
    requires SizesAscending(a)
    requires forall d :: d in a ==> d.size < k
    requires forall d :: d in b ==> d.size == k
    ensures SizesAscending(a + b)
  {
    var r := a + b;
    forall i, j | 0 <= i < j < |r| ensures r[i].size <= r[j].size {
      if j < |a| {
        assert r[i] == a[i] && r[j] == a[j];
      } else if i < |a| {
        assert r[i] == a[i] && r[j] == b[j - |a|];
        assert r[i] in a && r[j] in b;
      } else {
        assert r[i] == b[i - |a|] && r[j] == b[j - |a|];
        assert r[i] in b && r[j] in b;
      }
    }
  }

  lemma GroupDuplicatesSize(files: seq<FileRecord>, k: nat)
    ensures forall d :: d in GroupDuplicates(Group(files, k)) ==> d.size == k
  {
    forall d | d in GroupDuplicates(Group(files, k)) ensures d.size == k {
      assert d in multiset(SortByKey(Group(files, k), Score));
    }
  }

  lemma {:induction false} DuplicatesBySizeIn(files: seq<FileRecord>, keys: seq<nat>)
    requires forall i, j :: 0 <= i < j < |keys| ==> keys[i] < keys[j]
    ensures SizesAscending(DuplicatesIn(files, keys))
  {
    if keys != [] {
      var init := keys[..|keys| - 1];
      var k := keys[|keys| - 1];
      DuplicatesBySizeIn(files, init);
      DuplicatesInSizes(files, init);
      GroupDuplicatesSize(files, k);
      forall d | d in DuplicatesIn(files, init) ensures d.size < k {
        var m :| 0 <= m < |init| && init[m] == d.size;
        assert keys[m] == init[m];
      }
      AscendingAppend(DuplicatesIn(files, init), GroupDuplicates(Group(files, k)), k);
    }
  }

  /** The size dictionary after a pass over `files`: each file appended to its size's group. */
  function SizeGroups(files: seq<FileRecord>): map<nat, seq<FileRecord>>
  {
    if files == [] then map[]
    else
      var before := SizeGroups(files[..|files| - 1]);
      var file := files[|files| - 1];
      before[file.size := (if file.size in before then before[file.size] else []) + [file]]
  }

  /** The dictionary holds exactly the sizes that occur, each with its group. */
  lemma {:induction false} SizeGroupsAreGroups(files: seq<FileRecord>)
    ensures forall k :: k in SizeGroups(files) <==> k in Sizes(files)
    ensures forall k :: k in SizeGroups(files) ==> SizeGroups(files)[k] == Group(files, k)
  {
    if files != [] {
      var init := files[..|files| - 1];
      SizeGroupsAreGroups(init);
      SizesSnoc(files, |files| - 1);
      assert files[..|files|] == files;
      forall k | k in SizeGroups(files) ensures SizeGroups(files)[k] == Group(files, k) {
        GroupSnoc(files, |files| - 1, k);
      }
    }
  }

  /** What adding the next file does to the dictionary and to its key order. */
  lemma GroupingStep(files: seq<FileRecord>, i: nat)
    requires i < |files|
    ensures KeyOrder(files[..i + 1]) == AddKey(KeyOrder(files[..i]), files[i].size)
    ensures files[i].size in SizeGroups(files[..i]) <==> files[i].size in KeyOrder(files[..i])
    ensures var size := files[i].size;
            var before := SizeGroups(files[..i]);
            SizeGroups(files[..i + 1])
              == before[size := (if size in before then before[size] else []) + [files[i]]]
  {
    assert files[..i + 1][..i] == files[..i];
    SizeGroupsAreGroups(files[..i]);
  }

  lemma SizesSnoc(files: seq<FileRecord>, i: nat)
    requires i < |files|
    ensures Sizes(files[..i + 1]) == Sizes(files[..i]) + {files[i].size}
  {
    assert files[..i + 1] == files[..i] + [files[i]];
  }

  lemma GroupSnoc(files: seq<FileRecord>, i: nat, k: nat)
    requires i < |files|
    ensures Group(files[..i + 1], k) == Group(files[..i], k) + (if files[i].size == k then [files[i]] else [])
  {
    assert files[..i + 1][..i] == files[..i];
  }

  lemma SliceExtend(s: seq<FileRecord>, i: nat, m: nat)
    requires i <= m < |s|
    ensures s[i..m + 1] == s[i..m] + [s[m]]
  {
  }

  /** One turn of the walk over the groups extends the collected duplicates by one group's share. */
  lemma CollectStep(files: seq<FileRecord>, keys: seq<nat>, j: nat, before: seq<FileRecord>,
                    group: seq<FileRecord>, after: seq<FileRecord>)
    requires j < |keys| && before == DuplicatesIn(files, keys[..j]) && group == Group(files, keys[j])
    requires after == before + GroupDuplicates(group)
    ensures after == DuplicatesIn(files, keys[..j + 1])
  {
    assert keys[..j + 1][..j] == keys[..j];
  }

  /**
   * The first pass of `findDuplicates`: appends each file to the list of its
   * size in the dictionary `sizeGroups`; `keys` is the order in which the
   * dictionary enumerates its keys.
   */
  method GroupBySize(files: seq<FileRecord>) returns (sizeGroups: map<nat, seq<FileRecord>>, keys: seq<nat>)
    ensures keys == KeyOrder(files)
    ensures forall k :: k in sizeGroups <==> k in keys
    ensures forall k :: k in sizeGroups ==> sizeGroups[k] == Group(files, k)
  {
    sizeGroups, keys := map[], [];
    for i := 0 to |files|
      invariant sizeGroups == SizeGroups(files[..i])
      invariant keys == KeyOrder(files[..i])
    {
      var file := files[i];
      GroupingStep(files, i);
      var group := [];
      if file.size in sizeGroups {
        group := sizeGroups[file.size];
      } else {
        keys := AddKey(keys, file.size);
      }
      sizeGroups := sizeGroups[file.size := group + [file]];
    }
    assert files[..|files|] == files;
    SizeGroupsAreGroups(files);
  }

  /**
   * The callback `findDuplicates` runs on each group: a group of two or more
   * is sorted best first and all its members but the first are pushed.
   */
  method MarkGroup(duplicates: seq<FileRecord>, group: seq<FileRecord>) returns (pushed: seq<FileRecord>)
    ensures pushed == duplicates + GroupDuplicates(group)
  {
    pushed := duplicates;
    if |group| > 1 {
      var sorted := SortByKey(group, Score);
      pushed := PushAllButFirst(duplicates, sorted);
    }
  }

  /** The loop `for (let i = 1; i < group.length; i++) duplicates.push(group[i])`. */
  method PushAllButFirst(duplicates: seq<FileRecord>, group: seq<FileRecord>) returns (pushed: seq<FileRecord>)
    requires group != []
    ensures pushed == duplicates + group[1..]
  {
    pushed := duplicates;
    for m := 1 to |group|
      invariant pushed == duplicates + group[1..m]
    {
      SliceExtend(group, 1, m);
      pushed := pushed + [group[m]];
    }
  }

  /**
   * `findDuplicates`: groups the files by size, then walks the groups in key
   * order, sorting each group of two or more and collecting all members but
   * the first.
   */
  method FindDuplicates(files: seq<FileRecord>) returns (duplicates: seq<FileRecord>)
    ensures duplicates == Duplicates(files)
  {
    var sizeGroups, keys := GroupBySize(files);
    duplicates := [];
    for j := 0 to |keys|
      invariant duplicates == DuplicatesIn(files, keys[..j])
    {
      ghost var before := duplicates;
      duplicates := MarkGroup(duplicates, sizeGroups[keys[j]]);
      CollectStep(files, keys, j, before, sizeGroups[keys[j]], duplicates);
    }
    assert keys[..|keys|] == keys;
  }
}
