/**
 * What the two walkers promise, and how they relate: an order-free
 * description of what a walk must find, each walker's agreement with it,
 * the shape each walker gives its lists, and two small trees worked out.
 */
module WalkProperties {
  import opened FileSystem
  import opened GetFilesList

  /** The three lists of a walk with their order forgotten. */
  datatype Census = Census(files: multiset<File>, folders: multiset<Dir>, failures: multiset<(Dir, AccessError)>)
  {
    function Plus(other: Census): Census
    {
      Census(files + other.files, folders + other.folders, failures + other.failures)
    }
  }

  const Nothing := Census(multiset{}, multiset{}, multiset{})

  function Bag(l: Lists): Census
  {
    Census(multiset(l.files), multiset(l.folders), multiset(l.notAccessedFolders))
  }

  /** What a walk of `d` must report, in no particular order: a directory
      that cannot be listed contributes its failure and nothing of its
      subtree; a listed one contributes its matched files, each of its
      subdirectories as a folder, and what each subdirectory's own walk
      reports. The directory a walk starts from is never a folder of it. */
  ghost function Reference(d: Dir, pattern: Pattern): Census
    decreases d
  {
    match d.denied
    case Some(e) => Census(multiset{}, multiset{}, multiset{(d, e)})
    case None =>
      Census(multiset(Matched(d.files, pattern)), multiset(d.subdirs), multiset{}).Plus(ReferenceEach(d.subdirs, pattern))
  }

  ghost function ReferenceEach(ds: seq<Dir>, pattern: Pattern): Census
    decreases ds
  {
    if ds == [] then Nothing
    else Reference(ds[0], pattern).Plus(ReferenceEach(ds[1..], pattern))
  }

  lemma BagAppend(a: Lists, b: Lists, ca: Census, cb: Census)
    requires Bag(a) == ca && Bag(b) == cb
    ensures Bag(a.Append(b)) == ca.Plus(cb)
  {
    JoinCounts(a.files, b.files, ca.files, cb.files);
    JoinCounts(a.folders, b.folders, ca.folders, cb.folders);
    JoinCounts(a.notAccessedFolders, b.notAccessedFolders, ca.failures, cb.failures);
  }

  lemma PlusCommutes(a: Census, b: Census)
    ensures a.Plus(b) == b.Plus(a)
  {
    assert a.files + b.files == b.files + a.files;
    assert a.folders + b.folders == b.folders + a.folders;
    assert a.failures + b.failures == b.failures + a.failures;
  }

  // ---------------------------------------------------------------------
  // A directory that cannot be listed
  // ---------------------------------------------------------------------

  /** Sequential walker: a directory whose file listing fails adds exactly
      its one failure, and no file or folder of it or of its subtree. */
  lemma SequentialDenied(d: Dir, pattern: Pattern, e: AccessError)
    requires d.denied == Some(e)
    ensures SequentialWalk(d, pattern) == Lists([], [], [(d, e)])
  {
  }

  /** Parallel walker: a directory whose subdirectory listing fails yields
      only its one failure, and no child is walked. */
  lemma ParallelDenied(d: Dir, pattern: Pattern, e: AccessError)
    requires d.denied == Some(e)
    ensures GetFilesDirsListParallel(d, pattern) == Lists([], [], [(d, e)])
  {
  }

  // ---------------------------------------------------------------------
  // The shape of each walker's lists
  // ---------------------------------------------------------------------

  /** Sequential walker, listed directory: its own matched files come first;
      then, for each subdirectory `ds[i]` in listing order, the entries of
      the earlier subdirectories, the subdirectory itself as a folder, the
      entries of its own subtree, and the entries of the later ones. So each
      subdirectory is added immediately before its subtree, and a sibling's
      failure leaves the other siblings' entries as they are. */
  lemma SequentialChunk(d: Dir, pattern: Pattern, i: nat)
    requires d.denied.None? && i < |d.subdirs|
    ensures var ds := d.subdirs;
      SequentialWalk(d, pattern)
      == Lists(Matched(d.files, pattern), [], [])
         .Append(SequentialWalkEach(ds[..i], pattern))
         .Append(Lists([], [ds[i]], []))
         .Append(SequentialWalk(ds[i], pattern))
         .Append(SequentialWalkEach(ds[i + 1..], pattern))
    ensures var ds := d.subdirs;
      var r := SequentialWalk(d, pattern);
      var k := |SequentialWalkEach(ds[..i], pattern).folders|;
      var sub := SequentialWalk(ds[i], pattern).folders;
      k + 1 + |sub| <= |r.folders| && r.folders[k] == ds[i] && r.folders[k + 1..k + 1 + |sub|] == sub
  {
    var ds := d.subdirs;
    var own := Lists(Matched(d.files, pattern), [], []);
    var before := SequentialWalkEach(ds[..i], pattern);
    var after := SequentialWalkEach(ds[i + 1..], pattern);
    var step := SequentialStep(ds[i], pattern);
    assert ds == ds[..i] + ds[i..];
    SequentialWalkEachConcat(ds[..i], ds[i..], pattern);
    assert ds[i..][1..] == ds[i + 1..];
    assert SequentialWalkEach(ds[i..], pattern) == step.Append(after);
    AppendAssociative(own, before, step.Append(after));
    AppendAssociative(own.Append(before), step, after);
    AppendAssociative(own.Append(before), Lists([], [ds[i]], []), SequentialWalk(ds[i], pattern));
    var r := SequentialWalk(d, pattern);
    var sub := SequentialWalk(ds[i], pattern).folders;
    assert r.folders == before.folders + [ds[i]] + sub + after.folders;
  }

  /** Parallel walker, listed directory: the children's results, merged in
      scheduling order, come first; the subdirectories are appended to the
      folders and the own matched files to the files. The failures are the
      children's failures only. */
  lemma ParallelListed(d: Dir, pattern: Pattern)
    requires d.denied.None?
    ensures var r := GetFilesDirsListParallel(d, pattern);
      var children := SelectMany(RunAll(d.subdirs, pattern));
      && r.files == children.files + Matched(d.files, pattern)
      && r.folders == children.folders + d.subdirs
      && r.notAccessedFolders == children.notAccessedFolders
  {
  }

  /** Fanning out over a concatenation schedules the two halves in order. */
  lemma RunAllConcat(a: seq<Dir>, b: seq<Dir>, pattern: Pattern)
    ensures RunAll(a + b, pattern) == RunAll(a, pattern) + RunAll(b, pattern)
  {
    var whole, left, right := RunAll(a + b, pattern), RunAll(a, pattern), RunAll(b, pattern);
    forall k | 0 <= k < |whole|
      ensures whole[k] == (left + right)[k]
    {
      RunAllAt(a + b, pattern, k);
      if k < |a| {
        assert (a + b)[k] == a[k];
        RunAllAt(a, pattern, k);
      } else {
        assert (a + b)[k] == b[k - |a|];
        RunAllAt(b, pattern, k - |a|);
      }
    }
  }

  /** Parallel walker, listed directory: child `i`'s result stands whole in
      its scheduling place among the merged children's results, between the
      earlier and the later children's, whatever those children reported. */
  lemma ParallelChunk(d: Dir, pattern: Pattern, i: nat)
    requires d.denied.None? && i < |d.subdirs|
    ensures var ds := d.subdirs;
      SelectMany(RunAll(ds, pattern))
      == SelectMany(RunAll(ds[..i], pattern))
         .Append(GetFilesDirsListParallel(ds[i], pattern))
         .Append(SelectMany(RunAll(ds[i + 1..], pattern)))
  {
    var ds := d.subdirs;
    var left, right := RunAll(ds[..i], pattern), RunAll(ds[i + 1..], pattern);
    var mine := GetFilesDirsListParallel(ds[i], pattern);
    assert RunAll(ds, pattern) == left + ([mine] + right) by {
      assert ds == ds[..i] + ([ds[i]] + ds[i + 1..]);
      RunAllConcat(ds[..i], [ds[i]] + ds[i + 1..], pattern);
      RunAllConcat([ds[i]], ds[i + 1..], pattern);
      assert RunAll([ds[i]], pattern) == [mine];
    }
    SelectManyConcat(left, [mine] + right);
    assert SelectMany([mine] + right) == mine.Append(SelectMany(right)) by {
      assert ([mine] + right)[1..] == right;
    }
    AppendAssociative(SelectMany(left), mine, SelectMany(right));
  }

  // ---------------------------------------------------------------------
  // Both walkers report what the reference says, up to order
  // ---------------------------------------------------------------------

  lemma {:induction false} SequentialCensus(d: Dir, pattern: Pattern)
    ensures Bag(SequentialWalk(d, pattern)) == Reference(d, pattern)
    decreases d, 0
  {
    if d.denied.None? {
      var own := Lists(Matched(d.files, pattern), [], []);
      var rest := SequentialWalkEach(d.subdirs, pattern);
      assert SequentialWalk(d, pattern) == own.Append(rest);
      SequentialEachCensus(d.subdirs, pattern);
      var ownCensus := Census(multiset(own.files), multiset{}, multiset{});
      var restCensus := Census(multiset{}, multiset(d.subdirs), multiset{}).Plus(ReferenceEach(d.subdirs, pattern));
      BagAppend(own, rest, ownCensus, restCensus);
      var refEach := ReferenceEach(d.subdirs, pattern);
      assert ownCensus.Plus(restCensus) == Census(multiset(own.files), multiset(d.subdirs), multiset{}).Plus(refEach) by {
        assert ownCensus.files + (multiset{} + refEach.files) == multiset(own.files) + refEach.files;
        assert multiset{} + (multiset(d.subdirs) + refEach.folders) == multiset(d.subdirs) + refEach.folders;
        assert multiset{} + (multiset{} + refEach.failures) == multiset{} + refEach.failures;
      }
    }
  }

  /** The subdirectory loop reports every subdirectory as a folder, plus
      what each of their walks reports. */
  lemma {:induction false} SequentialEachCensus(ds: seq<Dir>, pattern: Pattern)
    ensures Bag(SequentialWalkEach(ds, pattern)) == Census(multiset{}, multiset(ds), multiset{}).Plus(ReferenceEach(ds, pattern))
    decreases ds
  {
    if ds != [] {
      SequentialCensus(ds[0], pattern);
      SequentialEachCensus(ds[1..], pattern);
      assert ds == [ds[0]] + ds[1..];
      CensusStep(ds[0], SequentialWalk(ds[0], pattern), ds[1..], SequentialWalkEach(ds[1..], pattern),
                 Reference(ds[0], pattern), ReferenceEach(ds[1..], pattern));
    }
  }

  /** Multiset bookkeeping of two consecutive pieces. */
  lemma JoinCounts<T>(s1: seq<T>, s2: seq<T>, r1: multiset<T>, r2: multiset<T>)
    requires multiset(s1) == r1 && multiset(s2) == r2
    ensures multiset(s1 + s2) == r1 + r2
  {
  }

  /** Multiset bookkeeping of a folder, its subtree's folders and its later siblings' folders. */
  lemma RegroupCounts<T>(x: T, s1: seq<T>, s2: seq<T>, xs: seq<T>, r1: multiset<T>, r2: multiset<T>)
    requires multiset(s1) == r1 && multiset(s2) == multiset(xs) + r2
    ensures multiset([x] + s1 + s2) == multiset([x] + xs) + (r1 + r2)
  {
    assert multiset([x] + xs) == multiset{x} + multiset(xs);
    assert multiset([x] + s1 + s2) == multiset{x} + multiset(s1) + multiset(s2);
  }

  /** The bookkeeping of one iteration of the sequential subdirectory loop. */
  lemma CensusStep(x: Dir, sub: Lists, xs: seq<Dir>, rest: Lists, ref0: Census, refRest: Census)
    requires Bag(sub) == ref0
    requires Bag(rest) == Census(multiset{}, multiset(xs), multiset{}).Plus(refRest)
    ensures Bag(Lists([], [x], []).Append(sub).Append(rest))
         == Census(multiset{}, multiset([x] + xs), multiset{}).Plus(ref0.Plus(refRest))
  {
    var whole := Lists([], [x], []).Append(sub).Append(rest);
    assert whole.files == sub.files + rest.files;
    JoinCounts(sub.files, rest.files, ref0.files, refRest.files);
    assert whole.folders == [x] + sub.folders + rest.folders;
    RegroupCounts(x, sub.folders, rest.folders, xs, ref0.folders, refRest.folders);
    assert whole.notAccessedFolders == sub.notAccessedFolders + rest.notAccessedFolders;
    JoinCounts(sub.notAccessedFolders, rest.notAccessedFolders, ref0.failures, refRest.failures);
  }

  lemma {:induction false} ParallelCensus(d: Dir, pattern: Pattern)
    ensures Bag(GetFilesDirsListParallel(d, pattern)) == Reference(d, pattern)
    decreases d, 0
  {
    if d.denied.None? {
      var children := SelectMany(RunAll(d.subdirs, pattern));
      var own := Lists(Matched(d.files, pattern), d.subdirs, []);
      assert GetFilesDirsListParallel(d, pattern) == children.Append(own);
      RunAllCensus(d.subdirs, pattern);
      BagAppend(children, own, ReferenceEach(d.subdirs, pattern), Bag(own));
      PlusCommutes(ReferenceEach(d.subdirs, pattern), Bag(own));
    }
  }

  /** Merging the children's results reports what the children's walks report. */
  lemma {:induction false} RunAllCensus(ds: seq<Dir>, pattern: Pattern)
    ensures Bag(SelectMany(RunAll(ds, pattern))) == ReferenceEach(ds, pattern)
    decreases ds
  {
    if ds != [] {
      var results := RunAll(ds, pattern);
      assert results == [GetFilesDirsListParallel(ds[0], pattern)] + RunAll(ds[1..], pattern);
      assert results[1..] == RunAll(ds[1..], pattern);
      assert SelectMany(results) == results[0].Append(SelectMany(results[1..]));
      ParallelCensus(ds[0], pattern);
      RunAllCensus(ds[1..], pattern);
      BagAppend(results[0], SelectMany(results[1..]), Reference(ds[0], pattern), ReferenceEach(ds[1..], pattern));
    }
  }

  /** On the same tree the two walkers report the same files, folders and
      failures, each as often; only the order differs. */
  lemma WalkersAgree(d: Dir, pattern: Pattern)
    ensures var s, p := SequentialWalk(d, pattern), GetFilesDirsListParallel(d, pattern);
      && multiset(s.files) == multiset(p.files)
      && multiset(s.folders) == multiset(p.folders)
      && multiset(s.notAccessedFolders) == multiset(p.notAccessedFolders)
  {
    SequentialCensus(d, pattern);
    ParallelCensus(d, pattern);
  }

  /** Every folder the reference reports for `d` is a strictly smaller tree
      than `d`, so `d` itself is never one of them. */
  lemma {:induction false} ReferenceFoldersBelow(d: Dir, pattern: Pattern)
    ensures forall x :: x in Reference(d, pattern).folders ==> Size(x) < Size(d)
    decreases d, 0
  {
    if d.denied.None? {
      ReferenceEachFoldersBelow(d.subdirs, pattern);
      forall x | x in d.subdirs
        ensures Size(x) < Size(d)
      {
        SizeOfMember(d.subdirs, x);
      }
    }
  }

  lemma {:induction false} ReferenceEachFoldersBelow(ds: seq<Dir>, pattern: Pattern)
    ensures forall x :: x in ReferenceEach(ds, pattern).folders ==> Size(x) < SizeEach(ds)
    decreases ds
  {
    if ds != [] {
      ReferenceFoldersBelow(ds[0], pattern);
      ReferenceEachFoldersBelow(ds[1..], pattern);
    }
  }

  /** `x` lies strictly inside the tree rooted at `d`: it is one of `d`'s
      subdirectories or lies inside one of them. */
  ghost predicate Below(x: Dir, d: Dir)
    decreases d
  {
    exists i :: 0 <= i < |d.subdirs| && (x == d.subdirs[i] || Below(x, d.subdirs[i]))
  }

  /** Every folder the reference reports for `d` is a descendant of `d`. */
  lemma {:induction false} ReferenceFoldersInside(d: Dir, pattern: Pattern)
    ensures forall x :: x in Reference(d, pattern).folders ==> Below(x, d)
    decreases d, 0
  {
    if d.denied.None? {
      ReferenceEachFoldersInside(d.subdirs, pattern);
      forall x | x in Reference(d, pattern).folders
        ensures Below(x, d)
      {
        if x !in multiset(d.subdirs) {
          assert x in ReferenceEach(d.subdirs, pattern).folders;
          var i :| 0 <= i < |d.subdirs| && (x == d.subdirs[i] || Below(x, d.subdirs[i]));
        } else {
          assert x in d.subdirs;
          var i :| 0 <= i < |d.subdirs| && d.subdirs[i] == x;
        }
      }
    }
  }

  /** Every folder the reference reports for a run of subdirectories is one
      of them or a descendant of one of them. */
  lemma {:induction false} ReferenceEachFoldersInside(ds: seq<Dir>, pattern: Pattern)
    ensures forall x :: x in ReferenceEach(ds, pattern).folders ==>
      exists i :: 0 <= i < |ds| && (x == ds[i] || Below(x, ds[i]))
    decreases ds
  {
    if ds != [] {
      ReferenceFoldersInside(ds[0], pattern);
      ReferenceEachFoldersInside(ds[1..], pattern);
      forall x | x in ReferenceEach(ds, pattern).folders
        ensures exists i :: 0 <= i < |ds| && (x == ds[i] || Below(x, ds[i]))
      {
        if x in Reference(ds[0], pattern).folders {
          assert Below(x, ds[0]);
        } else {
          assert x in ReferenceEach(ds[1..], pattern).folders;
          var j :| 0 <= j < |ds[1..]| && (x == ds[1..][j] || Below(x, ds[1..][j]));
          assert ds[1..][j] == ds[j + 1];
        }
      }
    }
  }

  /** Every folder either walker reports for `d` is a descendant of `d`:
      nothing outside the tree it starts from is ever added. */
  lemma FoldersInside(d: Dir, pattern: Pattern)
    ensures forall x :: x in SequentialWalk(d, pattern).folders ==> Below(x, d)
    ensures forall x :: x in GetFilesDirsListParallel(d, pattern).folders ==> Below(x, d)
  {
    ReferenceFoldersInside(d, pattern);
    SequentialCensus(d, pattern);
    ParallelCensus(d, pattern);
    forall x | x in SequentialWalk(d, pattern).folders
      ensures Below(x, d)
    {
      assert x in multiset(SequentialWalk(d, pattern).folders);
    }
    forall x | x in GetFilesDirsListParallel(d, pattern).folders
      ensures Below(x, d)
    {
      assert x in multiset(GetFilesDirsListParallel(d, pattern).folders);
    }
  }

  /** Neither walker ever adds the directory it starts from to the folders. */
  lemma RootNeverInFolders(d: Dir, pattern: Pattern)
    ensures d !in SequentialWalk(d, pattern).folders
    ensures d !in GetFilesDirsListParallel(d, pattern).folders
  {
    ReferenceFoldersBelow(d, pattern);
    var below := Reference(d, pattern).folders;
    assert d !in below;
    assert d !in SequentialWalk(d, pattern).folders by {
      SequentialCensus(d, pattern);
      assert multiset(SequentialWalk(d, pattern).folders) == below;
    }
    assert d !in GetFilesDirsListParallel(d, pattern).folders by {
      ParallelCensus(d, pattern);
      assert multiset(GetFilesDirsListParallel(d, pattern).folders) == below;
    }
  }

  // ---------------------------------------------------------------------
  // The sequential walker's lists only grow
  // ---------------------------------------------------------------------

  /** Two calls on one object leave it holding the first walk's entries
      followed by the second's. */
  method CallingTwiceAppendsTwice(d: Dir, pattern: Pattern) returns (lists: Lists)
    ensures var w := SequentialWalk(d, pattern);
      && lists.files == w.files + w.files
      && lists.folders == w.folders + w.folders
      && lists.notAccessedFolders == w.notAccessedFolders + w.notAccessedFolders
  {
    var walker := new FullFilesDirsList();
    walker.GetFilesDirsList(d, pattern);
    walker.GetFilesDirsList(d, pattern);
    lists := walker.Value();
  }

  // ---------------------------------------------------------------------
  // Two small trees
  // ---------------------------------------------------------------------

  predicate IsTxt(f: File)
  {
    |f.name| >= 4 && f.name[|f.name| - 4..] == ".txt"
  }

  // `root/{a.txt, sub/{b.txt}}`
  const A := File("a.txt")
  const B := File("b.txt")
  const Sub := Dir("sub", [B], [], None)
  const Root := Dir("root", [A], [Sub], None)

  /** With `*.txt` the sequential walker finds `a.txt`, then `b.txt`, and
      adds only `sub` as a folder. */
  lemma NestedSequential()
    ensures SequentialWalk(Root, IsTxt) == Lists([A, B], [Sub], [])
  {
    assert Matched([A], IsTxt) == [A];
    assert Matched([B], IsTxt) == [B];
    assert SequentialWalk(Sub, IsTxt) == Lists([B], [], []);
    assert SequentialWalkEach([Sub], IsTxt) == Lists([], [Sub], []).Append(Lists([B], [], [])).Append(Empty);
  }

  /** The parallel walker finds the same files the other way round:
      `b.txt` from the child first, then the own `a.txt`. */
  lemma NestedParallel()
    ensures GetFilesDirsListParallel(Root, IsTxt) == Lists([B, A], [Sub], [])
  {
    assert Matched([A], IsTxt) == [A];
    assert Matched([B], IsTxt) == [B];
    assert GetFilesDirsListParallel(Sub, IsTxt) == Lists([B], [], []);
    assert RunAll([Sub], IsTxt) == [Lists([B], [], [])];
  }

  // `root/{denied/, open/{c.txt}}` where `denied` cannot be listed
  const C := File("c.txt")
  const Refused := AccessError("access denied")
  const Denied := Dir("denied", [File("d.txt")], [], Some(Refused))
  const Open := Dir("open", [C], [], None)
  const Parent := Dir("root", [], [Denied, Open], None)

  /** The failure is recorded, `denied` is still a folder (its parent listed
      it), and its sibling is walked as usual. */
  lemma DeniedSiblingSequential()
    ensures SequentialWalk(Parent, IsTxt) == Lists([C], [Denied, Open], [(Denied, Refused)])
  {
    assert Matched([C], IsTxt) == [C];
    assert Matched([], IsTxt) == [];
    assert SequentialWalk(Open, IsTxt) == Lists([C], [], []);
    assert [Denied, Open][1..] == [Open];
    assert SequentialWalkEach([Open], IsTxt) == Lists([], [Open], []).Append(Lists([C], [], [])).Append(Empty);
    assert SequentialWalkEach([Denied, Open], IsTxt)
        == Lists([], [Denied], []).Append(Lists([], [], [(Denied, Refused)])).Append(Lists([C], [Open], []));
  }

  /** The parallel walker reports the same lists for this tree. */
  lemma DeniedSiblingParallel()
    ensures GetFilesDirsListParallel(Parent, IsTxt) == Lists([C], [Denied, Open], [(Denied, Refused)])
  {
    assert Matched([C], IsTxt) == [C];
    assert Matched([], IsTxt) == [];
    assert GetFilesDirsListParallel(Open, IsTxt) == Lists([C], [], []);
    assert [Denied, Open][1..] == [Open];
    assert RunAll([Open], IsTxt) == [Lists([C], [], [])];
    assert GetFilesDirsListParallel(Denied, IsTxt) == Lists([], [], [(Denied, Refused)]);
    var results := RunAll([Denied, Open], IsTxt);
    assert results == [GetFilesDirsListParallel(Denied, IsTxt)] + RunAll([Open], IsTxt);
    assert results == [Lists([], [], [(Denied, Refused)]), Lists([C], [], [])];
    assert results[1..] == [Lists([C], [], [])];
    assert SelectMany(results[1..]) == Lists([C], [], []).Append(Empty);
  }
}
