/**
 * The three result lists of a directory walk and the two walkers that fill
 * them: the sequential one, which appends to an object's lists in place, and
 * the parallel one, which builds a fresh result per directory from its
 * children's results.
 */
module GetFilesList {
  import opened FileSystem

  /** The contents of the three lists: matched files, visited subdirectories,
      and directories whose listing failed, with the error. */
  datatype Lists = Lists(files: seq<File>, folders: seq<Dir>, notAccessedFolders: seq<(Dir, AccessError)>)
  {
    /** Each list of `this` followed by the same list of `other`. */
    function Append(other: Lists): Lists
    {
      Lists(files + other.files, folders + other.folders, notAccessedFolders + other.notAccessedFolders)
    }
  }

  const Empty := Lists([], [], [])

  lemma AppendEmpty(a: Lists)
    ensures Empty.Append(a) == a && a.Append(Empty) == a
  {
    assert [] + a.files == a.files && a.files + [] == a.files;
    assert [] + a.folders == a.folders && a.folders + [] == a.folders;
    assert [] + a.notAccessedFolders == a.notAccessedFolders && a.notAccessedFolders + [] == a.notAccessedFolders;
  }

  lemma AppendAssociative(a: Lists, b: Lists, c: Lists)
    ensures a.Append(b).Append(c) == a.Append(b.Append(c))
  {
    assert (a.files + b.files) + c.files == a.files + (b.files + c.files);
    assert (a.folders + b.folders) + c.folders == a.folders + (b.folders + c.folders);
    assert (a.notAccessedFolders + b.notAccessedFolders) + c.notAccessedFolders
        == a.notAccessedFolders + (b.notAccessedFolders + c.notAccessedFolders);
  }

  /** One failed directory and nothing else. */
  function Inaccessible(d: Dir, e: AccessError): Lists
  {
    Lists([], [], [(d, e)])
  }

  // ---------------------------------------------------------------------
  // Sequential walker: what one call appends, in pre-order.
  // ---------------------------------------------------------------------

  /** The entries `GetFilesDirsList(d, pattern)` appends: nothing but the
      failure when the file listing fails; otherwise the own matched files,
      then, per subdirectory in listing order, that subdirectory and what the
      recursive call on it appends. */
  function SequentialWalk(d: Dir, pattern: Pattern): Lists
    decreases d, 0
  {
    match GetFiles(d, pattern)
    case Failed(e) => Inaccessible(d, e)
    case Listed(found) => Lists(found, [], []).Append(SequentialWalkEach(d.subdirs, pattern))
  }

  /** What the loop over subdirectories `ds` appends. */
  function SequentialWalkEach(ds: seq<Dir>, pattern: Pattern): Lists
    decreases ds
  {
    if ds == [] then Empty
    else SequentialStep(ds[0], pattern).Append(SequentialWalkEach(ds[1..], pattern))
  }

  /** One iteration of that loop: the subdirectory, then its subtree. */
  function SequentialStep(sub: Dir, pattern: Pattern): Lists
    decreases sub, 1
  {
    Lists([], [sub], []).Append(SequentialWalk(sub, pattern))
  }

  /** The loop over a concatenation appends what the two halves append. */
  lemma {:induction false} SequentialWalkEachConcat(a: seq<Dir>, b: seq<Dir>, pattern: Pattern)
    ensures SequentialWalkEach(a + b, pattern)
         == SequentialWalkEach(a, pattern).Append(SequentialWalkEach(b, pattern))
  {
    if a == [] {
      assert a + b == b;
      AppendEmpty(SequentialWalkEach(b, pattern));
    } else {
      assert (a + b)[0] == a[0];
      assert (a + b)[1..] == a[1..] + b;
      SequentialWalkEachConcat(a[1..], b, pattern);
      AppendAssociative(SequentialStep(a[0], pattern), SequentialWalkEach(a[1..], pattern), SequentialWalkEach(b, pattern));
    }
  }

  /** The loop's progress: running one more iteration appends one more step. */
  lemma SequentialWalkEachSnoc(ds: seq<Dir>, i: nat, pattern: Pattern)
    requires i < |ds|
    ensures SequentialWalkEach(ds[..i + 1], pattern)
         == SequentialWalkEach(ds[..i], pattern).Append(SequentialStep(ds[i], pattern))
  {
    assert ds[..i + 1] == ds[..i] + [ds[i]];
    SequentialWalkEachConcat(ds[..i], [ds[i]], pattern);
    assert [ds[i]][1..] == [];
    assert SequentialWalkEach([ds[i]], pattern) == SequentialStep(ds[i], pattern).Append(Empty);
    AppendEmpty(SequentialStep(ds[i], pattern));
  }

  /** One more iteration of the subdirectory loop, after `before`. */
  lemma SequentialLoopStep(before: Lists, ds: seq<Dir>, i: nat, pattern: Pattern)
    requires i < |ds|
    ensures before.Append(SequentialWalkEach(ds[..i], pattern)).Append(Lists([], [ds[i]], [])).Append(SequentialWalk(ds[i], pattern))
         == before.Append(SequentialWalkEach(ds[..i + 1], pattern))
  {
    var prefix := SequentialWalkEach(ds[..i], pattern);
    SequentialWalkEachSnoc(ds, i, pattern);
    AppendAssociative(before.Append(prefix), Lists([], [ds[i]], []), SequentialWalk(ds[i], pattern));
    AppendAssociative(before, prefix, SequentialStep(ds[i], pattern));
  }

  /** The object the sequential walker fills. Its lists only ever grow. */
  class FullFilesDirsList {
    var files: seq<File>
    var folders: seq<Dir>
    var notAccessedFolders: seq<(Dir, AccessError)>

    /** The three lists as one value. */
    function Value(): Lists
      reads this
    {
      Lists(files, folders, notAccessedFolders)
    }

    constructor ()
      ensures Value() == Empty
    {
      files, folders, notAccessedFolders := [], [], [];
    }

    /** A new object with three empty lists. */
    static method Clone() returns (r: FullFilesDirsList)
      ensures fresh(r) && r.Value() == Empty
    {
      r := new FullFilesDirsList();
    }

    /** The overload taking a path: the path is resolved by `resolve` (the
        `DirectoryInfo` constructor), then the directory is walked. */
    method GetFilesDirsListByPath(dirPath: string, resolve: string -> Dir, pattern: Pattern)
      modifies this
      ensures Value() == old(Value()).Append(SequentialWalk(resolve(dirPath), pattern))
    {
      var dirInfo := resolve(dirPath);
      GetFilesDirsList(dirInfo, pattern);
    }

    /** Walks `dirInfo` depth first, appending to the three lists. */
    method GetFilesDirsList(dirInfo: Dir, pattern: Pattern)
      modifies this
      decreases dirInfo
      ensures Value() == old(Value()).Append(SequentialWalk(dirInfo, pattern))
    {
      var listing := GetFiles(dirInfo, pattern);
      if listing.Failed? {
        notAccessedFolders := notAccessedFolders + [(dirInfo, listing.error)];
        return;
      }
      var found := listing.entries;
      for i := 0 to |found|
        invariant files == old(files) + found[..i]
        invariant folders == old(folders) && notAccessedFolders == old(notAccessedFolders)
      {
        files := files + [found[i]];
      }
      assert found[..|found|] == found;

      // Outside the try: it cannot fail once the file listing succeeded.
      var dirs := GetDirectories(dirInfo);
      assert dirs.Listed?;
      var subDirs := dirs.entries;
      ghost var before := old(Value()).Append(Lists(found, [], []));
      for i := 0 to |subDirs|
        invariant Value() == before.Append(SequentialWalkEach(subDirs[..i], pattern))
      {
        // The ghost states v0 and v1 name the lists before and after each
        // update, so the solver relates them by `Append` and not field by field.
        ghost var v0 := Value();
        folders := folders + [subDirs[i]];
        assert files == v0.files + [] && notAccessedFolders == v0.notAccessedFolders + [];
        ghost var v1 := Value();
        assert v1 == v0.Append(Lists([], [subDirs[i]], []));
        GetFilesDirsList(subDirs[i], pattern);
        assert Value() == v1.Append(SequentialWalk(subDirs[i], pattern));
        SequentialLoopStep(before, subDirs, i, pattern);
      }
      assert subDirs[..|subDirs|] == subDirs;
      AppendAssociative(old(Value()), Lists(found, [], []), SequentialWalkEach(subDirs, pattern));
    }
  }

  // ---------------------------------------------------------------------
  // Parallel walker: a fresh result per directory, children merged first.
  // ---------------------------------------------------------------------

  /** `GetFilesDirsListParallel(dirInfo, searchPattern)`: when the
      subdirectory listing fails, only the failure; otherwise the children's
      results merged in scheduling order, then the subdirectories, then the
      own matched files. */
  function GetFilesDirsListParallel(dirInfo: Dir, pattern: Pattern): Lists
    decreases dirInfo
  {
    match GetDirectories(dirInfo)
    case Failed(e) => Inaccessible(dirInfo, e)
    case Listed(subDirs) =>
      // The file listing is outside the try; it cannot fail here.
      SelectMany(RunAll(subDirs, pattern)).Append(Lists(Matched(dirInfo.files, pattern), subDirs, []))
  }

  /** The fan-out and join: one task per subdirectory, their results in the
      order the tasks were scheduled. */
  function RunAll(subDirs: seq<Dir>, pattern: Pattern): (results: seq<Lists>)
    decreases subDirs
    ensures |results| == |subDirs|
  {
    if subDirs == [] then []
    else [GetFilesDirsListParallel(subDirs[0], pattern)] + RunAll(subDirs[1..], pattern)
  }

  /** Task `i` is the walk of the `i`-th subdirectory: results are kept in
      scheduling order. */
  lemma {:induction false} RunAllAt(subDirs: seq<Dir>, pattern: Pattern, i: nat)
    requires i < |subDirs|
    ensures RunAll(subDirs, pattern)[i] == GetFilesDirsListParallel(subDirs[i], pattern)
  {
    if i > 0 {
      RunAllAt(subDirs[1..], pattern, i - 1);
    }
  }

  /** The local `SelectMany`: each list is the concatenation of the
      corresponding lists of `results`, in order. */
  function SelectMany(results: seq<Lists>): Lists
  {
    if results == [] then Empty
    else results[0].Append(SelectMany(results[1..]))
  }

  /** Merging a concatenation merges the two halves and joins them. */
  lemma {:induction false} SelectManyConcat(a: seq<Lists>, b: seq<Lists>)
    ensures SelectMany(a + b) == SelectMany(a).Append(SelectMany(b))
  {
    if a == [] {
      assert a + b == b;
      AppendEmpty(SelectMany(b));
    } else {
      assert (a + b)[0] == a[0];
      assert (a + b)[1..] == a[1..] + b;
      SelectManyConcat(a[1..], b);
      AppendAssociative(a[0], SelectMany(a[1..]), SelectMany(b));
    }
  }

  /** `Task.WaitAll` followed by reading `t.Result` in `allTasks` order. Task
      `t` finishes with `outcomes[t]`; `completion` lists the tasks in the
      order they finish, each writing its own slot. Whatever that order, the
      results read back are the outcomes in scheduling order. */
  method JoinAll(outcomes: seq<Lists>, completion: seq<nat>) returns (results: seq<Lists>)
    requires forall k :: 0 <= k < |completion| ==> completion[k] < |outcomes|
    requires forall t :: 0 <= t < |outcomes| ==> t in completion
    ensures results == outcomes
  {
    var slots := new Lists[|outcomes|](_ => Empty);
    for k := 0 to |completion|
      invariant forall m :: 0 <= m < k ==> slots[completion[m]] == outcomes[completion[m]]
    {
      var t := completion[k];
      slots[t] := outcomes[t];
    }
    forall t | 0 <= t < |outcomes|
      ensures slots[t] == outcomes[t]
    {
      assert t in completion;
      var m :| 0 <= m < |completion| && completion[m] == t;
    }
    results := slots[..];
  }

  /** The join applied to the walker's own fan-out: however the tasks of
      the subdirectories finish, the results read back are those `RunAll`
      lists, the children's walks in scheduling order. */
  method JoinSubdirectoryTasks(subDirs: seq<Dir>, pattern: Pattern, completion: seq<nat>) returns (results: seq<Lists>)
    requires forall k :: 0 <= k < |completion| ==> completion[k] < |subDirs|
    requires forall t :: 0 <= t < |subDirs| ==> t in completion
    ensures |results| == |subDirs|
    ensures forall i :: 0 <= i < |subDirs| ==> results[i] == GetFilesDirsListParallel(subDirs[i], pattern)
  {
    results := JoinAll(RunAll(subDirs, pattern), completion);
    forall i | 0 <= i < |subDirs|
      ensures results[i] == GetFilesDirsListParallel(subDirs[i], pattern)
    {
      RunAllAt(subDirs, pattern, i);
    }
  }
}
