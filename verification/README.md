# GetFilesDirsLists in Dafny

A model of the directory walker in `GetFilesList/FullFilesDirsList.cs`. The
walker enumerates a directory tree. It collects three lists:

- the files matching a search pattern (`Files`);
- the subdirectories it visited (`Folders`);
- the directories whose listing failed, each paired with the exception
  (`NotAccessedFolders`).

A directory that cannot be listed is recorded and its subtree is skipped.
The walk itself goes on.

The walker comes in two versions:

- **Sequential** (`GetFilesDirsList`). It walks depth first and appends to
  the three lists of one `FullFilesDirsList` object in place.
- **Parallel** (`GetFilesDirsListParallel`). It starts one task per
  subdirectory and waits for all of them. It then builds a fresh result:
  the children's results, merged in the order the tasks were scheduled,
  followed by the directory's own subdirectories and own matched files.

## Layout

- `filesystem.dfy`, module `FileSystem`. This replaces `DirectoryInfo` and
  `FileInfo`. A `Dir` is a finite tree value: the directory's files, its
  subdirectories in listing order, and, when it cannot be accessed, the
  error that every listing of it raises. So `GetFiles` and `GetDirectories`
  on one directory either both succeed or both fail. The search pattern is a
  total predicate on files (`Pattern`).
- `get_files_list.dfy`, module `GetFilesList`.
  - `Lists` holds the three lists as a value.
  - The class `FullFilesDirsList` has the three lists as `seq` fields. Its
    method `GetFilesDirsList` is the sequential walker, with its two loops
    and its recursive call on the same object. It is proved against the
    specification function `SequentialWalk`, which gives the pre-order
    entries one call appends.
  - The parallel walker is the recursive function
    `GetFilesDirsListParallel`. `RunAll` models the fan-out and join as a
    map over the subdirectories in scheduling order. `SelectMany` is the
    local merge.
  - `JoinAll` models `Task.WaitAll` followed by reading `t.Result` in
    `allTasks` order. The tasks may finish in any order, and the results
    still come back in scheduling order. `JoinSubdirectoryTasks` applies it
    to the fan-out `RunAll` of a directory's own subdirectories.
- `walk_properties.dfy`, module `WalkProperties`.
  - `Reference` describes, with the order forgotten, what a walk must
    report.
  - Lemmas show that each walker reports exactly that, so the two walkers
    agree up to order.
  - Further lemmas describe the shape of each walker's lists and work out
    two small trees.

Three points of the code's policy are easy to miss:

- Neither walker ever adds the directory it starts from to `Folders`.
  This holds even when that directory cannot be listed (see
  `RootNeverInFolders`).
- The two walkers do not produce the same order. The sequential walker is
  pre-order: own files first, then each subdirectory followed by its
  subtree. The parallel walker is post-order: the children's entries
  first, then the own subdirectories and own files. `NestedSequential` and
  `NestedParallel` show `[a.txt, b.txt]` against `[b.txt, a.txt]` for the
  same tree.
- A subdirectory that cannot be listed appears in `Folders`, because its
  parent added it. It also appears in `NotAccessedFolders`.

## Model

| member | source | states |
|---|---|---|
| `FileSystem.Matched` | GetFilesList/FullFilesDirsList.cs:26 | a pattern-filtered listing is never longer than the directory's file list |
| `FileSystem.MatchedCounts` | GetFilesList/FullFilesDirsList.cs:26 | filtering by the search pattern keeps every accepted file exactly as often as it occurs and drops every other file |
| `FileSystem.GetFiles` | GetFilesList/FullFilesDirsList.cs:26 | the file listing fails exactly when the directory cannot be accessed |
| `FileSystem.GetDirectories` | GetFilesList/FullFilesDirsList.cs:52 | the subdirectory listing fails exactly when the directory cannot be accessed; otherwise it returns the subdirectories in listing order |
| `GetFilesList.SequentialWalkEachConcat` | GetFilesList/FullFilesDirsList.cs:38-42 | looping over two runs of subdirectories one after the other appends the first run's entries, then the second's |
| `GetFilesList.SequentialWalkEachSnoc` | GetFilesList/FullFilesDirsList.cs:38-42 | each iteration of the subdirectory loop appends exactly one subdirectory followed by its subtree's entries |
| `GetFilesList.FullFilesDirsList.constructor` | GetFilesList/FullFilesDirsList.cs:7-9 | a new object starts with three empty lists |
| `GetFilesList.FullFilesDirsList.Clone` | GetFilesList/FullFilesDirsList.cs:11-14 | returns a new object with three empty lists |
| `GetFilesList.FullFilesDirsList.GetFilesDirsListByPath` | GetFilesList/FullFilesDirsList.cs:16-20 | the path overload appends what walking the resolved directory appends |
| `GetFilesList.FullFilesDirsList.GetFilesDirsList` | GetFilesList/FullFilesDirsList.cs:22-43 | the three lists become their old contents followed by the pre-order walk's entries. The lists only grow, and the old contents remain a prefix |
| `GetFilesList.GetFilesDirsListParallel` | GetFilesList/FullFilesDirsList.cs:45-89 | when the subdirectory listing fails, only the directory's failure; otherwise the children's results merged in scheduling order, then the subdirectories appended to the folders and the own matched files appended to the files |
| `GetFilesList.SelectMany` | GetFilesList/FullFilesDirsList.cs:72-81 | each list is the concatenation of the same list of every result, in order |
| `GetFilesList.RunAll` | GetFilesList/FullFilesDirsList.cs:61-70 | the fan-out yields exactly one result per subdirectory |
| `GetFilesList.RunAllAt` | GetFilesList/FullFilesDirsList.cs:62-68 | result `i` is the parallel walk of subdirectory `i`, so results are kept in scheduling order |
| `GetFilesList.SelectManyConcat` | GetFilesList/FullFilesDirsList.cs:72-81 | merging two runs of results concatenates the first run's merged lists with the second's, list by list |
| `GetFilesList.JoinAll` | GetFilesList/FullFilesDirsList.cs:61-83 | whatever order the tasks finish in, reading the results by task index gives them in scheduling order |
| `GetFilesList.JoinSubdirectoryTasks` | GetFilesList/FullFilesDirsList.cs:61-83 | joining the subdirectories' own tasks, in any completion order, gives one result per subdirectory, and result `i` is the parallel walk of subdirectory `i` |
| `WalkProperties.SequentialDenied` | GetFilesList/FullFilesDirsList.cs:24-36 | when the file listing fails, one call appends exactly the pair of the directory and its error. It adds no file and no folder of that directory or its subtree |
| `WalkProperties.ParallelDenied` | GetFilesList/FullFilesDirsList.cs:50-59 | when the subdirectory listing fails, the result is empty except for the one pair of the directory and its error, and no child is walked |
| `WalkProperties.SequentialChunk` | GetFilesList/FullFilesDirsList.cs:26-42 | for a listed directory: its own matched files come first. Each subdirectory comes in listing order, immediately before its own subtree's folders. Every sibling contributes its own walk whole |
| `WalkProperties.ParallelListed` | GetFilesList/FullFilesDirsList.cs:83-86 | for a listed directory: files are the children's files then the own matched files; folders are the children's folders then the subdirectories; failures are the children's only |
| `WalkProperties.RunAllConcat` | GetFilesList/FullFilesDirsList.cs:61-70 | fanning out over two runs of subdirectories schedules the first run's tasks before the second's |
| `WalkProperties.ParallelChunk` | GetFilesList/FullFilesDirsList.cs:61-83 | each child's result sits whole in its scheduling position of the merge, between the earlier and the later children's results |
| `WalkProperties.SequentialCensus` | GetFilesList/FullFilesDirsList.cs:22-43 | the sequential walk reports exactly the reference's files, folders and failures, each as often as the reference does |
| `WalkProperties.SequentialEachCensus` | GetFilesList/FullFilesDirsList.cs:38-42 | the subdirectory loop reports each subdirectory once as a folder, plus what each subdirectory's walk reports |
| `WalkProperties.ParallelCensus` | GetFilesList/FullFilesDirsList.cs:45-89 | the parallel walk reports exactly the reference's files, folders and failures, each as often as the reference does |
| `WalkProperties.RunAllCensus` | GetFilesList/FullFilesDirsList.cs:61-83 | the merged children's results report what the children's walks report |
| `WalkProperties.WalkersAgree` | GetFilesList/FullFilesDirsList.cs:22-89 | on the same tree both walkers report the same files, folders and failures as multisets; only the order differs |
| `WalkProperties.ReferenceFoldersBelow` | GetFilesList/FullFilesDirsList.cs:38-42 | every folder a walk of a directory reports is a strictly smaller tree than that directory, so the directory itself is never one of them |
| `WalkProperties.ReferenceEachFoldersBelow` | GetFilesList/FullFilesDirsList.cs:38-42 | every folder reported for a run of subdirectories is a smaller tree than those subdirectories' trees together |
| `WalkProperties.ReferenceFoldersInside` | GetFilesList/FullFilesDirsList.cs:38-42 | every folder a walk of a directory reports is a descendant of that directory (`Below`) |
| `WalkProperties.ReferenceEachFoldersInside` | GetFilesList/FullFilesDirsList.cs:38-42 | every folder reported for a run of subdirectories is one of them or a descendant of one of them |
| `WalkProperties.FoldersInside` | GetFilesList/FullFilesDirsList.cs:22-89 | every folder either walker reports for a directory is a descendant of it; nothing outside the starting tree is added |
| `WalkProperties.RootNeverInFolders` | GetFilesList/FullFilesDirsList.cs:22-89 | neither walker adds the directory it starts from to the folders |
| `WalkProperties.CallingTwiceAppendsTwice` | GetFilesList/FullFilesDirsList.cs:7-43 | two calls on one object leave each list holding the walk's entries twice over |
| `WalkProperties.NestedSequential` | GetFilesList/FullFilesDirsList.cs:22-43 | for `root/{a.txt, sub/{b.txt}}` with `*.txt`, the sequential walker gives files `[a.txt, b.txt]`, folders `[sub]` and no failures |
| `WalkProperties.NestedParallel` | GetFilesList/FullFilesDirsList.cs:45-89 | on the same tree the parallel walker gives files `[b.txt, a.txt]`, folders `[sub]` and no failures |
| `WalkProperties.DeniedSiblingSequential` | GetFilesList/FullFilesDirsList.cs:22-43 | for `root/{denied/, open/{c.txt}}` with `denied` inaccessible, the sequential walker records `(denied, error)`. It keeps `denied` and `open` as folders and still finds `c.txt` |
| `WalkProperties.DeniedSiblingParallel` | GetFilesList/FullFilesDirsList.cs:45-89 | on the same tree the parallel walker reports the same three lists |

## Left out

- The console messages printed when a directory cannot be accessed
  (lines 33 and 56). They are output only and do not affect the lists.
- Threads and tasks. `Task.Factory.StartNew` and `Task.WaitAll` become the
  ordered map `RunAll`. `JoinAll` models the effect of completion order on
  the result slots. Scheduling, `AggregateException` and resource use are
  not modelled.
- The real file system and the wildcard syntax of `searchPattern`. Listing
  is the abstract `Dir` tree, and a pattern is any predicate on files.
- Path resolution in the string overload. It is the `DirectoryInfo`
  constructor, a library call, and is the `resolve` parameter of
  `GetFilesDirsListByPath`.
- Exceptions escaping from `GetDirectories` (line 38) and `GetFiles`
  (line 86), which are outside any `try`. A directory's listings all
  succeed or all fail, so these calls cannot fail once the guarded call on
  the same directory succeeded.
- Directory identity. A `Dir` is a value that holds its subtree, so two
  identical subtrees at different places are indistinguishable. "Descendant"
  (`Below`) means equal to a directory value somewhere in the tree, not a
  path. Statements about "no descendant of an inaccessible directory" are
  made through `Reference` and the per-directory lemmas.
- Symbolic-link and junction cycles. The tree is finite and acyclic.
- `FileSystem.GetFiles`: its contract states only when it fails. What it
  returns on success is `Matched` of the directory's files, which
  `MatchedCounts` describes.
