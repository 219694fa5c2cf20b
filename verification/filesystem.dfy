/**
 * The part of the file system that the walkers see, as a finite tree of
 * values. A `Dir` stands for a `DirectoryInfo`, a `File` for a `FileInfo`.
 * A directory that cannot be listed carries the error that every listing of
 * it raises, so the file listing and the subdirectory listing of one
 * directory either both succeed or both fail.
 */
module FileSystem {

  datatype Option<T> = None | Some(value: T)

  /** A file as a listing reports it. */
  datatype File = File(name: string)

  /** The exception a failed listing raises. */
  datatype AccessError = AccessError(message: string)

  /** A directory: its own files, its subdirectories in listing order, and
      the error its listings raise when it cannot be accessed. */
  datatype Dir = Dir(name: string, files: seq<File>, subdirs: seq<Dir>, denied: Option<AccessError>)

  /** The outcome of one listing call: the entries, or the exception it threw. */
  datatype Listing<T> = Listed(entries: T) | Failed(error: AccessError)

  /** The search pattern, as the set of file names it accepts. Wildcard
      syntax is not modelled: any total predicate on files is a pattern. */
  type Pattern = File -> bool

  /** The files of `files` that `pattern` accepts, in their order. */
  function Matched(files: seq<File>, pattern: Pattern): (r: seq<File>)
    ensures |r| <= |files|
  {
    if files == [] then []
    else
      (if pattern(files[0]) then [files[0]] else []) + Matched(files[1..], pattern)
  }

  /** Every file the pattern accepts is kept as often as it occurs; no other file is. */
  lemma {:induction false} MatchedCounts(files: seq<File>, pattern: Pattern)
    ensures forall f :: multiset(Matched(files, pattern))[f] == if pattern(f) then multiset(files)[f] else 0
  {
    if files != [] {
      assert files == [files[0]] + files[1..];
      MatchedCounts(files[1..], pattern);
    }
  }

  /** `DirectoryInfo.GetFiles(searchPattern)`: the matching files of `d`, or
      the error when `d` cannot be listed. */
  function GetFiles(d: Dir, pattern: Pattern): (r: Listing<seq<File>>)
    ensures r.Failed? <==> d.denied.Some?
  {
    match d.denied
    case Some(e) => Failed(e)
    case None => Listed(Matched(d.files, pattern))
  }

  /** `DirectoryInfo.GetDirectories()`: the subdirectories of `d` in listing
      order, or the error when `d` cannot be listed. */
  function GetDirectories(d: Dir): (r: Listing<seq<Dir>>)
    ensures r.Failed? <==> d.denied.Some?
    ensures r.Listed? ==> r.entries == d.subdirs
  {
    match d.denied
    case Some(e) => Failed(e)
    case None => Listed(d.subdirs)
  }

  /** The number of directories in the tree rooted at `d`, `d` included. */
  function Size(d: Dir): nat
  {
    1 + SizeEach(d.subdirs)
  }

  function SizeEach(ds: seq<Dir>): nat
  {
    if ds == [] then 0 else Size(ds[0]) + SizeEach(ds[1..])
  }

  /** A subdirectory's tree is no larger than the trees of all its siblings together. */
  lemma {:induction false} SizeOfMember(ds: seq<Dir>, x: Dir)
    requires x in ds
    ensures Size(x) <= SizeEach(ds)
  {
    if x != ds[0] {
      SizeOfMember(ds[1..], x);
    }
  }
}
