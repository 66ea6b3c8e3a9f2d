/** `java.io.File` as the library uses it: the children of one directory, in
    the order `listFiles()` returns them, and the calls that delete, touch
    or create a child. */
module JavaIo {
  import opened Jvm

  /** One child of a directory: its name, whether it is a directory, its
      `lastModified()` time in milliseconds and, for a file, its bytes. */
  datatype FileEntry = FileEntry(name: string, isDirectory: bool, lastModified: int, content: seq<byte>)

  /** No two children of a directory share a name. */
  predicate DistinctNames(es: seq<FileEntry>) {
    forall i, j :: 0 <= i < j < |es| ==> es[i].name != es[j].name
  }

  /** `File(dir, name).exists()`. */
  predicate HasEntry(es: seq<FileEntry>, name: string) {
    exists i | 0 <= i < |es| :: es[i].name == name
  }

  /** The names of the children in a listing. */
  function NamesOf(es: seq<FileEntry>): (r: set<string>)
    ensures forall n :: n in r <==> exists j | 0 <= j < |es| :: es[j].name == n
  {
    if es == [] then {} else NamesOf(es[..|es| - 1]) + {es[|es| - 1].name}
  }

  /** The listing left once the children named in `gone` are deleted, in order. */
  function Without(es: seq<FileEntry>, gone: set<string>): (r: seq<FileEntry>)
    ensures |r| <= |es|
  {
    if es == [] then []
    else if es[0].name in gone then Without(es[1..], gone)
    else [es[0]] + Without(es[1..], gone)
  }

  /** Exactly the children whose names are not in `gone` are left. */
  lemma {:induction false} WithoutMembers(es: seq<FileEntry>, gone: set<string>)
    ensures forall e :: e in Without(es, gone) <==> e in es && e.name !in gone
  {
    if es != [] {
      WithoutMembers(es[1..], gone);
    }
  }

  /** Deleting children keeps the names of the others distinct. */
  lemma {:induction false} WithoutKeepsDistinct(es: seq<FileEntry>, gone: set<string>)
    requires DistinctNames(es)
    ensures DistinctNames(Without(es, gone))
  {
    if es != [] {
      WithoutKeepsDistinct(es[1..], gone);
      WithoutMembers(es[1..], gone);
      var rest := Without(es[1..], gone);
      assert forall e :: e in rest ==> e.name != es[0].name;
    }
  }

  /** The names of a listing's first i + 1 children. */
  lemma NamesOfExtend(es: seq<FileEntry>, i: nat)
    requires i < |es|
    ensures NamesOf(es[..i + 1]) == NamesOf(es[..i]) + {es[i].name}
  {
    assert es[..i + 1][..i] == es[..i];
  }

  /** Deleting in two steps is deleting once. */
  lemma {:induction false} WithoutTwice(es: seq<FileEntry>, a: set<string>, b: set<string>)
    ensures Without(Without(es, a), b) == Without(es, a + b)
  {
    if es != [] {
      WithoutTwice(es[1..], a, b);
    }
  }

  /** Two sets of names that agree on the children present delete the same children. */
  lemma {:induction false} WithoutSameOnNames(es: seq<FileEntry>, a: set<string>, b: set<string>)
    requires forall i :: 0 <= i < |es| ==> (es[i].name in a <==> es[i].name in b)
    ensures Without(es, a) == Without(es, b)
  {
    if es != [] {
      WithoutSameOnNames(es[1..], a, b);
    }
  }

  /** Deleting names that are not there changes nothing. */
  lemma {:induction false} WithoutAbsent(es: seq<FileEntry>, gone: set<string>)
    requires forall i :: 0 <= i < |es| ==> es[i].name !in gone
    ensures Without(es, gone) == es
  {
    if es != [] {
      WithoutAbsent(es[1..], gone);
    }
  }

  /** The listing after the child `name` has its modification time set to `time`. */
  function Touched(es: seq<FileEntry>, name: string, time: int): (r: seq<FileEntry>)
    ensures |r| == |es|
    ensures forall i :: 0 <= i < |es| ==>
              r[i] == if es[i].name == name then es[i].(lastModified := time) else es[i]
  {
    seq(|es|, i requires 0 <= i < |es| =>
      if es[i].name == name then es[i].(lastModified := time) else es[i])
  }

  /** The absolute path of the child `name` of the directory at `dirPath`. */
  function ChildPath(dirPath: string, name: string): string {
    dirPath + "/" + name
  }

  /** A directory on disk. */
  class Directory {
    /** The directory's absolute path. */
    const path: string
    /** Its children, in `listFiles()` order. */
    var entries: seq<FileEntry>

    ghost predicate Valid()
      reads this
    {
      DistinctNames(entries)
    }

    constructor (path: string, entries: seq<FileEntry>)
      requires DistinctNames(entries)
      ensures Valid() && this.path == path && this.entries == entries
    {
      this.path := path;
      this.entries := entries;
    }

    /** `File(this, name).delete()` or `deleteRecursively()`; nothing happens
        when there is no such child. */
    method Delete(name: string)
      requires Valid()
      modifies this
      ensures Valid()
      ensures entries == Without(old(entries), {name})
    {
      WithoutKeepsDistinct(entries, {name});
      entries := Without(entries, {name});
    }

    /** `File(this, name).setLastModified(time)`; nothing happens when there is
        no such child. */
    method SetLastModified(name: string, time: nat)
      requires Valid()
      modifies this
      ensures Valid()
      ensures entries == Touched(old(entries), name, time)
    {
      entries := Touched(entries, name, time);
      assert forall i :: 0 <= i < |entries| ==> entries[i].name == old(entries)[i].name;
    }

    /** A file that `renameTo` moves into this directory under `e.name`,
        replacing any child of that name. */
    method Store(e: FileEntry)
      requires Valid()
      modifies this
      ensures Valid()
      ensures entries == Without(old(entries), {e.name}) + [e]
    {
      WithoutKeepsDistinct(entries, {e.name});
      WithoutMembers(entries, {e.name});
      entries := Without(entries, {e.name}) + [e];
    }
  }
}
