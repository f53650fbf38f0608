/** Which files the listing shows, and under which names and paths. */
module ListingPaths {
  import opened Text
  import opened FileTree

  /** The name an entry is listed by, if it has one that can stand in a path. */
  ghost predicate Called(e: Entry, name: string) {
    name == Trim(e.name) && name != "" && name != "." && name != ".."
  }

  /** Going down by these names from these entries one comes to a file with readable metadata. */
  ghost predicate Leads(entries: seq<Entry>, names: seq<string>, meta: Meta)
    decreases |names|
  {
    names != [] && exists e :: e in entries && StepsInto(e, names, meta)
  }

  ghost predicate StepsInto(e: Entry, names: seq<string>, meta: Meta)
    requires names != []
    decreases |names|, 0
  {
    && Called(e, names[0])
    && if |names| == 1 then e.File? && e.meta == Some(meta) else e.Dir? && Leads(e.entries, names[1..], meta)
  }

  /** Names with slashes between them. */
  function Path(names: seq<string>): string
    requires names != []
  {
    if |names| == 1 then names[0] else names[0] + "/" + Path(names[1..])
  }

  function Under(prefix: string, path: string): string {
    if prefix == "" then path else prefix + "/" + path
  }

  /** What the listing must say of the file at these names. */
  ghost predicate Describes(f: FileEntry, prefix: string, names: seq<string>) {
    names != [] && f.name == names[|names| - 1] && f.path == Under(prefix, Path(names))
  }

  lemma Regroup<T>(a: seq<T>, s: seq<T>, b: seq<T>, c: seq<T>)
    ensures (a + s + b) + s + c == a + s + (b + s + c)
  {
  }

  lemma PathOf(name: string, names: seq<string>)
    requires names != []
    ensures Path([name] + names) == name + "/" + Path(names) && ([name] + names)[|names|] == names[|names| - 1]
  {
    assert ([name] + names)[1..] == names;
  }

  lemma PathDown(prefix: string, name: string, names: seq<string>)
    requires names != [] && name != ""
    ensures Under(Under(prefix, name), Path(names)) == Under(prefix, Path([name] + names))
    ensures ([name] + names)[1..] == names && ([name] + names)[|names|] == names[|names| - 1]
  {
    PathOf(name, names);
    Regroup(prefix, "/", name, Path(names));
  }

  lemma JoinIsUnder(prefix: string, name: string)
    ensures Join(prefix, name) == Under(prefix, name)
  {
  }

  // ------------------------------------------------------------ what is listed has a path

  lemma {:induction false} ListedHasPath(entries: seq<Entry>, prefix: string, depth: nat, f: FileEntry)
    returns (names: seq<string>)
    requires f in Files(entries, prefix, depth)
    ensures Describes(f, prefix, names) && |names| + depth <= 9 && Leads(entries, names, Meta(f.size, f.mtime))
    decreases entries, 0
  {
    var e := entries[0];
    if f in FilesOf(e, prefix, depth) {
      names := EntryHasPath(e, prefix, depth, f);
      assert e in entries;
    } else {
      names := ListedHasPath(entries[1..], prefix, depth, f);
      var d :| d in entries[1..] && StepsInto(d, names, Meta(f.size, f.mtime));
      assert d in entries;
    }
  }

  lemma {:induction false} EntryHasPath(e: Entry, prefix: string, depth: nat, f: FileEntry) returns (names: seq<string>)
    requires f in FilesOf(e, prefix, depth) && depth <= 8
    ensures Describes(f, prefix, names) && |names| + depth <= 9 && StepsInto(e, names, Meta(f.size, f.mtime))
    decreases e, 1
  {
    var name := Trim(e.name);
    JoinIsUnder(prefix, name);
    if e.Dir? {
      var below := ListedHasPath(e.entries, Join(prefix, name), depth + 1, f);
      names := [name] + below;
      PathDown(prefix, name, below);
    } else {
      names := [name];
    }
  }

  // ------------------------------------------------------------ what has a path is listed

  lemma {:induction false} PathIsListed(entries: seq<Entry>, prefix: string, depth: nat, f: FileEntry,
                                        names: seq<string>)
    requires Describes(f, prefix, names) && |names| + depth <= 9 && Leads(entries, names, Meta(f.size, f.mtime))
    ensures f in Files(entries, prefix, depth)
    decreases entries, 0
  {
    var e :| e in entries && StepsInto(e, names, Meta(f.size, f.mtime));
    if e == entries[0] {
      StepIsListed(e, prefix, depth, f, names);
    } else {
      assert e in entries[1..];
      PathIsListed(entries[1..], prefix, depth, f, names);
    }
  }

  lemma {:induction false} StepIsListed(e: Entry, prefix: string, depth: nat, f: FileEntry, names: seq<string>)
    requires Describes(f, prefix, names) && |names| + depth <= 9 && StepsInto(e, names, Meta(f.size, f.mtime))
    ensures f in FilesOf(e, prefix, depth)
    decreases e, 1
  {
    var name := names[0];
    JoinIsUnder(prefix, name);
    if |names| > 1 {
      assert names == [name] + names[1..];
      PathDown(prefix, name, names[1..]);
      PathIsListed(e.entries, Join(prefix, name), depth + 1, f, names[1..]);
    }
  }

  /**
    The whole traversal holds a file entry if and only if its path, taken apart at the slashes, leads down at most eight
    directories to a file with that size and time; each name on the way is trimmed, and none is empty or made of dots
    that mean a directory.
    */
  lemma ListedIff(root: seq<Entry>, f: FileEntry)
    ensures f in Files(root, "", 0) <==>
            exists names :: Describes(f, "", names) && |names| <= 9 && Leads(root, names, Meta(f.size, f.mtime))
  {
    if f in Files(root, "", 0) {
      var names := ListedHasPath(root, "", 0, f);
    }
    if names :| Describes(f, "", names) && |names| <= 9 && Leads(root, names, Meta(f.size, f.mtime)) {
      PathIsListed(root, "", 0, f, names);
    }
  }

  /** Below the cap the listing is that traversal, and beyond it the first 2000 of it. */
  lemma CapIs2000(root: seq<Entry>)
    ensures var all := Files(root, "", 0); Take(all, MAX_ENTRIES) == if |all| <= 2000 then all else all[..2000]
  {
  }
}
