/** The inbox/outbox listing and its badge counter: one capped, depth-bounded walk written twice. */
module FileTree {
  import opened Text

  const MAX_DEPTH: nat := 8
  const MAX_ENTRIES: nat := 2000

  /** What `read_dir` yields: a file with its metadata (if readable), a directory (if readable), or anything else. */
  datatype Entry =
    | File(name: string, meta: Option<Meta>)
    | Dir(name: string, entries: seq<Entry>)
    | Other(name: string)

  datatype Meta = Meta(size: nat, mtime: nat)

  datatype FileEntry = FileEntry(name: string, path: string, size: nat, mtime: nat)

  /** A name that is usable as a listing component; directory entries never contain a slash. */
  function SanitizeBasename(raw: string): Option<string> {
    var t := Trim(raw);
    if t == "" || t == "." || t == ".." then None else Some(t)
  }

  function Join(prefix: string, name: string): string {
    if prefix == "" then name else prefix + "/" + name
  }

  // ------------------------------------------------------------ the two walks

  /** The listing's accumulator. */
  class Listing {
    var out: seq<FileEntry>

    constructor ()
      ensures out == []
    {
      out := [];
    }

    method CollectFilesTree(entries: seq<Entry>, prefix: string, depth: nat)
      modifies this
      ensures out == old(out) + Take(Files(entries, prefix, depth), Room(|old(out)|))
      decreases entries, 1
    {
      if depth > MAX_DEPTH || |out| >= MAX_ENTRIES {
        assert out + [] == out;
        return;
      }
      CollectEntries(entries, prefix, depth);
    }

    /** The loop over one directory, from some entry on. */
    method CollectEntries(entries: seq<Entry>, prefix: string, depth: nat)
      requires depth <= MAX_DEPTH
      modifies this
      ensures out == old(out) + Take(Files(entries, prefix, depth), Room(|old(out)|))
      decreases entries, 0
    {
      var i := 0;
      while i < |entries|
        invariant i <= |entries|
        invariant out == old(out) + Take(Files(entries[..i], prefix, depth), Room(|old(out)|))
      {
        ghost var all := Files(entries, prefix, depth);
        FilesSplit(entries, i, prefix, depth);
        if |out| >= MAX_ENTRIES {
          TakeFull(Files(entries[..i], prefix, depth), Files(entries[i..], prefix, depth), Room(|old(out)|));
          return;
        }
        FilesNext(entries, i, prefix, depth);
        ghost var room := Room(|old(out)|);
        ghost var done := Files(entries[..i], prefix, depth);
        TakeGrows(old(out), done, FilesOf(entries[i], prefix, depth), room, out);
        var e := entries[i];
        var name := SanitizeBasename(e.name);
        i := i + 1;
        if name.None? {
          continue;
        }
        var rel := Join(prefix, name.value);
        match e
        case Dir(_, children) => CollectFilesTree(children, rel, depth + 1);
        case File(_, meta) =>
          if meta.Some? {
            out := out + [FileEntry(name.value, rel, meta.value.size, meta.value.mtime)];
          }
        case Other(_) =>
      }
      assert entries[..|entries|] == entries;
    }
  }

  /** The badge's counter. */
  class Counter {
    var n: nat

    constructor ()
      ensures n == 0
    {
      n := 0;
    }

    method Walk(entries: seq<Entry>, depth: nat)
      modifies this
      ensures n == old(n) + Least(Countable(entries, depth), Room(old(n)))
      decreases entries, 1
    {
      if depth > MAX_DEPTH || n >= MAX_ENTRIES {
        return;
      }
      WalkEntries(entries, depth);
    }

    method WalkEntries(entries: seq<Entry>, depth: nat)
      requires depth <= MAX_DEPTH
      modifies this
      ensures n == old(n) + Least(Countable(entries, depth), Room(old(n)))
      decreases entries, 0
    {
      var i := 0;
      while i < |entries|
        invariant i <= |entries|
        invariant n == old(n) + Least(Countable(entries[..i], depth), Room(old(n)))
      {
        CountableSplit(entries, i, depth);
        if n >= MAX_ENTRIES { return; }
        CountableNext(entries, i, depth);
        var e := entries[i];
        i := i + 1;
        if SanitizeBasename(e.name).None? {
          continue;
        }
        match e
        case Dir(_, children) => Walk(children, depth + 1);
        case File(_, _) => n := n + 1;
        case Other(_) =>
      }
      assert entries[..|entries|] == entries;
    }
  }

  // ------------------------------------------------------------ the uncapped traversal

  /** Every listable file of the entries within the depth bound, in traversal order. */
  function Files(entries: seq<Entry>, prefix: string, depth: nat): seq<FileEntry>
    decreases entries, 0
  {
    if depth > MAX_DEPTH || entries == [] then []
    else FilesOf(entries[0], prefix, depth) + Files(entries[1..], prefix, depth)
  }

  function FilesOf(e: Entry, prefix: string, depth: nat): seq<FileEntry>
    decreases e, 1
  {
    match SanitizeBasename(e.name)
    case None => []
    case Some(name) =>
      match e
      case Dir(_, children) => Files(children, Join(prefix, name), depth + 1)
      case File(_, meta) =>
        if meta.Some? then [FileEntry(name, Join(prefix, name), meta.value.size, meta.value.mtime)] else []
      case Other(_) => []
  }

  /** How many files the badge may count: metadata is not asked for. */
  function Countable(entries: seq<Entry>, depth: nat): nat
    decreases entries, 0
  {
    if depth > MAX_DEPTH || entries == [] then 0
    else CountableOf(entries[0], depth) + Countable(entries[1..], depth)
  }

  function CountableOf(e: Entry, depth: nat): nat
    decreases e, 1
  {
    if SanitizeBasename(e.name).None? then 0
    else match e
      case Dir(_, children) => Countable(children, depth + 1)
      case File(_, _) => 1
      case Other(_) => 0
  }

  /** How many more entries fit under the cap. */
  function Room(n: nat): nat {
    if n >= MAX_ENTRIES then 0 else MAX_ENTRIES - n
  }

  function Least(a: nat, b: nat): nat {
    if a < b then a else b
  }

  function Take<T>(s: seq<T>, n: nat): seq<T> {
    if |s| <= n then s else s[..n]
  }

  lemma {:induction false} FilesSplit(entries: seq<Entry>, i: nat, prefix: string, depth: nat)
    requires i <= |entries|
    ensures Files(entries, prefix, depth) == Files(entries[..i], prefix, depth) + Files(entries[i..], prefix, depth)
    decreases i
  {
    if i == 0 {
      assert entries[..0] == [] && entries[0..] == entries;
    } else if depth <= MAX_DEPTH {
      FilesSplit(entries[1..], i - 1, prefix, depth);
      assert entries[..i][1..] == entries[1..][..i - 1] && entries[1..][i - 1..] == entries[i..];
    }
  }

  lemma FilesNext(entries: seq<Entry>, i: nat, prefix: string, depth: nat)
    requires i < |entries| && depth <= MAX_DEPTH
    ensures Files(entries[..i + 1], prefix, depth)
         == Files(entries[..i], prefix, depth) + FilesOf(entries[i], prefix, depth)
  {
    var s := entries[..i + 1];
    FilesSplit(s, i, prefix, depth);
    assert s[..i] == entries[..i] && s[i..] == [entries[i]];
    assert [entries[i]][1..] == [];
    assert Files([], prefix, depth) == [];
    assert Files([entries[i]], prefix, depth) == FilesOf(entries[i], prefix, depth);
  }

  lemma TakeFull<T>(done: seq<T>, more: seq<T>, room: nat)
    requires |Take(done, room)| >= room
    ensures Take(done + more, room) == Take(done, room)
  {
  }

  lemma TakeGrows<T>(was: seq<T>, done: seq<T>, next: seq<T>, room: nat, now: seq<T>)
    requires now == was + Take(done, room) && |now| < MAX_ENTRIES && room == Room(|was|)
    ensures now + Take(next, Room(|now|)) == was + Take(done + next, room)
  {
  }

  lemma {:induction false} CountableSplit(entries: seq<Entry>, i: nat, depth: nat)
    requires i <= |entries|
    ensures Countable(entries, depth) == Countable(entries[..i], depth) + Countable(entries[i..], depth)
    decreases i
  {
    if i == 0 {
      assert entries[..0] == [] && entries[0..] == entries;
    } else if depth <= MAX_DEPTH {
      CountableSplit(entries[1..], i - 1, depth);
      assert entries[..i][1..] == entries[1..][..i - 1] && entries[1..][i - 1..] == entries[i..];
    }
  }

  lemma CountableNext(entries: seq<Entry>, i: nat, depth: nat)
    requires i < |entries| && depth <= MAX_DEPTH
    ensures Countable(entries[..i + 1], depth) == Countable(entries[..i], depth) + CountableOf(entries[i], depth)
  {
    var s := entries[..i + 1];
    CountableSplit(s, i, depth);
    assert s[..i] == entries[..i] && s[i..] == [entries[i]] && [entries[i]][1..] == [];
  }

  // ------------------------------------------------------------ agreement

  /** Files the badge counts and the listing cannot show, their metadata being unreadable. */
  function Unreadable(entries: seq<Entry>, depth: nat): nat
    decreases entries, 0
  {
    if depth > MAX_DEPTH || entries == [] then 0
    else UnreadableOf(entries[0], depth) + Unreadable(entries[1..], depth)
  }

  function UnreadableOf(e: Entry, depth: nat): nat
    decreases e, 1
  {
    if SanitizeBasename(e.name).None? then 0
    else match e
      case Dir(_, children) => Unreadable(children, depth + 1)
      case File(_, meta) => if meta.None? then 1 else 0
      case Other(_) => 0
  }

  lemma {:induction false} CountableIsFilesPlusUnreadable(entries: seq<Entry>, prefix: string, depth: nat)
    ensures Countable(entries, depth) == |Files(entries, prefix, depth)| + Unreadable(entries, depth)
    decreases entries, 0
  {
    if depth <= MAX_DEPTH && entries != [] {
      EntryCounts(entries[0], prefix, depth);
      CountableIsFilesPlusUnreadable(entries[1..], prefix, depth);
    }
  }

  lemma {:induction false} EntryCounts(e: Entry, prefix: string, depth: nat)
    ensures CountableOf(e, depth) == |FilesOf(e, prefix, depth)| + UnreadableOf(e, depth)
    decreases e, 1
  {
    if e.Dir? && SanitizeBasename(e.name).Some? {
      CountableIsFilesPlusUnreadable(e.entries, Join(prefix, SanitizeBasename(e.name).value), depth + 1);
    }
  }

  /** The badge number and the listing, computed for the same directory. */
  method ListAndCount(root: seq<Entry>) returns (listing: seq<FileEntry>, badge: nat)
    ensures listing == Take(Files(root, "", 0), MAX_ENTRIES)
    ensures badge == Least(Countable(root, 0), MAX_ENTRIES)
  {
    var l := new Listing();
    l.CollectFilesTree(root, "", 0);
    var c := new Counter();
    c.Walk(root, 0);
    assert [] + Take(Files(root, "", 0), MAX_ENTRIES) == Take(Files(root, "", 0), MAX_ENTRIES);
    listing, badge := l.out, c.n;
  }

  /**
    The badge equals the length of the listing exactly when every eligible file's metadata is readable,
    or the listing has reached the cap anyway.
    */
  lemma BadgeMatchesListingIff(root: seq<Entry>)
    ensures Least(Countable(root, 0), MAX_ENTRIES) == |Take(Files(root, "", 0), MAX_ENTRIES)| <==>
            Unreadable(root, 0) == 0 || |Files(root, "", 0)| >= MAX_ENTRIES
  {
    CountableIsFilesPlusUnreadable(root, "", 0);
  }
}
