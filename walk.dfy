/**
 The first stage: a depth-first walk of a directory tree that feeds every
 non-directory entry to `add_to_dict`, which files the entry's path under
 its length (src/main.rs:16-38).

 The file system is an abstract tree. A directory either cannot be listed
 (`read_dir` fails) or lists its entries in the order the file system
 yields them; an individual entry can itself be an error (`entry?`), and a
 file's metadata lookup can fail.
 */
module Walk {
  import opened Wrappers
  import opened MultiMap

  type Path = string

  /** `u64`, the type of `Metadata::len`. */
  newtype Size = n: int | 0 <= n < 0x1_0000_0000_0000_0000

  /** A non-directory entry: its path and the length its metadata reports, if that lookup succeeds. */
  datatype DirEntry = DirEntry(path: Path, len: Option<Size>)

  /** A node of the tree. In a listing, `None` stands for an entry the
      directory iterator reported as an error. */
  datatype Node =
    | File(entry: DirEntry)
    | Dir(entries: seq<Option<Node>>)
    | Unreadable

  /** The size index: length to paths of that length, in walk order. */
  type SizeIndex = map<Size, seq<Path>>

  /** The entries `visit_dirs` hands to its callback, in order. A
      non-directory root yields nothing; an erroneous entry ends the listing
      of its directory; an unreadable subdirectory contributes nothing and
      the walk continues with its siblings. */
  function Visited(n: Node): seq<DirEntry> {
    if n.Dir? then VisitedFrom(n, 0) else []
  }

  /** What the walk of directory `dir` hands over from its `i`-th entry on. */
  function VisitedFrom(dir: Node, i: nat): seq<DirEntry>
    requires dir.Dir? && i <= |dir.entries|
    decreases dir, |dir.entries| - i
  {
    if i == |dir.entries| then []
    else
      match dir.entries[i]
      case None => []
      case Some(File(e)) => [e] + VisitedFrom(dir, i + 1)
      case Some(Unreadable) => VisitedFrom(dir, i + 1)
      case Some(child) => VisitedFrom(child, 0) + VisitedFrom(dir, i + 1)
  }

  /** Whether `visit_dirs` itself returns an error: its directory cannot be
      listed, or one of its entries is an error. Errors of subdirectories
      are reported and swallowed, so they do not count here. */
  predicate Fails(n: Node) {
    n.Unreadable? || (n.Dir? && None in n.entries)
  }

  /** The specification of `add_to_dict`. */
  function AddEntry(dict: SizeIndex, file: DirEntry): SizeIndex {
    if file.len.Some? then Insert(dict, file.len.value, file.path) else dict
  }

  /** `add_to_dict` applied to each entry in turn. */
  function AddAll(dict: SizeIndex, files: seq<DirEntry>): SizeIndex
    decreases |files|
  {
    if files == [] then dict else AddAll(AddEntry(dict, files[0]), files[1..])
  }

  /** `add_to_dict`: file the entry's path at the end of the bucket for its
      length; when the metadata lookup fails, leave the index as it is. */
  method AddToDict(dict: SizeIndex, file: DirEntry) returns (dict': SizeIndex)
    ensures dict' == AddEntry(dict, file)
    ensures file.len.None? ==> dict' == dict
    ensures file.len.Some? ==>
      && dict'.Keys == dict.Keys + {file.len.value}
      && dict'[file.len.value] == Bucket(dict, file.len.value) + [file.path]
      && forall s :: s in dict && s != file.len.value ==> dict'[s] == dict[s]
  {
    dict' := dict;
    if file.len.Some? {
      dict' := Insert(dict, file.len.value, file.path);
    }
  }

  /** `visit_dirs` with `add_to_dict` as its callback: the index afterwards
      is the old one with every visited entry added in walk order, and the
      result is an error exactly when this directory fails. */
  method VisitDirs(dir: Node, dict: SizeIndex) returns (dict': SizeIndex, ok: bool)
    ensures dict' == AddAll(dict, Visited(dir))
    ensures ok == !Fails(dir)
    ensures !dir.Dir? ==> dict' == dict
    decreases dir
  {
    dict' := dict;
    ok := !dir.Unreadable?;
    if dir.Dir? {
      var entries := dir.entries;
      var i := 0;
      while i < |entries|
        invariant 0 <= i <= |entries|
        invariant None !in entries[..i]
        invariant AddAll(dict', VisitedFrom(dir, i)) == AddAll(dict, Visited(dir))
      {
        match entries[i] {
          case None =>
            assert None in entries;
            ok := false;
            return;
          case Some(child) =>
            if child.File? {
              dict' := AddToDict(dict', child.entry);
            } else {
              // an error below is reported and the walk goes on with the siblings
              var childOk;
              AddAllAppend(dict', Visited(child), VisitedFrom(dir, i + 1));
              dict', childOk := VisitDirs(child, dict');
            }
        }
        assert entries[..i + 1] == entries[..i] + [entries[i]];
        i := i + 1;
      }
      assert entries[..i] == entries;
    }
  }

  /** Adding a concatenation is adding one part after the other. */
  lemma {:induction false} AddAllAppend(dict: SizeIndex, a: seq<DirEntry>, b: seq<DirEntry>)
    ensures AddAll(dict, a + b) == AddAll(AddAll(dict, a), b)
    decreases |a|
  {
    if a == [] {
      assert a + b == b;
    } else {
      assert (a + b)[0] == a[0] && (a + b)[1..] == a[1..] + b;
      AddAllAppend(AddEntry(dict, a[0]), a[1..], b);
    }
  }

  /** The paths of the entries whose metadata lookup succeeded. */
  function Recorded(files: seq<DirEntry>): multiset<Path>
  {
    if files == [] then multiset{}
    else (if files[0].len.Some? then multiset{files[0].path} else multiset{}) + Recorded(files[1..])
  }

  /** Each entry handed to `add_to_dict` whose metadata could be read is
      filed exactly once; the others are not filed at all. */
  lemma {:induction false} AddAllFlatten(dict: SizeIndex, files: seq<DirEntry>)
    ensures Flatten(AddAll(dict, files)) == Flatten(dict) + Recorded(files)
    decreases |files|
  {
    if files != [] {
      var f := files[0];
      if f.len.Some? {
        FlattenInsert(dict, f.len.value, f.path);
      }
      AddAllFlatten(AddEntry(dict, f), files[1..]);
    }
  }

  /** The paths of the entries that reported length `s`, in their order in `files`. */
  function SizedAs(files: seq<DirEntry>, s: Size): (r: seq<Path>)
    ensures forall p :: p in r <==> DirEntry(p, Some(s)) in files
    decreases |files|
  {
    if files == [] then []
    else
      var f := files[0];
      assert files == [f] + files[1..];
      (if f.len == Some(s) then [f.path] else []) + SizedAs(files[1..], s)
  }

  /** `add_to_dict` applied to each entry in turn appends to the bucket of
      each length exactly the paths of the entries that reported it, in the
      order they come; a length gets a bucket only if some entry reported it. */
  lemma {:induction false} AddAllBucket(dict: SizeIndex, files: seq<DirEntry>, s: Size)
    ensures s in AddAll(dict, files) <==> s in dict || SizedAs(files, s) != []
    ensures Bucket(AddAll(dict, files), s) == Bucket(dict, s) + SizedAs(files, s)
    decreases |files|
  {
    if files != [] {
      var f, rest := files[0], files[1..];
      var next := AddEntry(dict, f);
      AddAllBucket(next, rest, s);
      var head := if f.len == Some(s) then [f.path] else [];
      AddEntryBucket(dict, f, s);
      assert SizedAs(files, s) == head + SizedAs(rest, s);
      assert Bucket(dict, s) + head + SizedAs(rest, s) == Bucket(dict, s) + (head + SizedAs(rest, s));
    }
  }

  /** One `add_to_dict` step appends the entry's path to the bucket of its length and to no other. */
  lemma AddEntryBucket(dict: SizeIndex, f: DirEntry, s: Size)
    ensures s in AddEntry(dict, f) <==> s in dict || f.len == Some(s)
    ensures Bucket(AddEntry(dict, f), s) == Bucket(dict, s) + if f.len == Some(s) then [f.path] else []
  {
  }

  /** Every non-directory entry recorded in the tree's listings, whether
      or not the walk reaches it. */
  function TreeFiles(n: Node): multiset<DirEntry> {
    if n.Dir? then TreeFilesFrom(n, 0) else multiset{}
  }

  function TreeFilesFrom(dir: Node, i: nat): multiset<DirEntry>
    requires dir.Dir? && i <= |dir.entries|
    decreases dir, |dir.entries| - i
  {
    if i == |dir.entries| then multiset{}
    else
      match dir.entries[i]
      case None => TreeFilesFrom(dir, i + 1)
      case Some(File(e)) => multiset{e} + TreeFilesFrom(dir, i + 1)
      case Some(Unreadable) => TreeFilesFrom(dir, i + 1)
      case Some(child) => TreeFilesFrom(child, 0) + TreeFilesFrom(dir, i + 1)
  }

  /** No directory listing anywhere beneath `n` yields an erroneous entry. */
  predicate EntriesSound(n: Node)
    decreases n
  {
    n.Dir? ==> forall i :: 0 <= i < |n.entries| ==> n.entries[i].Some? && EntriesSound(n.entries[i].value)
  }

  /** The walk hands each non-directory entry of the tree to the callback at
      most once, and exactly once when no listing yields an erroneous entry. */
  lemma VisitedOnce(n: Node)
    ensures multiset(Visited(n)) <= TreeFiles(n)
    ensures EntriesSound(n) ==> multiset(Visited(n)) == TreeFiles(n)
  {
    if n.Dir? {
      VisitedFromOnce(n, 0);
    }
  }

  lemma {:induction false} VisitedFromOnce(dir: Node, i: nat)
    requires dir.Dir? && i <= |dir.entries|
    ensures multiset(VisitedFrom(dir, i)) <= TreeFilesFrom(dir, i)
    ensures EntriesSound(dir) ==> multiset(VisitedFrom(dir, i)) == TreeFilesFrom(dir, i)
    decreases dir, |dir.entries| - i
  {
    if i < |dir.entries| {
      VisitedFromOnce(dir, i + 1);
      match dir.entries[i]
      case None =>
      case Some(File(e)) =>
      case Some(Unreadable) =>
      case Some(child) =>
        VisitedFromOnce(child, 0);
    }
  }
}
