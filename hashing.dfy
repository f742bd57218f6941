/**
 The second stage: every path that survived the size stage is opened,
 digested with 64-byte BLAKE2b, and filed under the upper-case hex
 rendering of its digest (src/main.rs:58-81).

 Opening a file is a partial function from paths to their contents, and
 the digest is a function from contents to 64 bytes; both are parameters,
 so nothing here depends on the file system or on the hash construction.
 */
module Hashing {
  import opened Wrappers
  import opened Hex
  import opened MultiMap
  import opened Walk

  /** The output of `Blake2b::new(64)`: exactly 64 bytes. */
  type Digest = d: seq<Byte> | |d| == 64 witness seq(64, _ => 0 as Byte)

  /** `FileBuffer::open`: the file's bytes, or `None` when it cannot be opened or mapped. */
  type Opener = Path -> Option<seq<Byte>>

  /** The BLAKE2b computation (RFC 7693), left abstract. */
  type Hasher = seq<Byte> -> Digest

  /** The digest index: hex digest to paths with that digest, in hashing order. */
  type DigestIndex = map<string, seq<Path>>

  /** `blake2_hash`: the digest of the buffer, rendered as 128 upper-case hex digits. */
  function Blake2Hash(hash: Hasher, buffer: seq<Byte>): (key: string)
    ensures |key| == 128
    ensures forall i :: 0 <= i < |key| ==> IsDigit(key[i])
    ensures Parse(key) == Some(hash(buffer))
  {
    ParseRender(hash(buffer));
    Render(hash(buffer))
  }

  /** The key a path is filed under, or `None` when it cannot be opened. */
  function FileKey(open: Opener, hash: Hasher, p: Path): Option<string> {
    match open(p)
    case None => None
    case Some(buffer) => Some(Blake2Hash(hash, buffer))
  }

  /** Two paths share a key exactly when both open and their contents have the same digest. */
  lemma SameKeySameDigest(open: Opener, hash: Hasher, p: Path, q: Path)
    requires FileKey(open, hash, p).Some?
    ensures FileKey(open, hash, p) == FileKey(open, hash, q) <==>
      open(q).Some? && hash(open(p).value) == hash(open(q).value)
  {
    if open(q).Some? {
      RenderInjective(hash(open(p).value), hash(open(q).value));
    }
  }

  /** Every bucket is non-empty and holds only paths whose key is its own. */
  ghost predicate Grouped(index: DigestIndex, open: Opener, hash: Hasher) {
    forall h :: h in index ==>
      |index[h]| > 0 && forall p :: p in index[h] ==> FileKey(open, hash, p) == Some(h)
  }

  /** Each path that opens is filed as often as it occurs in `seen`; no other path is filed. */
  ghost predicate Counts(index: DigestIndex, open: Opener, hash: Hasher, seen: multiset<Path>) {
    forall p :: Flatten(index)[p] == if open(p).Some? then seen[p] else 0
  }

  /** What one step of `find_duplicates` does with one path: a path that
      opens is appended to the bucket of its key, any other is skipped. */
  function FileInto(index: DigestIndex, open: Opener, hash: Hasher, path: Path): DigestIndex {
    match open(path)
    case None => index
    case Some(buffer) => Insert(index, Blake2Hash(hash, buffer), path)
  }

  /** One step keeps the buckets grouped and counts the path once, if it opens. */
  lemma FileStep(index: DigestIndex, open: Opener, hash: Hasher, seen: multiset<Path>, path: Path)
    requires Grouped(index, open, hash) && Counts(index, open, hash, seen)
    ensures Grouped(FileInto(index, open, hash, path), open, hash)
    ensures Counts(FileInto(index, open, hash, path), open, hash, seen + multiset{path})
  {
    if open(path).Some? {
      FlattenInsert(index, FileKey(open, hash, path).value, path);
    }
  }

  /** Moving one key from the keys still to do to the keys done adds its bucket. */
  lemma FlattenOneMore(files: SizeIndex, todo: set<Size>, size: Size)
    requires size in todo && todo <= files.Keys
    ensures Flatten(files - (todo - {size})) == Flatten(files - todo) + multiset(files[size])
  {
    var next := files - (todo - {size});
    FlattenRemove(next, size);
    assert next - {size} == files - todo;
  }

  /** Filing a sequence of paths one after the other, in order. */
  function FileAll(index: DigestIndex, open: Opener, hash: Hasher, paths: seq<Path>): DigestIndex
    decreases |paths|
  {
    if paths == [] then index
    else FileInto(FileAll(index, open, hash, paths[..|paths| - 1]), open, hash, paths[|paths| - 1])
  }

  /** The paths of `paths` whose key is `h`, in their order in `paths`. */
  function KeyedAs(open: Opener, hash: Hasher, paths: seq<Path>, h: string): (r: seq<Path>)
    ensures forall p :: p in r <==> p in paths && FileKey(open, hash, p) == Some(h)
    decreases |paths|
  {
    if paths == [] then []
    else
      var last := paths[|paths| - 1];
      var init := KeyedAs(open, hash, paths[..|paths| - 1], h);
      assert paths == paths[..|paths| - 1] + [last];
      if FileKey(open, hash, last) == Some(h) then init + [last] else init
  }

  /** Filing a sequence appends to each bucket exactly the paths carrying
      that bucket's key, in the order they come; no other bucket appears. */
  lemma {:induction false} FileAllBucket(index: DigestIndex, open: Opener, hash: Hasher, paths: seq<Path>, h: string)
    ensures h in FileAll(index, open, hash, paths) <==> h in index || KeyedAs(open, hash, paths, h) != []
    ensures Bucket(FileAll(index, open, hash, paths), h) == Bucket(index, h) + KeyedAs(open, hash, paths, h)
    decreases |paths|
  {
    if paths != [] {
      var init, last := paths[..|paths| - 1], paths[|paths| - 1];
      FileAllBucket(index, open, hash, init, h);
      var prev := FileAll(index, open, hash, init);
      if FileKey(open, hash, last) == Some(h) {
        assert Bucket(FileAll(index, open, hash, paths), h) == Bucket(prev, h) + [last];
      }
    }
  }

  /** Filing the first `i + 1` paths is filing the first `i` and then path `i`. */
  lemma FileAllStep(index: DigestIndex, open: Opener, hash: Hasher, paths: seq<Path>, i: nat)
    requires i < |paths|
    ensures FileAll(index, open, hash, paths[..i + 1]) ==
      FileInto(FileAll(index, open, hash, paths[..i]), open, hash, paths[i])
  {
    assert paths[..i + 1][..i] == paths[..i];
  }

  /** Filing `a` and then `b` is filing `a + b`. */
  lemma {:induction false} FileAllAppend(index: DigestIndex, open: Opener, hash: Hasher, a: seq<Path>, b: seq<Path>)
    ensures FileAll(index, open, hash, a + b) == FileAll(FileAll(index, open, hash, a), open, hash, b)
    decreases |b|
  {
    if b == [] {
      assert a + b == a;
    } else {
      var init := b[..|b| - 1];
      FileAllAppend(index, open, hash, a, init);
      assert (a + b)[..|a + b| - 1] == a + init;
    }
  }

  /** Filing keeps the buckets grouped and counts each filed path that opens. */
  lemma {:induction false} FileAllKeeps(index: DigestIndex, open: Opener, hash: Hasher, seen: multiset<Path>, paths: seq<Path>)
    requires Grouped(index, open, hash) && Counts(index, open, hash, seen)
    ensures Grouped(FileAll(index, open, hash, paths), open, hash)
    ensures Counts(FileAll(index, open, hash, paths), open, hash, seen + multiset(paths))
    decreases |paths|
  {
    if paths != [] {
      var init, last := paths[..|paths| - 1], paths[|paths| - 1];
      FileAllKeeps(index, open, hash, seen, init);
      FileStep(FileAll(index, open, hash, init), open, hash, seen + multiset(init), last);
      assert paths == init + [last];
    }
  }

  /** The body of the outer loop of `find_duplicates`: hash the paths of
      one size bucket in order and file each one that opens under its key. */
  method HashBucket(duplicates: DigestIndex, paths: seq<Path>, open: Opener, hash: Hasher)
    returns (duplicates': DigestIndex)
    ensures duplicates' == FileAll(duplicates, open, hash, paths)
  {
    duplicates' := duplicates;
    var i := 0;
    while i < |paths|
      invariant 0 <= i <= |paths|
      invariant duplicates' == FileAll(duplicates, open, hash, paths[..i])
    {
      var path := paths[i];
      FileAllStep(duplicates, open, hash, paths, i);
      match open(path) {
        case None =>
          // the open error is reported and the path skipped
        case Some(buffer) =>
          var key := Blake2Hash(hash, buffer);
          duplicates' := Insert(duplicates', key, path);
      }
      i := i + 1;
    }
    assert paths[..i] == paths;
  }

  /** The paths of the buckets of `files` named by `order`, bucket after bucket. */
  function Concat(files: SizeIndex, order: seq<Size>): seq<Path>
    requires forall j :: 0 <= j < |order| ==> order[j] in files
    decreases |order|
  {
    if order == [] then []
    else Concat(files, order[..|order| - 1]) + files[order[|order| - 1]]
  }

  /** `order` lists, each once, exactly the sizes of `files` no longer in `todo`. */
  ghost predicate Enumerates(files: SizeIndex, todo: set<Size>, order: seq<Size>) {
    && (forall s :: s in files ==> (s in order <==> s !in todo))
    && (forall j :: 0 <= j < |order| ==> order[j] in files)
    && (forall j, k :: 0 <= j < k < |order| ==> order[j] != order[k])
  }

  /** Taking one more size from `todo` extends the enumeration by its bucket. */
  lemma EnumerateStep(files: SizeIndex, todo: set<Size>, order: seq<Size>, size: Size)
    requires Enumerates(files, todo, order) && todo <= files.Keys && size in todo
    ensures Enumerates(files, todo - {size}, order + [size])
    ensures Concat(files, order + [size]) == Concat(files, order) + files[size]
  {
    assert (order + [size])[..|order|] == order;
  }

  /** `find_duplicates`: iterate over the size buckets in whatever order the
      map yields them and over each bucket's paths in order; a path that
      cannot be opened is skipped, every other path is appended to the
      bucket of its key. The result is the in-order filing of the buckets
      taken in some order `order` that names every size exactly once.
      Afterwards each path that opens is filed as many times as it occurs
      in the input, under its own key and no other, and a path that does
      not open is filed nowhere. */
  method FindDuplicates(files: SizeIndex, open: Opener, hash: Hasher)
    returns (duplicates: DigestIndex, ghost order: seq<Size>)
    ensures forall s :: s in files <==> s in order
    ensures forall j, k :: 0 <= j < k < |order| ==> order[j] != order[k]
    ensures duplicates == FileAll(map[], open, hash, Concat(files, order))
    ensures Grouped(duplicates, open, hash)
    ensures forall p :: Flatten(duplicates)[p] == if open(p).Some? then Flatten(files)[p] else 0
  {
    duplicates := map[];
    order := [];
    var todo := files.Keys;
    while todo != {}
      invariant todo <= files.Keys
      invariant Enumerates(files, todo, order)
      invariant duplicates == FileAll(map[], open, hash, Concat(files, order))
      invariant Grouped(duplicates, open, hash)
      invariant Counts(duplicates, open, hash, Flatten(files - todo))
      decreases todo
    {
      var size :| size in todo;
      FileAllKeeps(duplicates, open, hash, Flatten(files - todo), files[size]);
      duplicates := HashBucket(duplicates, files[size], open, hash);
      FlattenOneMore(files, todo, size);
      FileAllAppend(map[], open, hash, Concat(files, order), files[size]);
      EnumerateStep(files, todo, order, size);
      order := order + [size];
      todo := todo - {size};
    }
    assert files - todo == files;
  }
}
