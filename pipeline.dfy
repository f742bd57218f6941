/**
 The glue of `search` (src/main.rs:86-98): walk the tree into the size
 index, drop unique sizes, hash the survivors into the digest index, drop
 unique digests. Reporting the groups is output and not modelled.
 */
module Pipeline {
  import opened Wrappers
  import opened Hex
  import opened MultiMap
  import opened Walk
  import opened Hashing

  /** `search` up to the report: returns the pruned size index (whose size
      `search` prints) and the pruned digest index (the duplicate groups). */
  method Search(root: Node, open: Opener, hash: Hasher) returns (sizes: SizeIndex, duplicates: DigestIndex)
    // the size stage: unique lengths are gone, and every path kept was walked with that length
    ensures sizes == Pruned(AddAll(map[], Visited(root)))
    ensures forall s :: s in sizes ==> |sizes[s]| >= 2
    ensures forall s, p :: s in sizes && p in sizes[s] ==> DirEntry(p, Some(s)) in Visited(root)
    // the hash stage: every group has two paths or more, all of them
    // survivors of the size stage carrying the group's digest
    ensures forall h :: h in duplicates ==> |duplicates[h]| >= 2
    ensures forall h, p :: h in duplicates && p in duplicates[h] ==>
      FileKey(open, hash, p) == Some(h) && p in Flatten(sizes)
    // nothing is lost: two distinct size-stage survivors with the same digest are both reported
    ensures forall p, q ::
      (p in Flatten(sizes) && q in Flatten(sizes) && p != q &&
       FileKey(open, hash, p).Some? && FileKey(open, hash, p) == FileKey(open, hash, q)) ==>
      FileKey(open, hash, p).value in duplicates && p in duplicates[FileKey(open, hash, p).value]
    // and from the walk on: two distinct walked paths that reported the same
    // length and share a digest are both reported
    ensures forall s, p, q ::
      (DirEntry(p, Some(s)) in Visited(root) && DirEntry(q, Some(s)) in Visited(root) && p != q &&
       FileKey(open, hash, p).Some? && FileKey(open, hash, p) == FileKey(open, hash, q)) ==>
      FileKey(open, hash, p).value in duplicates && p in duplicates[FileKey(open, hash, p).value]
    // each path is reported at most as often as it survived the size stage:
    // a group of two entries is a group of two walked files
    ensures Flatten(duplicates) <= Flatten(sizes)
    // a root that is not a directory yields nothing
    ensures !root.Dir? ==> sizes == map[] && duplicates == map[]
  {
    var dict, ok := VisitDirs(root, map[]);
    // a walk error is reported and the search goes on with what was indexed
    sizes := RemoveUniques(dict);
    var hashed;
    ghost var order;
    hashed, order := FindDuplicates(sizes, open, hash);
    duplicates := RemoveUniques(hashed);

    SizeStage(Visited(root));
    HashStage(sizes, hashed, open, hash);
    if !root.Dir? {
      assert Flatten(hashed) == multiset{};
      FlattenEmpty(hashed);
    }
  }

  /** The size stage on the walked entries `files`: every kept bucket has
      two paths or more, each of which reported that length, and two
      distinct paths that reported one length are both kept. */
  lemma SizeStage(files: seq<DirEntry>)
    ensures forall s :: s in Pruned(AddAll(map[], files)) ==> |Pruned(AddAll(map[], files))[s]| >= 2
    ensures forall s, p :: s in Pruned(AddAll(map[], files)) && p in Pruned(AddAll(map[], files))[s] ==>
      DirEntry(p, Some(s)) in files
    ensures forall s, p, q :: DirEntry(p, Some(s)) in files && DirEntry(q, Some(s)) in files && p != q ==>
      p in Flatten(Pruned(AddAll(map[], files)))
  {
    var dict := AddAll(map[], files);
    forall s | s in dict
      ensures |dict[s]| > 0
    {
      AddAllBucket(map[], files, s);
    }
    PrunedAtLeastTwo(dict);
    forall s, p | s in Pruned(dict) && p in Pruned(dict)[s]
      ensures DirEntry(p, Some(s)) in files
    {
      AddAllBucket(map[], files, s);
    }
    forall s, p, q | DirEntry(p, Some(s)) in files && DirEntry(q, Some(s)) in files && p != q
      ensures p in Flatten(Pruned(dict))
    {
      SharedLengthSurvives(files, s, p, q);
      FlattenMember(Pruned(dict), p);
    }
  }

  /** The hash stage on the survivors `sizes` of the size stage: every kept
      group has two paths or more, each carrying the group's digest and
      taken from `sizes` no more often than it occurs there, and two
      distinct paths of `sizes` with one digest are both kept. */
  lemma HashStage(sizes: SizeIndex, hashed: DigestIndex, open: Opener, hash: Hasher)
    requires Grouped(hashed, open, hash)
    requires forall p :: Flatten(hashed)[p] == if open(p).Some? then Flatten(sizes)[p] else 0
    ensures forall h :: h in Pruned(hashed) ==> |Pruned(hashed)[h]| >= 2
    ensures forall h, p :: h in Pruned(hashed) && p in Pruned(hashed)[h] ==>
      FileKey(open, hash, p) == Some(h) && p in Flatten(sizes)
    ensures forall p, q ::
      (p in Flatten(sizes) && q in Flatten(sizes) && p != q &&
       FileKey(open, hash, p).Some? && FileKey(open, hash, p) == FileKey(open, hash, q)) ==>
      FileKey(open, hash, p).value in Pruned(hashed) && p in Pruned(hashed)[FileKey(open, hash, p).value]
    ensures Flatten(Pruned(hashed)) <= Flatten(sizes)
  {
    PrunedAtLeastTwo(hashed);
    PrunedShrinks(hashed);
    forall h, p | h in Pruned(hashed) && p in Pruned(hashed)[h]
      ensures FileKey(open, hash, p) == Some(h) && p in Flatten(sizes)
    {
      FlattenMember(hashed, p);
    }
    forall p, q | p in Flatten(sizes) && q in Flatten(sizes) && p != q &&
      FileKey(open, hash, p).Some? && FileKey(open, hash, p) == FileKey(open, hash, q)
      ensures FileKey(open, hash, p).value in Pruned(hashed) && p in Pruned(hashed)[FileKey(open, hash, p).value]
    {
      BothFiled(sizes, hashed, open, hash, p, q);
    }
  }

  /** Two distinct paths that reported the same length share a bucket of
      the size index that pruning keeps. */
  lemma SharedLengthSurvives(files: seq<DirEntry>, s: Size, p: Path, q: Path)
    requires DirEntry(p, Some(s)) in files && DirEntry(q, Some(s)) in files && p != q
    ensures s in Pruned(AddAll(map[], files))
    ensures p in Pruned(AddAll(map[], files))[s] && q in Pruned(AddAll(map[], files))[s]
  {
    AddAllBucket(map[], files, s);
    var empty: SizeIndex := map[];
    assert Bucket(empty, s) == [];
    var bucket := SizedAs(files, s);
    var i :| 0 <= i < |bucket| && bucket[i] == p;
    var j :| 0 <= j < |bucket| && bucket[j] == q;
    assert i != j;
  }

  /** Two distinct paths with the same key that were both hashed end up in
      one bucket of at least two paths, which pruning keeps. */
  lemma BothFiled(sizes: SizeIndex, hashed: DigestIndex, open: Opener, hash: Hasher, p: Path, q: Path)
    requires Grouped(hashed, open, hash)
    requires forall x :: Flatten(hashed)[x] == if open(x).Some? then Flatten(sizes)[x] else 0
    requires p in Flatten(sizes) && q in Flatten(sizes) && p != q
    requires FileKey(open, hash, p).Some? && FileKey(open, hash, p) == FileKey(open, hash, q)
    ensures FileKey(open, hash, p).value in Pruned(hashed)
    ensures p in Pruned(hashed)[FileKey(open, hash, p).value]
  {
    var h := FileKey(open, hash, p).value;
    FlattenMember(hashed, p);
    FlattenMember(hashed, q);
    var hp :| hp in hashed && p in hashed[hp];
    var hq :| hq in hashed && q in hashed[hq];
    assert hp == h && hq == h;
    var bucket := hashed[h];
    var i :| 0 <= i < |bucket| && bucket[i] == p;
    var j :| 0 <= j < |bucket| && bucket[j] == q;
    assert i != j;
  }

  /** Two members of one duplicate group have the same content provided the digest does not collide on their two
      contents (the 64-byte output makes that the working assumption). */
  lemma GroupMembersAgree(open: Opener, hash: Hasher, p: Path, q: Path)
    requires FileKey(open, hash, p).Some? && FileKey(open, hash, p) == FileKey(open, hash, q)
    requires open(q).Some? && hash(open(p).value) == hash(open(q).value) ==> open(p) == open(q)
    ensures open(p) == open(q)
  {
    SameKeySameDigest(open, hash, p, q);
  }

  /** The file system did not change between the walk and the hashing: a
      walked entry whose length was read and that opens has that length. */
  ghost predicate LengthsCurrent(root: Node, open: Opener) {
    forall e :: e in Visited(root) && e.len.Some? && open(e.path).Some? ==>
      |open(e.path).value| == e.len.value as int
  }

  /** Over a file system that did not change, two members of one duplicate
      group whose contents the digest does not confuse came out of the same
      bucket of the size index: a group never mixes lengths. */
  lemma GroupSharesSize(root: Node, open: Opener, hash: Hasher, sizes: SizeIndex, p: Path, q: Path, sp: Size, sq: Size)
    requires forall s, x :: s in sizes && x in sizes[s] ==> DirEntry(x, Some(s)) in Visited(root)
    requires LengthsCurrent(root, open)
    requires sp in sizes && p in sizes[sp] && sq in sizes && q in sizes[sq]
    requires FileKey(open, hash, p).Some? && FileKey(open, hash, p) == FileKey(open, hash, q)
    requires open(q).Some? && hash(open(p).value) == hash(open(q).value) ==> open(p) == open(q)
    ensures sp == sq
  {
    GroupMembersAgree(open, hash, p, q);
    assert DirEntry(p, Some(sp)) in Visited(root) && DirEntry(q, Some(sq)) in Visited(root);
  }
}
