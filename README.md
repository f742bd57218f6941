# Duplicate finder: a Dafny model of its two-stage grouping pipeline

The program walks a directory tree and reports groups of files with identical
content. It works in two stages over a "multimap" (a map from a key to the
list of paths seen with that key, in the order they were seen):

1. **Size stage.** A depth-first walk (`visit_dirs`) hands every
   non-directory entry to `add_to_dict`. That function appends the entry's
   path to the bucket keyed by the file's length. Buckets holding a single
   path are then dropped (`remove_uniques`).
2. **Hash stage.** Every surviving path is opened and hashed with 64-byte
   BLAKE2b (`find_duplicates`). The path is appended to the bucket keyed by
   the digest, rendered as 128 upper-case hex digits (`blake2_hash`).
   Buckets holding a single path are dropped again (`remove_uniques_`).

The model is split into these modules:

- `Wrappers`: the `Option` type.
- `Hex`: the `{:02X}` rendering and its inverse.
- `MultiMap`: the generic insert and prune, and the multiset of all paths an index holds.
- `Walk`: the directory tree, `visit_dirs` and `add_to_dict`.
- `Hashing`: `blake2_hash` and `find_duplicates`.
- `Pipeline`: the glue in `search`.

The `&mut HashMap` arguments are modelled as a map passed in and a new map
returned. Rust's unique borrow rules out aliasing, so nothing is lost.
`HashMap` iteration order is unspecified, so the loops over keys choose the
next key with `:|`. Every property is therefore proved for every order.

The file system is an abstract tree. A `Node` is one of three things:

- a `File`, with its path and the length its metadata lookup reports (`None` when the lookup fails);
- a `Dir`, whose listing holds entries in file-system order, where `None` is an entry the directory iterator reported as an error;
- an `Unreadable` directory, which `read_dir` cannot list.

`FileBuffer::open` is a parameter `open: Path -> Option<seq<Byte>>`.
BLAKE2b is a parameter `hash: seq<Byte> -> Digest`, where a `Digest` is a
64-byte sequence.

One behaviour of the code is easy to miss: when the directory iterator
yields an erroneous entry, the `?` at src/main.rs:19 returns from
`visit_dirs` at once. The remaining entries of
that directory are never visited, although the files already visited stay
indexed. The caller prints the error and goes on with the siblings of that
directory (`Walk.Visited`, `Walk.VisitedOnce`).

## Model

| member | source | states |
|---|---|---|
| `Hex.ByteToHex` | src/main.rs:63 | A byte becomes exactly two upper-case hex digits, whose values are its high and low nibble (`{:02X}`). |
| `Hex.Render` | src/main.rs:63-64 | Joining the per-byte pieces turns n bytes into exactly 2·n characters, each in `0-9A-F`. |
| `Hex.RenderAt` | src/main.rs:63-64 | Characters 2i and 2i+1 of the rendering are the two digits of byte i. |
| `Hex.ParseRender` | src/main.rs:61-64 | Reading the rendering back two digits at a time recovers the original bytes. |
| `Hex.RenderParse` | src/main.rs:63-64 | Any string that reads back to some bytes is exactly the rendering of those bytes: only even-length upper-case digit strings are renderings. |
| `Hex.RenderInjective` | src/main.rs:77-78 | Two byte strings render to the same key if and only if they are equal, so grouping by rendered key is grouping by digest. |
| `MultiMap.Insert` | src/main.rs:36 | `entry(k).or_insert(Vec::new()).push(v)`: the bucket for k becomes its old contents, or empty if it had none, with v at the end; k is added to the keys; every other bucket is unchanged. |
| `MultiMap.FlattenInsert` | src/main.rs:36 | One insert adds exactly one copy of the path to the paths the index holds. |
| `MultiMap.Pruned` | src/main.rs:40-56 | Singleton pruning keeps exactly the keys whose bucket length is not 1, each with its bucket unchanged. |
| `MultiMap.RemoveUniques` | src/main.rs:40-56 | The loop over a snapshot of the keys, in any order, leaves exactly `Pruned` of the input: no bucket of length 1, no key added, and every other bucket kept with identical contents. |
| `MultiMap.PrunedIdempotent` | src/main.rs:41-46 | Pruning an already pruned index changes nothing. |
| `MultiMap.PrunedShrinks` | src/main.rs:41-46 | Pruning only shrinks the key set and the multiset of paths held. |
| `MultiMap.PrunedAtLeastTwo` | src/main.rs:41-46 | If no bucket was empty, every bucket that survives pruning holds at least two paths. |
| `Walk.AddToDict` | src/main.rs:34-38 | When the metadata lookup succeeds, the path is appended to the bucket for its length and every other bucket is unchanged; when it fails, the index is left exactly as it was. |
| `Walk.VisitDirs` | src/main.rs:16-32 | The walk leaves the index it was given with every entry of `Visited` added in depth-first order. It reports an error exactly when its own directory cannot be listed or yields an erroneous entry; a subdirectory's error is printed and swallowed. A non-directory root adds nothing. |
| `Walk.VisitedOnce` | src/main.rs:17-28 | Each non-directory entry of the tree reaches the callback at most once, and exactly once when no listing yields an erroneous entry. |
| `Walk.AddAllFlatten` | src/main.rs:34-38 | After the walk, the index holds the old paths plus exactly one copy of the path of each visited entry whose metadata could be read, and nothing else. |
| `Walk.AddAllBucket` | src/main.rs:34-38 | Feeding entries to `add_to_dict` one after the other appends to the bucket of each length exactly the paths of the entries that reported that length, in the order they came; a length has a bucket only if it had one before or some entry reported it. So a path is in the bucket of a length if and only if an entry with that path reported that length. |
| `Hashing.Blake2Hash` | src/main.rs:58-65 | The key of a buffer has exactly 128 characters, all upper-case hex digits, and reads back as the 64-byte digest of the buffer. |
| `Hashing.SameKeySameDigest` | src/main.rs:77-78 | Two paths share a key exactly when both open and their contents have the same digest. |
| `Hashing.FileAllBucket` | src/main.rs:69-79 | Filing a sequence of paths one after the other appends to the bucket of each digest exactly the paths that open with that digest, in the order they came; a digest gets a bucket only if it had one or some path carries it. |
| `Hashing.FileAllAppend` | src/main.rs:68-69 | Filing one list of paths and then another is the same as filing their concatenation, so the buckets of the size index can be hashed one after the other. |
| `Hashing.FileAllKeeps` | src/main.rs:69-79 | Filing keeps every digest bucket non-empty and holding only paths with that digest, and files each path that opens once per occurrence and a path that does not open never. |
| `Hashing.HashBucket` | src/main.rs:69-79 | The loop over one size bucket leaves exactly the in-order filing of that bucket's paths: a path that opens is appended to the bucket of its key, a path that does not open is skipped. |
| `Hashing.FindDuplicates` | src/main.rs:67-81 | The result is the in-order filing of the paths of the size buckets taken one bucket after another, in some order that names every size exactly once. Every digest bucket is non-empty and holds only paths whose key is that digest. Each path that opens is filed as often as it occurs in the size index, and a path that does not open is filed nowhere. |
| `Pipeline.Search` | src/main.rs:83-98 | The size index is the pruned walk result, and each of its buckets holds two or more walked paths of that length. Every duplicate group has two or more paths, each a size-stage survivor with the group's digest. Any two distinct survivors with the same digest are both reported, and so are any two distinct walked paths that reported the same length and share a digest. No path is reported more often than it survived the size stage, so two entries in a group are two walked files. A non-directory root yields two empty indices. |
| `Pipeline.SizeStage` | src/main.rs:86-91 | After the walk and the first pruning, every size bucket has two or more paths, each walked with that length, and any two distinct walked paths that reported one length survive. |
| `Pipeline.SharedLengthSurvives` | src/main.rs:34-46 | Two distinct paths that reported the same length share a bucket that the first pruning keeps. |
| `Pipeline.HashStage` | src/main.rs:96-98 | After hashing and the second pruning, every group has two or more paths, each a size-stage survivor with the group's digest, no path is held more often than it survived, and any two distinct survivors with one digest are both in their group. |
| `Pipeline.BothFiled` | src/main.rs:96-98 | Two distinct hashed paths with the same key share a bucket of at least two paths, which the second pruning keeps. |
| `Pipeline.GroupMembersAgree` | src/main.rs:77-78 | Two members of one group have identical content as long as the digest does not collide on their two contents. |
| `Pipeline.GroupSharesSize` | src/main.rs:91-98 | If the files did not change between the walk and the hashing, two members of one group whose contents the digest does not confuse were taken from the same size bucket: a group never mixes lengths. |

## Left out

- File-system I/O: `fs::read_dir`, `DirEntry::metadata`, `is_dir` and `FileBuffer::open` are replaced by the abstract tree and the `open` parameter. Nothing ties `open` to the lengths in the tree in general; `Pipeline.GroupSharesSize` assumes the files did not change between the two stages.
- The BLAKE2b computation (RFC 7693) comes from an external crate. It is the abstract `hash` parameter, and only its 64-byte output size is modelled.
- Symbolic links, cycles and the difference between `is_dir` (follows links) and `DirEntry::metadata` (does not) are OS stat semantics and are not modelled. A cyclic tree cannot be expressed in the datatype.
- `visit_dirs` takes any callback, but the program only ever passes `add_to_dict`. `Walk.VisitDirs` calls `Walk.AddToDict` directly.
- `find_duplicates` appends to the map it is given. Its one caller passes a new empty map (src/main.rs:96-97), so `Hashing.FindDuplicates` starts from an empty map.
- Diagnostics (`println!` of walk and open errors), the report loop, `log.txt` removal and appending, and debug-quoting of paths (src/main.rs:99-117) are output only.
- Timing with `PreciseTime` (src/main.rs:84, 119-120) and the hard-coded root in `main` (src/main.rs:123-126).
- `Pipeline.Search`: it states membership of the groups, not the order of paths within a group. That order is stated by `Hashing.FindDuplicates` and `Hashing.FileAllBucket`, relative to the order of the size buckets, which `HashMap` leaves unspecified.
- Memory mapping and release of each file's buffer: the model reads contents as a value.
