/**
 * A filesystem that can crash. Directory changes and file contents since the last flush may or may not survive, each
 * name on its own; what was flushed does.
 */
module FileSystem {
  import opened Layout
  import opened Names

  type Inode = nat

  /**
   * `dirs` is every state the directory has been in since the last flush, the flushed one first and the current one
   * last. `data` is what each file holds now, and `flushed` the files whose contents have reached the device.
   */
  datatype Fs = Fs(dirs: seq<map<Name, Inode>>, data: map<Inode, Bytes>, flushed: set<Inode>, next: Inode)

  ghost predicate FsOk(fs: Fs) {
    && |fs.dirs| > 0
    && (forall i, n | 0 <= i < |fs.dirs| && n in fs.dirs[i] :: fs.dirs[i][n] in fs.data && fs.dirs[i][n] < fs.next)
  }

  function Dir(fs: Fs): map<Name, Inode>
    requires |fs.dirs| > 0
  {
    fs.dirs[|fs.dirs| - 1]
  }

  /** What file `n` held in the `i`-th state of the directory. */
  function FileIn(fs: Fs, i: nat, n: Name): Option<Bytes>
    requires i < |fs.dirs|
  {
    if n in fs.dirs[i] && fs.dirs[i][n] in fs.data then Some(fs.data[fs.dirs[i][n]]) else None
  }

  function FileOf(fs: Fs, n: Name): Option<Bytes>
    requires |fs.dirs| > 0
  {
    FileIn(fs, |fs.dirs| - 1, n)
  }

  /** Write a whole file without flushing it, truncating whatever file the name already had. */
  function Create(fs: Fs, n: Name, bytes: Bytes): Fs
    requires |fs.dirs| > 0
  {
    if n in Dir(fs) then
      fs.(data := fs.data[Dir(fs)[n] := bytes], flushed := fs.flushed - {Dir(fs)[n]})
    else
      Fs(fs.dirs + [Dir(fs)[n := fs.next]], fs.data[fs.next := bytes], fs.flushed - {fs.next}, fs.next + 1)
  }

  function Rename(fs: Fs, a: Name, b: Name): Fs
    requires |fs.dirs| > 0 && a in Dir(fs)
  {
    fs.(dirs := fs.dirs + [(Dir(fs) - {a})[b := Dir(fs)[a]]])
  }

  function Unlink(fs: Fs, n: Name): Fs
    requires |fs.dirs| > 0
  {
    fs.(dirs := fs.dirs + [Dir(fs) - {n}])
  }

  /** Every byte and every name written so far reaches the device. */
  function Flush(fs: Fs): Fs
    requires |fs.dirs| > 0
  {
    fs.(dirs := [Dir(fs)], flushed := fs.data.Keys)
  }

  /**
   * `after` is a store that a crash may leave: each name as in some directory state since the last flush, each file
   * whole if it had been flushed and otherwise with any contents at all.
   */
  ghost predicate Survives(fs: Fs, after: map<Name, Bytes>) {
    forall n :: NameSurvives(fs, after, n)
  }

  ghost predicate NameSurvives(fs: Fs, after: map<Name, Bytes>, n: Name) {
    exists i | 0 <= i < |fs.dirs| :: SurvivesAs(fs, after, n, i)
  }

  ghost predicate SurvivesAs(fs: Fs, after: map<Name, Bytes>, n: Name, i: nat)
    requires i < |fs.dirs|
  {
    && (n in after <==> n in fs.dirs[i])
    && (n in after && fs.dirs[i][n] in fs.flushed && fs.dirs[i][n] in fs.data ==> after[n] == fs.data[fs.dirs[i][n]])
  }

  // --------------------------------------------------------- invariants --

  /** No key's name has ever led to a file whose bytes were not on the device. */
  ghost predicate KeysSound(fs: Fs) {
    forall i, k | 0 <= i < |fs.dirs| && ValidKey(k) && k in fs.dirs[i] :: fs.dirs[i][k] in fs.flushed
  }

  /** A file that is not a key's has one name, and no key has led to it since the last flush. */
  ghost predicate TempsPrivate(fs: Fs)
    requires |fs.dirs| > 0
  {
    forall n | n in Dir(fs) && !ValidKey(n) ::
      && (forall m | m in Dir(fs) && m != n :: Dir(fs)[m] != Dir(fs)[n])
      && (forall i, k | 0 <= i < |fs.dirs| && ValidKey(k) && k in fs.dirs[i] :: fs.dirs[i][k] != Dir(fs)[n])
  }

  ghost predicate FsInv(fs: Fs) {
    FsOk(fs) && KeysSound(fs) && TempsPrivate(fs)
  }

  /** Every key's file, in every directory state, is as it was; the new states repeat the old last one. */
  ghost predicate SameKeys(fs: Fs, fs': Fs) {
    && 0 < |fs.dirs| <= |fs'.dirs|
    && (forall i, k | 0 <= i < |fs.dirs| && ValidKey(k) :: FileIn(fs', i, k) == FileIn(fs, i, k))
    && (forall i, k | |fs.dirs| <= i < |fs'.dirs| && ValidKey(k) :: FileIn(fs', i, k) == FileOf(fs, k))
  }

  /** Writing a temporary file leaves every key's file alone. */
  lemma CreateTemp(fs: Fs, n: Name, bytes: Bytes)
    requires FsInv(fs) && !ValidKey(n)
    ensures FsInv(Create(fs, n, bytes)) && SameKeys(fs, Create(fs, n, bytes))
    ensures FileOf(Create(fs, n, bytes), n) == Some(bytes)
    ensures forall m | m != n :: FileOf(Create(fs, n, bytes), m) == FileOf(fs, m)
  {
  }

  lemma UnlinkTemp(fs: Fs, n: Name)
    requires FsInv(fs) && !ValidKey(n)
    ensures FsInv(Unlink(fs, n)) && SameKeys(fs, Unlink(fs, n))
    ensures forall m | m != n :: FileOf(Unlink(fs, n), m) == FileOf(fs, m)
    ensures Unlink(fs, n).flushed == fs.flushed && Unlink(fs, n).data == fs.data
  {
  }

  /** `fs'` is `fs` with the file of key `k` now `v`; earlier states of the directory are as they were. */
  ghost predicate KeyChanged(fs: Fs, fs': Fs, k: Key, v: Option<Bytes>) {
    && 0 < |fs.dirs| && |fs'.dirs| == |fs.dirs| + 1
    && (forall i, l | 0 <= i < |fs.dirs| && ValidKey(l) :: FileIn(fs', i, l) == FileIn(fs, i, l))
    && FileOf(fs', k) == v
    && (forall m | m != k && ValidKey(m) :: FileOf(fs', m) == FileOf(fs, m))
  }

  /** Publishing a temporary file whose bytes have been flushed. */
  lemma RenameTemp(fs: Fs, a: Name, k: Key)
    requires FsInv(fs) && !ValidKey(a) && ValidKey(k)
    requires a in Dir(fs) && Dir(fs)[a] in fs.flushed
    ensures FsInv(Rename(fs, a, k)) && KeyChanged(fs, Rename(fs, a, k), k, FileOf(fs, a))
    ensures forall m | m != a && m != k :: m in Dir(Rename(fs, a, k)) <==> m in Dir(fs)
    ensures forall m | m != a && m != k && m in Dir(fs) :: Dir(Rename(fs, a, k))[m] == Dir(fs)[m]
  {
    var fs' := Rename(fs, a, k);
    assert forall i | 0 <= i < |fs.dirs| :: fs'.dirs[i] == fs.dirs[i];
  }

  lemma UnlinkKey(fs: Fs, k: Key)
    requires FsInv(fs) && ValidKey(k)
    ensures FsInv(Unlink(fs, k)) && KeyChanged(fs, Unlink(fs, k), k, None)
    ensures forall m | m != k :: m in Dir(Unlink(fs, k)) <==> m in Dir(fs)
    ensures forall m | m != k && m in Dir(fs) :: Dir(Unlink(fs, k))[m] == Dir(fs)[m]
  {
    var fs' := Unlink(fs, k);
    assert forall i | 0 <= i < |fs.dirs| :: fs'.dirs[i] == fs.dirs[i];
  }

  lemma FlushKeeps(fs: Fs)
    requires FsInv(fs)
    ensures FsInv(Flush(fs))
    ensures forall n :: FileOf(Flush(fs), n) == FileOf(fs, n)
    ensures Dir(Flush(fs)) == Dir(fs) && |Flush(fs).dirs| == 1
    ensures forall n | n in Dir(fs) :: Dir(fs)[n] in Flush(fs).flushed
  {
  }

  // -------------------------------------------------------------- crash --

  /** After a crash each key's file is whole: it is what the key had at some moment since the last flush. */
  lemma CrashLeavesWholeFiles(fs: Fs, after: map<Name, Bytes>, k: Key) returns (i: nat)
    requires FsInv(fs) && Survives(fs, after) && ValidKey(k)
    ensures i < |fs.dirs|
    ensures FileIn(fs, i, k) == if k in after then Some(after[k]) else None
  {
    assert NameSurvives(fs, after, k);
    i :| 0 <= i < |fs.dirs| && SurvivesAs(fs, after, k, i);
  }
}
