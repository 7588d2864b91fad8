/**
  AtomicCopyFile on a disk that forgets. A file's contents reach the disk only when
  the file is synced, a name only when its directory is synced; a power failure
  leaves any mixture of what was safe and what was not yet.
 */
module SafeCopy {

  import opened Paths
  import opened FileTree
  import opened Wrappers

  datatype Ref = DirRef(perm: Perm) | FileRef(id: nat)

  /** A file as processes see it, and whether the disk has it in that form. */
  datatype Inode = Inode(now: Node, synced: bool)

  /** Current names, the values each name had since its directory was last synced, and the files. */
  datatype Disk = Disk(names: map<Path, Ref>, older: map<Path, set<Option<Ref>>>, files: map<nat, Inode>)

  // ----- what a disk shows, and what it may show after a power failure -----

  function NameOf(d: Disk, p: Path): Option<Ref> {
    if p in d.names then Some(d.names[p]) else None
  }

  /** The entries that may be found under `p` after a power failure. */
  function Possible(d: Disk, p: Path): set<Option<Ref>> {
    (if p in d.older then d.older[p] else {}) + {NameOf(d, p)}
  }

  ghost predicate WellFormed(d: Disk) {
    && (forall p, i | Some(FileRef(i)) in Possible(d, p) :: i in d.files)
    && (forall i | i in d.files :: d.files[i].now.File?)
  }

  function NodeOf(d: Disk, ref: Ref): Node
    requires ref.FileRef? ==> ref.id in d.files
  {
    match ref
    case DirRef(perm) => Dir(perm)
    case FileRef(id) => d.files[id].now
  }

  /** The tree as processes see it. */
  ghost function View(d: Disk): Fs
    requires WellFormed(d)
  {
    map p | p in d.names :: (assert d.names[p].FileRef? ==> Some(FileRef(d.names[p].id)) in Possible(d, p); NodeOf(d, d.names[p]))
  }

  /** A file that was not synced may hold anything. */
  ghost predicate MayHold(d: Disk, ref: Ref, node: Node) {
    match ref
    case DirRef(perm) => node == Dir(perm)
    case FileRef(id) => id in d.files && node.File? && (d.files[id].synced ==> node == d.files[id].now)
  }

  ghost predicate Outcome(d: Disk, fs: Fs) {
    && IsTree(fs)
    && (forall p | p in fs :: MayShow(d, p, fs[p]))
    && (forall p | p !in fs && None !in Possible(d, p) :: p == [] || !HasDir(fs, Parent(p)))
  }

  /** The node may be found under `q` after a power failure. */
  ghost predicate MayShow(d: Disk, q: Path, node: Node) {
    exists ref :: Some(ref) in Possible(d, q) && MayHold(d, ref, node)
  }

  /** Nothing is in flight. */
  ghost predicate Clean(d: Disk) {
    && WellFormed(d) && d.older == map[] && (forall i | i in d.files :: d.files[i].synced)
    && IsTree(View(d))
  }

  // ----- system calls -----

  /** Changing a name keeps the earlier values possible. */
  function SetName(d: Disk, p: Path, ref: Option<Ref>): Disk {
    Disk(if ref.Some? then d.names[p := ref.value] else d.names - {p}, d.older[p := Possible(d, p)], d.files)
  }

  function SetFile(d: Disk, id: nat, node: Node): Disk {
    d.(files := d.files[id := Inode(node, false)])
  }

  function SyncFile(d: Disk, id: nat): Disk
    requires id in d.files
  {
    d.(files := d.files[id := d.files[id].(synced := true)])
  }

  function RenameFile(d: Disk, t: Path, p: Path): Disk
    requires t in d.names
  {
    SetName(SetName(d, p, Some(d.names[t])), t, None)
  }

  /** fsync of a directory settles the names in it. */
  function SyncDirectory(d: Disk, dir: Path): Disk {
    d.(older := map p | p in d.older && !(p != [] && Parent(p) == dir) :: d.older[p])
  }

  // ----- the states between the first and the last call -----

  /** A copy: the disk it began on, the target, its new contents, the temporary name and file. */
  datatype Copy = Copy(d0: Disk, p: Path, file: Node, t: Path, id: nat)

  /** Any disk will do, whatever is still in flight on it. */
  ghost predicate Fits(c: Copy) {
    && WellFormed(c.d0) && c.p != [] && c.t != [] && c.file.File?
    && c.t != c.p && c.t !in c.d0.names && Parent(c.t) == Parent(c.p) && c.id !in c.d0.files
  }

  /** The target may be renamed over: it is not a directory. */
  predicate Replaceable(c: Copy) {
    !(c.p in c.d0.names && c.d0.names[c.p].DirRef?)
  }

  /** A directory the copy may create on the way to the target. */
  ghost predicate NewDir(c: Copy, q: Path, e: Option<Ref>)
    requires c.p != []
  {
    q !in c.d0.names && q != c.p && q != c.t && Under(q, Parent(c.p)) && e.Some? && e.value.DirRef?
  }

  /** The entries a copy may leave under the name `q`: a complete, synced file if `q` is the target. */
  ghost predicate AllowedEntry(c: Copy, d: Disk, q: Path, e: Option<Ref>)
    requires c.p != []
  {
    || e in Possible(c.d0, q)
    || (q == c.p && e == Some(FileRef(c.id)) && Replaceable(c) && c.id in d.files && d.files[c.id] == Inode(c.file, true))
    || (q == c.t && (e == Some(FileRef(c.id)) || e == None))
    || NewDir(c, q, e)
  }

  /** The copy has touched only what it may. */
  ghost predicate Midway(c: Copy, d: Disk)
    requires c.p != []
  {
    && WellFormed(d)
    && (forall q, e | e in Possible(d, q) :: AllowedEntry(c, d, q, e))
    && (forall q | q != c.p && q != c.t :: NameOf(d, q) == NameOf(c.d0, q) || NewDir(c, q, NameOf(d, q)))
    && (forall q | q !in c.d0.names && q != c.p && q != c.t :: None in Possible(d, q))
    && (forall i | i in c.d0.files :: i in d.files && d.files[i] == c.d0.files[i])
  }

  /**
    What a power failure during the copy leaves: what it might have left before the
    copy, the complete new file, the temporary file, or a directory on the way; and no
    name is lost that could not be lost before.
   */
  ghost predicate Recovered(c: Copy, fs: Fs)
    requires c.p != []
  {
    && IsTree(fs) && Plain(fs)
    && (forall q | q in fs ::
          || MayShow(c.d0, q, fs[q])
          || (q == c.p && fs[q] == c.file && Replaceable(c))
          || (q == c.t && fs[q].File?)
          || (q !in c.d0.names && q != c.p && q != c.t && fs[q].Dir? && Under(q, Parent(c.p))))
    && (forall q | q !in fs && None !in Possible(c.d0, q) :: q == [] || !HasDir(fs, Parent(q)))
  }

  /** Whatever may be found during the copy might have been found before it, or is what the copy makes. */
  lemma MidwayShows(c: Copy, d: Disk, q: Path, node: Node)
    requires Fits(c) && Midway(c, d) && MayShow(d, q, node)
    ensures || MayShow(c.d0, q, node)
            || (q == c.p && node == c.file && Replaceable(c) && Some(FileRef(c.id)) in Possible(d, c.p))
            || (q == c.t && node.File?)
            || (q !in c.d0.names && q != c.p && q != c.t && node.Dir? && Under(q, Parent(c.p)))
    ensures node.Dir? || node.File?
  {
    var ref :| Some(ref) in Possible(d, q) && MayHold(d, ref, node);
    assert AllowedEntry(c, d, q, Some(ref));
    if Some(ref) in Possible(c.d0, q) {
      assert ref.FileRef? ==> ref.id in c.d0.files;
      assert MayHold(c.d0, ref, node);
    }
  }

  /** No name can vanish in the copy that could not vanish before it. */
  lemma NoNameLost(c: Copy, d: Disk, q: Path)
    requires Fits(c) && Midway(c, d) && None !in Possible(c.d0, q)
    ensures None !in Possible(d, q)
  {
    assert q != c.t by { assert NameOf(c.d0, c.t) == None; }
    assert !AllowedEntry(c, d, q, None);
  }

  /** At every point of the copy a power failure leaves the old possibilities or the complete new file. */
  lemma MidwayIsSafe(c: Copy, d: Disk, fs: Fs)
    requires Fits(c) && Midway(c, d) && Outcome(d, fs)
    ensures Recovered(c, fs)
  {
    forall q | q in fs
      ensures || MayShow(c.d0, q, fs[q])
              || (q == c.p && fs[q] == c.file && Replaceable(c))
              || (q == c.t && fs[q].File?)
              || (q !in c.d0.names && q != c.p && q != c.t && fs[q].Dir? && Under(q, Parent(c.p)))
      ensures fs[q].Dir? || fs[q].File?
    {
      MidwayShows(c, d, q, fs[q]);
    }
    forall q | q !in fs && None !in Possible(c.d0, q) ensures q == [] || !HasDir(fs, Parent(q)) {
      NoNameLost(c, d, q);
    }
  }

  lemma CleanShows(d: Disk, q: Path)
    requires Clean(d)
    ensures forall node | MayShow(d, q, node) :: q in d.names && node == View(d)[q]
  {
    if q in d.names && d.names[q].FileRef? { assert Some(FileRef(d.names[q].id)) in Possible(d, q); }
  }

  /** What may be found under a name of a clean disk. */
  lemma CleanFound(c: Copy, fs: Fs, q: Path)
    requires Fits(c) && Clean(c.d0) && Recovered(c, fs) && q in c.d0.names && q != [] && HasDir(fs, Parent(q))
    ensures q in fs && (fs[q] == View(c.d0)[q] || (q == c.p && fs[q] == c.file && Replaceable(c)))
  {
    hide MayShow;
    hide IsTree;
    CleanShows(c.d0, q);
    assert None !in Possible(c.d0, q);
  }

  lemma {:induction false} CleanNameStays(c: Copy, fs: Fs, q: Path)
    requires Fits(c) && Clean(c.d0) && Recovered(c, fs) && q in c.d0.names
    ensures q in fs && (fs[q] == View(c.d0)[q] || (q == c.p && fs[q] == c.file && Replaceable(c)))
    decreases |q|
  {
    hide Recovered;
    assert q in View(c.d0) && HasDir(View(c.d0), Parent(q));
    if Parent(q) != [] {
      CleanNameStays(c, fs, Parent(q));
      assert NameOf(c.d0, Parent(q)) in Possible(c.d0, Parent(q));
    }
    CleanFound(c, fs, q);
  }

  /** With nothing in flight before: the complete old or the complete new file, and everything else untouched. */
  lemma RecoveredFromClean(c: Copy, fs: Fs)
    requires Fits(c) && Clean(c.d0) && Recovered(c, fs)
    ensures forall q | q in View(c.d0) && q != c.p :: q in fs && fs[q] == View(c.d0)[q]
    ensures c.p in View(c.d0) ==> c.p in fs
    ensures c.p in fs ==> fs[c.p] == c.file || (c.p in View(c.d0) && fs[c.p] == View(c.d0)[c.p])
    ensures forall q | q in fs && q !in View(c.d0) && q != c.p && q != c.t :: fs[q].Dir? && Under(q, Parent(c.p))
  {
    forall q | q in View(c.d0)
      ensures q in fs && (fs[q] == View(c.d0)[q] || (q == c.p && fs[q] == c.file))
    {
      CleanNameStays(c, fs, q);
    }
    forall q | q in fs ensures forall node | MayShow(c.d0, q, node) :: q in View(c.d0) && node == View(c.d0)[q] {
      CleanShows(c.d0, q);
    }
  }

  // ----- each call keeps the copy within bounds -----

  /** The target's name is as it was, and does not lead to the new file yet. */
  ghost predicate BeforeRename(c: Copy, d: Disk) {
    NameOf(d, c.p) == NameOf(c.d0, c.p) && Some(FileRef(c.id)) !in Possible(d, c.p)
  }

  lemma PossibleAfterSetName(d: Disk, q: Path, ref: Option<Ref>)
    ensures forall x :: Possible(SetName(d, q, ref), x) == if x == q then Possible(d, q) + {ref} else Possible(d, x)
  {
  }

  lemma SetNameMidway(c: Copy, d: Disk, q: Path, ref: Option<Ref>)
    requires Fits(c) && Midway(c, d) && AllowedEntry(c, d, q, ref)
    requires q == c.p || q == c.t || NewDir(c, q, ref)
    requires ref.Some? && ref.value.FileRef? ==> ref.value.id in d.files
    ensures Midway(c, SetName(d, q, ref))
  {
    PossibleAfterSetName(d, q, ref);
    var d' := SetName(d, q, ref);
    forall x, e | e in Possible(d', x) ensures AllowedEntry(c, d', x, e) {
      assert AllowedEntry(c, d, x, e);
    }
    forall x | x != c.p && x != c.t ensures NameOf(d', x) == NameOf(c.d0, x) || NewDir(c, x, NameOf(d', x)) {
      assert x != q ==> NameOf(d', x) == NameOf(d, x);
    }
  }

  lemma SetFileMidway(c: Copy, d: Disk, node: Node)
    requires Fits(c) && Midway(c, d) && BeforeRename(c, d) && node.File?
    ensures Midway(c, SetFile(d, c.id, node)) && BeforeRename(c, SetFile(d, c.id, node))
  {
    var d' := SetFile(d, c.id, node);
    assert forall x :: Possible(d', x) == Possible(d, x);
    forall x, e | e in Possible(d', x) ensures AllowedEntry(c, d', x, e) {
      assert AllowedEntry(c, d, x, e);
    }
  }

  lemma SyncFileMidway(c: Copy, d: Disk)
    requires Fits(c) && Midway(c, d) && BeforeRename(c, d) && c.id in d.files
    ensures Midway(c, SyncFile(d, c.id)) && BeforeRename(c, SyncFile(d, c.id))
  {
    var d' := SyncFile(d, c.id);
    assert forall x :: Possible(d', x) == Possible(d, x);
    forall x, e | e in Possible(d', x) ensures AllowedEntry(c, d', x, e) {
      assert AllowedEntry(c, d, x, e);
    }
  }

  lemma RenameMidway(c: Copy, d: Disk)
    requires Fits(c) && Midway(c, d) && Replaceable(c)
    requires NameOf(d, c.t) == Some(FileRef(c.id)) && c.id in d.files && d.files[c.id] == Inode(c.file, true)
    ensures Midway(c, RenameFile(d, c.t, c.p))
  {
    SetNameMidway(c, d, c.p, Some(FileRef(c.id)));
    SetNameMidway(c, SetName(d, c.p, Some(FileRef(c.id))), c.t, None);
  }

  lemma SyncDirectoryMidway(c: Copy, d: Disk)
    requires Fits(c) && Midway(c, d)
    ensures Midway(c, SyncDirectory(d, Parent(c.p)))
  {
    var d' := SyncDirectory(d, Parent(c.p));
    assert forall x :: Possible(d', x) <= Possible(d, x) && NameOf(d', x) == NameOf(d, x);
    forall x | x !in c.d0.names && x != c.p && x != c.t ensures None in Possible(d', x) {
      assert None in Possible(d, x);
      assert NameOf(d, x) == None || NewDir(c, x, NameOf(d, x));
    }
    forall x, e | e in Possible(d', x) ensures AllowedEntry(c, d', x, e) {
      assert AllowedEntry(c, d, x, e);
    }
  }

  lemma StartMidway(c: Copy)
    requires Fits(c)
    ensures Midway(c, c.d0) && BeforeRename(c, c.d0)
  {
    assert forall q, i | Some(FileRef(i)) in Possible(c.d0, q) :: i in c.d0.files;
  }

  lemma MidwayWellFormed(c: Copy, d: Disk)
    requires c.p != [] && Midway(c, d)
    ensures WellFormed(d)
  {
  }

  // ----- what the running processes see -----

  /** New directories on the way to `dir`, and all else as it was. */
  ghost predicate DirsAdded(a: Fs, b: Fs, dir: Path, perm: Perm) {
    && (forall q | q in a :: q in b && b[q] == a[q])
    && (forall q | q in b && q !in a :: q != [] && Under(q, dir) && b[q] == Dir(perm))
  }

  /** Beside the temporary file, which only the temporary name leads to, the tree is `base`. */
  ghost predicate Shows(c: Copy, d: Disk, base: Fs) {
    && WellFormed(d) && c.t !in base && View(d) - {c.t} == base
    && (c.t in d.names ==> d.names[c.t] == FileRef(c.id))
    && (forall q | q in d.names && d.names[q] == FileRef(c.id) :: q == c.t)
  }

  lemma ViewAfterSetName(d: Disk, q: Path, ref: Option<Ref>)
    requires WellFormed(d) && WellFormed(SetName(d, q, ref)) && (ref.Some? && ref.value.FileRef? ==> ref.value.id in d.files)
    ensures View(SetName(d, q, ref)) == if ref.Some? then View(d)[q := NodeOf(d, ref.value)] else View(d) - {q}
  {
  }

  lemma StartShows(c: Copy)
    requires Fits(c)
    ensures Shows(c, c.d0, View(c.d0))
  {
    forall q | q in c.d0.names ensures c.d0.names[q] != FileRef(c.id) {
      assert Some(c.d0.names[q]) in Possible(c.d0, q);
    }
    assert View(c.d0) - {c.t} == View(c.d0);
  }

  lemma ReplacedTree(base: Fs, p: Path, file: Node)
    requires IsTree(base) && p != [] && HasDir(base, Parent(p)) && !(p in base && base[p].Dir?)
    ensures IsTree(base[p := file])
  {
    forall q | q in base[p := file] ensures q != [] && HasDir(base[p := file], Parent(q)) {
      if q != p { assert HasDir(base, Parent(q)); }
    }
  }

  lemma NothingMade(a: Fs, dir: Path, perm: Perm)
    ensures DirsAdded(a, a, dir, perm)
    ensures HasDir(a, dir) ==> MkdirAll(a, dir, perm) == Some(a)
  {
  }

  lemma OneMade(a: Fs, b: Fs, dir: Path, perm: Perm)
    requires dir != [] && DirsAdded(a, b, Parent(dir), perm)
    ensures DirsAdded(a, b, dir, perm)
    ensures dir !in a && dir !in b ==> DirsAdded(a, b[dir := Dir(perm)], dir, perm)
    ensures dir !in a && MkdirAll(a, Parent(dir), perm) == Some(b) ==> MkdirAll(a, dir, perm) == Some(b[dir := Dir(perm)])
    ensures dir !in b && IsTree(b) && HasDir(b, Parent(dir)) ==> IsTree(b[dir := Dir(perm)])
  {
    forall q | Under(q, Parent(dir)) ensures Under(q, dir) { UnderParent(q, dir); }
    if dir !in b && IsTree(b) && HasDir(b, Parent(dir)) { ReplacedTree(b, dir, Dir(perm)); }
  }

  /** Neither writing the temporary file nor any sync shows. */
  lemma FileShows(c: Copy, d: Disk, base: Fs, d': Disk)
    requires Shows(c, d, base) && WellFormed(d') && d'.names == d.names
    requires forall i | i in d.files && i != c.id :: i in d'.files && d'.files[i].now == d.files[i].now
    ensures Shows(c, d', base)
  {
    forall q | q in d.names && d.names[q].FileRef? ensures d.names[q].id in d.files {
      assert Some(FileRef(d.names[q].id)) in Possible(d, q);
    }
    assert View(d') - {c.t} == base;
  }

  lemma TempShows(c: Copy, d: Disk, base: Fs, ref: Option<Ref>)
    requires Shows(c, d, base) && WellFormed(SetName(d, c.t, ref)) && (ref == None || (ref == Some(FileRef(c.id)) && c.id in d.files))
    ensures Shows(c, SetName(d, c.t, ref), base)
  {
    ViewAfterSetName(d, c.t, ref);
    assert View(SetName(d, c.t, ref)) - {c.t} == base;
  }

  lemma DirShows(c: Copy, d: Disk, base: Fs, dir: Path, perm: Perm)
    requires Shows(c, d, base) && WellFormed(SetName(d, dir, Some(DirRef(perm)))) && dir != c.t
    ensures Shows(c, SetName(d, dir, Some(DirRef(perm))), base[dir := Dir(perm)])
  {
    ViewAfterSetName(d, dir, Some(DirRef(perm)));
    assert View(SetName(d, dir, Some(DirRef(perm)))) - {c.t} == base[dir := Dir(perm)];
  }

  /** The rename puts the file in the target's place. */
  lemma RenameShows(c: Copy, d: Disk, base: Fs)
    requires Shows(c, d, base) && c.p != c.t && c.t in d.names && c.id in d.files && d.files[c.id].now == c.file
    requires WellFormed(RenameFile(d, c.t, c.p))
    ensures View(RenameFile(d, c.t, c.p)) == base[c.p := c.file]
  {
    var d1 := SetName(d, c.p, Some(FileRef(c.id)));
    NameKeepsWellFormed(d, c.p, Some(FileRef(c.id)));
    ViewAfterSetName(d, c.p, Some(FileRef(c.id)));
    ViewAfterSetName(d1, c.t, None);
    hide View;
    hide WellFormed;
    assert View(RenameFile(d, c.t, c.p)) == View(d)[c.p := c.file] - {c.t};
    assert View(d)[c.p := c.file] - {c.t} == (View(d) - {c.t})[c.p := c.file];
  }

  lemma NameKeepsWellFormed(d: Disk, q: Path, ref: Option<Ref>)
    requires WellFormed(d) && (ref.Some? && ref.value.FileRef? ==> ref.value.id in d.files)
    ensures WellFormed(SetName(d, q, ref))
  {
    PossibleAfterSetName(d, q, ref);
  }

  /** The new file stands where it belongs, over what was not a directory. */
  ghost predicate Replaced(c: Copy, d: Disk, base: Fs) {
    WellFormed(d) && c.t !in d.names && View(d) == base[c.p := c.file] && !(c.p in base && base[c.p].Dir?)
  }

  lemma ReplacedIsReplace(c: Copy, d: Disk, base: Fs, parentPerm: Perm)
    requires Fits(c) && Replaced(c, d, base) && MkdirAll(View(c.d0), Parent(c.p), parentPerm) == Some(base)
    ensures Replace(View(c.d0), c.p, c.file, parentPerm) == Some(View(d))
    ensures IsTree(base) && HasDir(base, Parent(c.p)) ==> IsTree(View(d))
  {
    if IsTree(base) && HasDir(base, Parent(c.p)) { ReplacedTree(base, c.p, c.file); }
  }

  lemma SyncShows(d: Disk, dir: Path)
    requires WellFormed(d) && WellFormed(SyncDirectory(d, dir))
    ensures View(SyncDirectory(d, dir)) == View(d)
  {
  }

  /** What a copy that failed may leave to be seen: nothing of it, or all of it. */
  ghost predicate Attempted(c: Copy, d: Disk, parentPerm: Perm)
    requires Fits(c) && WellFormed(d)
  {
    || Replace(View(c.d0), c.p, c.file, parentPerm) == Some(View(d))
    || (DirsAdded(View(c.d0), View(d) - {c.t}, Parent(c.p), parentPerm) && (c.t in View(d) ==> View(d)[c.t].File?))
  }

  lemma ShowsAttempted(c: Copy, d: Disk, base: Fs, parentPerm: Perm)
    requires Fits(c) && Shows(c, d, base) && DirsAdded(View(c.d0), base, Parent(c.p), parentPerm)
    ensures Attempted(c, d, parentPerm)
  {
    if c.t in d.names { assert Some(FileRef(c.id)) in Possible(d, c.t); }
  }

  /** A tree stays a tree, with the temporary file or without. */
  lemma ShowsTree(c: Copy, d: Disk, base: Fs)
    requires Fits(c) && Shows(c, d, base) && IsTree(base) && (c.t in d.names ==> HasDir(base, Parent(c.t)))
    ensures IsTree(View(d))
  {
    forall q | q in View(d) ensures q != [] && HasDir(View(d), Parent(q)) {
      if q != c.t { assert q in base; }
      assert HasDir(base, Parent(q));
    }
  }

  // ----- the procedure -----

  /** A running system; `trace` records every state it passes through. */
  class Machine {
    var d: Disk
    ghost var trace: seq<Disk>

    constructor (start: Disk)
      ensures d == start && trace == [start]
    {
      d := start;
      trace := [start];
    }

    method Set(next: Disk)
      modifies this
      ensures d == next && trace == old(trace) + [next]
    {
      d := next;
      trace := trace + [next];
    }
  }

  /** The states recorded since `before` all lie within the bounds of the copy. */
  ghost predicate Continues(c: Copy, before: seq<Disk>, after: seq<Disk>)
    requires c.p != []
  {
    before <= after && forall i | |before| <= i < |after| :: Midway(c, after[i])
  }

  lemma ContinuesTransitive(c: Copy, a: seq<Disk>, b: seq<Disk>, d: seq<Disk>)
    requires c.p != [] && Continues(c, a, b) && Continues(c, b, d)
    ensures Continues(c, a, d)
  {
    forall i | |a| <= i < |d| ensures Midway(c, d[i]) {
      if i < |b| { assert d[i] == b[i]; }
    }
  }

  /** os.MkdirAll, one directory at a time; any call may fail. */
  method MkdirAllOn(m: Machine, dir: Path, perm: Perm, ghost c: Copy) returns (ok: bool)
    requires Fits(c) && Midway(c, m.d) && BeforeRename(c, m.d) && Under(dir, Parent(c.p))
    requires NameOf(m.d, c.t) == None && Shows(c, m.d, View(m.d))
    modifies m
    ensures Midway(c, m.d) && BeforeRename(c, m.d) && NameOf(m.d, c.t) == None
    ensures NameOf(m.d, c.p) == NameOf(old(m.d), c.p)
    ensures Continues(c, old(m.trace), m.trace)
    ensures forall q | q in old(m.d).names :: q in m.d.names && m.d.names[q] == old(m.d).names[q]
    ensures m.d.files == old(m.d).files
    ensures Shows(c, m.d, View(m.d)) && DirsAdded(View(old(m.d)), View(m.d), dir, perm)
    ensures ok ==> MkdirAll(View(old(m.d)), dir, perm) == Some(View(m.d))
    ensures IsTree(View(old(m.d))) ==> IsTree(View(m.d)) && (ok ==> HasDir(View(m.d), dir))
    decreases |dir|
  {
    hide MkdirAll;
    hide DirsAdded;
    hide IsTree;
    hide View;
    NothingMade(View(m.d), dir, perm);
    if dir == [] {
      return true;
    }
    if dir in m.d.names {
      ViewedName(m.d, dir);
      return m.d.names[dir].DirRef?;
    }
    ok := MkdirAllOn(m, Parent(dir), perm, c);
    OneMade(View(old(m.d)), View(m.d), dir, perm);
    var fault: bool := *;
    if !ok || fault || dir in m.d.names {
      return false;
    }
    ViewedName(old(m.d), dir);
    ViewedName(m.d, dir);
    MakeOne(m, dir, perm, c);
    return true;
  }

  lemma ViewedName(d: Disk, q: Path)
    requires WellFormed(d)
    ensures q in View(d) <==> q in d.names
    ensures q in d.names && d.names[q].DirRef? ==> View(d)[q].Dir?
  {
  }

  /** os.Mkdir */
  method MakeOne(m: Machine, dir: Path, perm: Perm, ghost c: Copy)
    requires Fits(c) && Midway(c, m.d) && BeforeRename(c, m.d) && dir != [] && Under(dir, Parent(c.p))
    requires dir !in m.d.names
    requires NameOf(m.d, c.t) == None && Shows(c, m.d, View(m.d))
    modifies m
    ensures Midway(c, m.d) && BeforeRename(c, m.d) && NameOf(m.d, c.t) == None
    ensures NameOf(m.d, c.p) == NameOf(old(m.d), c.p)
    ensures Continues(c, old(m.trace), m.trace)
    ensures m.d == SetName(old(m.d), dir, Some(DirRef(perm)))
    ensures View(m.d) == View(old(m.d))[dir := Dir(perm)] && Shows(c, m.d, View(m.d))
  {
    assert NewDir(c, dir, Some(DirRef(perm))) by {
      assert NameOf(m.d, dir) == NameOf(c.d0, dir);
    }
    SetNameMidway(c, m.d, dir, Some(DirRef(perm)));
    PossibleAfterSetName(m.d, dir, Some(DirRef(perm)));
    ViewAfterSetName(m.d, dir, Some(DirRef(perm)));
    DirShows(c, m.d, View(m.d), dir, perm);
    m.Set(SetName(m.d, dir, Some(DirRef(perm))));
  }

  const TEMP_PERM: Perm := 0x180 // 0600

  /** The deferred os.Remove of the temporary name; its error is ignored. */
  method RemoveTemp(m: Machine, t: Path, ghost c: Copy, ghost base: Fs)
    requires Fits(c) && Midway(c, m.d) && t == c.t
    modifies m
    ensures Midway(c, m.d) && NameOf(m.d, c.p) == NameOf(old(m.d), c.p)
    ensures Continues(c, old(m.trace), m.trace)
    ensures NameOf(old(m.d), c.t) == None ==> m.d == old(m.d)
    ensures Shows(c, old(m.d), base) ==> Shows(c, m.d, base)
  {
    var fault: bool := *;
    if t in m.d.names && !fault {
      SetNameMidway(c, m.d, t, None);
      if Shows(c, m.d, base) { TempShows(c, m.d, base, None); }
      m.Set(SetName(m.d, t, None));
    }
  }

  /** io.Copy into the temporary file, chunk by chunk. */
  method FillTemp(m: Machine, input: seq<Byte>, id: nat, ghost c: Copy, ghost base: Fs) returns (ok: bool)
    requires Fits(c) && Midway(c, m.d) && BeforeRename(c, m.d) && id == c.id && Shows(c, m.d, base)
    requires id in m.d.files && m.d.files[id].now.File? && m.d.files[id].now.data == []
    modifies m
    ensures Midway(c, m.d) && BeforeRename(c, m.d) && Shows(c, m.d, base)
    ensures Continues(c, old(m.trace), m.trace)
    ensures m.d.names == old(m.d).names
    ensures id in m.d.files && m.d.files[id].now.File? && (ok ==> m.d.files[id].now.data == input)
  {
    var k := 0;
    while k < |input|
      invariant 0 <= k <= |input|
      invariant Midway(c, m.d) && BeforeRename(c, m.d) && Shows(c, m.d, base)
      invariant Continues(c, old(m.trace), m.trace)
      invariant m.d.names == old(m.d).names
      invariant id in m.d.files && m.d.files[id].now.File? && m.d.files[id].now.data == input[..k]
    {
      var n: nat :| k < n <= |input|;
      var fault: bool := *;
      if fault {
        return false;
      }
      var node := m.d.files[id].now;
      WriteTemp(m, id, node.(data := node.data + input[k..n]), c, base);
      k := n;
    }
    assert input[..k] == input;
    return true;
  }

  /** The copy is complete, visible under the target's name, and its directory is synced. */
  ghost predicate Done(c: Copy, d: Disk)
    requires c.p != []
  {
    && Midway(c, d)
    && NameOf(d, c.p) == Some(FileRef(c.id)) && c.id in d.files && d.files[c.id] == Inode(c.file, true)
    && NameOf(d, c.t) == None
    && Possible(d, c.p) == {NameOf(d, c.p)} && Possible(d, c.t) == {None}
  }

  /**
    AtomicCopyFile. `t` and `id` are what os.CreateTemp picks, `born` the time it
    stamps; `input` is what reading the source yields. Any call may fail.
   */
  method AtomicCopyFile(m: Machine, input: seq<Byte>, p: Path, perm: Perm, mtime: Time, parentPerm: Perm,
                        t: Path, id: nat, born: Time, dryRun: bool) returns (ok: bool, ghost c: Copy)
    requires WellFormed(m.d) && p != [] && t != [] && t != p && Parent(t) == Parent(p)
    requires t !in m.d.names && id !in m.d.files
    modifies m
    ensures c == Copy(old(m.d), p, File(perm, mtime, input), t, id) && Fits(c)
    ensures dryRun ==> ok && m.d == old(m.d)
    ensures old(m.trace) <= m.trace
    ensures forall i, fs | |old(m.trace)| <= i < |m.trace| && Outcome(m.trace[i], fs) :: Recovered(c, fs)
    ensures Midway(c, m.d)
    ensures ok && !dryRun ==> Done(c, m.d) && Replace(View(old(m.d)), p, c.file, parentPerm) == Some(View(m.d))
    ensures !ok ==> Attempted(c, m.d, parentPerm)
    ensures IsTree(View(old(m.d))) ==> IsTree(View(m.d))
  {
    hide Replace;
    hide Attempted;
    hide IsTree;
    c := Copy(m.d, p, File(perm, mtime, input), t, id);
    StartMidway(c);
    if dryRun {
      return true, c;
    }
    ok := CopySteps(m, input, p, perm, mtime, parentPerm, t, id, born, c);
    forall i, fs | |old(m.trace)| <= i < |m.trace| && Outcome(m.trace[i], fs) ensures Recovered(c, fs) {
      MidwayIsSafe(c, m.trace[i], fs);
    }
  }

  method CopySteps(m: Machine, input: seq<Byte>, p: Path, perm: Perm, mtime: Time, parentPerm: Perm,
                   t: Path, id: nat, born: Time, ghost c: Copy) returns (ok: bool)
    requires Fits(c) && m.d == c.d0 && Midway(c, m.d) && BeforeRename(c, m.d)
    requires c == Copy(m.d, p, File(perm, mtime, input), t, id)
    modifies m
    ensures Continues(c, old(m.trace), m.trace)
    ensures Midway(c, m.d)
    ensures ok ==> Done(c, m.d) && Replace(View(c.d0), p, c.file, parentPerm) == Some(View(m.d))
    ensures Attempted(c, m.d, parentPerm) && (IsTree(View(c.d0)) ==> IsTree(View(m.d)))
  {
    hide MkdirAll;
    hide DirsAdded;
    hide IsTree;
    hide Replace;
    hide View;
    StartShows(c);
    var made := MkdirAllOn(m, Parent(p), parentPerm, c);
    ghost var base := View(m.d);
    var fault: bool := *;
    if !made || fault {
      ShowsAttempted(c, m.d, base, parentPerm);
      return false;
    }
    ghost var t1 := m.trace;
    CreateTemp(m, t, id, born, c, base);
    ghost var t2 := m.trace;
    ContinuesTransitive(c, old(m.trace), t1, t2);
    ok := FillRenameSync(m, input, p, perm, mtime, t, id, c, base);
    ghost var t3 := m.trace;
    ContinuesTransitive(c, old(m.trace), t2, t3);
    RemoveTemp(m, t, c, base);
    ContinuesTransitive(c, old(m.trace), t3, m.trace);
    LeftByCopy(c, m.d, base, parentPerm);
  }

  lemma LeftByCopy(c: Copy, d: Disk, base: Fs, parentPerm: Perm)
    requires Fits(c) && MkdirAll(View(c.d0), Parent(c.p), parentPerm) == Some(base)
    requires DirsAdded(View(c.d0), base, Parent(c.p), parentPerm) && (Shows(c, d, base) || Replaced(c, d, base))
    requires IsTree(View(c.d0)) ==> IsTree(base) && HasDir(base, Parent(c.p))
    ensures Attempted(c, d, parentPerm) && (IsTree(View(c.d0)) ==> IsTree(View(d)))
    ensures Replaced(c, d, base) ==> Replace(View(c.d0), c.p, c.file, parentPerm) == Some(View(d))
  {
    if Replaced(c, d, base) {
      ReplacedIsReplace(c, d, base, parentPerm);
    } else {
      ShowsAttempted(c, d, base, parentPerm);
      if IsTree(View(c.d0)) { ShowsTree(c, d, base); }
    }
  }

  /** os.CreateTemp: a new empty file under a new name. */
  method CreateTemp(m: Machine, t: Path, id: nat, born: Time, ghost c: Copy, ghost base: Fs)
    requires Fits(c) && Midway(c, m.d) && BeforeRename(c, m.d) && t == c.t && id == c.id && Shows(c, m.d, base)
    modifies m
    ensures Continues(c, old(m.trace), m.trace)
    ensures Midway(c, m.d) && BeforeRename(c, m.d)
    ensures NameOf(m.d, t) == Some(FileRef(id)) && id in m.d.files && m.d.files[id].now == File(TEMP_PERM, born, [])
    ensures Shows(c, m.d, base)
  {
    WriteTemp(m, id, File(TEMP_PERM, born, []), c, base);
    SetNameMidway(c, m.d, t, Some(FileRef(id)));
    PossibleAfterSetName(m.d, t, Some(FileRef(id)));
    TempShows(c, m.d, base, Some(FileRef(id)));
    m.Set(SetName(m.d, t, Some(FileRef(id))));
  }

  method FillRenameSync(m: Machine, input: seq<Byte>, p: Path, perm: Perm, mtime: Time,
                        t: Path, id: nat, ghost c: Copy, ghost base: Fs) returns (ok: bool)
    requires Fits(c) && Midway(c, m.d) && BeforeRename(c, m.d) && Shows(c, m.d, base)
    requires c == Copy(c.d0, p, File(perm, mtime, input), t, id)
    requires NameOf(m.d, t) == Some(FileRef(id)) && id in m.d.files && m.d.files[id].now.File?
    requires m.d.files[id].now.data == []
    modifies m
    ensures Continues(c, old(m.trace), m.trace)
    ensures Midway(c, m.d)
    ensures ok ==> Done(c, m.d) && Replaced(c, m.d, base)
    ensures Shows(c, m.d, base) || Replaced(c, m.d, base)
  {
    hide View;
    ok := FillTemp(m, input, id, c, base);
    var fault: bool := *;
    if !ok || fault {
      return false;
    }
    ghost var t1 := m.trace;
    ok := StampTemp(m, perm, mtime, id, c, base);
    ghost var t2 := m.trace;
    ContinuesTransitive(c, old(m.trace), t1, t2);
    if !ok {
      return false;
    }
    ok := RenameSync(m, p, t, id, c, base);
    ContinuesTransitive(c, old(m.trace), t2, m.trace);
  }

  /** Chmod, Chtimes and Sync on the temporary file. */
  method StampTemp(m: Machine, perm: Perm, mtime: Time, id: nat, ghost c: Copy, ghost base: Fs) returns (ok: bool)
    requires Fits(c) && Midway(c, m.d) && BeforeRename(c, m.d) && Shows(c, m.d, base)
    requires id == c.id && c.file == File(perm, mtime, c.file.data)
    requires id in m.d.files && m.d.files[id].now.File? && m.d.files[id].now.data == c.file.data
    modifies m
    ensures Continues(c, old(m.trace), m.trace)
    ensures Midway(c, m.d) && m.d.names == old(m.d).names && Shows(c, m.d, base)
    ensures ok ==> BeforeRename(c, m.d) && id in m.d.files && m.d.files[id] == Inode(c.file, true)
  {
    hide Shows;
    hide Midway;
    hide BeforeRename;
    var node := m.d.files[id].now;
    WriteTemp(m, id, node.(perm := perm), c, base);
    var fault: bool := *;
    if fault {
      return false;
    }
    WriteTemp(m, id, node.(perm := perm, mtime := mtime), c, base);
    fault := *;
    if fault {
      return false;
    }
    SyncFileMidway(c, m.d);
    MidwayWellFormed(c, SyncFile(m.d, id));
    FileShows(c, m.d, base, SyncFile(m.d, id));
    m.Set(SyncFile(m.d, id));
    return true;
  }

  /** One change of the temporary file. */
  method WriteTemp(m: Machine, id: nat, node: Node, ghost c: Copy, ghost base: Fs)
    requires Fits(c) && Midway(c, m.d) && BeforeRename(c, m.d) && Shows(c, m.d, base) && id == c.id && node.File?
    modifies m
    ensures m.d == SetFile(old(m.d), id, node) && m.trace == old(m.trace) + [m.d]
    ensures Midway(c, m.d) && BeforeRename(c, m.d) && Shows(c, m.d, base)
  {
    hide Shows;
    hide Midway;
    SetFileMidway(c, m.d, node);
    MidwayWellFormed(c, SetFile(m.d, id, node));
    FileShows(c, m.d, base, SetFile(m.d, id, node));
    m.Set(SetFile(m.d, id, node));
  }

  /** Syncing the target's directory completes the copy. */
  lemma SyncedIsDone(c: Copy, d: Disk)
    requires Fits(c) && Midway(c, d) && NameOf(d, c.p) == Some(FileRef(c.id)) && NameOf(d, c.t) == None
    requires c.id in d.files && d.files[c.id] == Inode(c.file, true)
    ensures Midway(c, SyncDirectory(d, Parent(c.p))) && Done(c, SyncDirectory(d, Parent(c.p)))
  {
    hide Midway;
    SyncDirectoryMidway(c, d);
  }

  lemma NotOverDirectory(c: Copy, d: Disk, base: Fs)
    requires Shows(c, d, base) && c.p != c.t && !(c.p in d.names && d.names[c.p].DirRef?)
    ensures !(c.p in base && base[c.p].Dir?)
  {
    assert c.p in base ==> c.p in d.names && base[c.p] == View(d)[c.p];
    if c.p in d.names && d.names[c.p].FileRef? { assert Some(FileRef(d.names[c.p].id)) in Possible(d, c.p); }
  }

  /** The rename onto the target, and the sync of its directory. */
  method RenameSync(m: Machine, p: Path, t: Path, id: nat, ghost c: Copy, ghost base: Fs) returns (ok: bool)
    requires Shows(c, m.d, base) && Fits(c) && Midway(c, m.d) && BeforeRename(c, m.d) && p == c.p && t == c.t
    requires id == c.id
    requires NameOf(m.d, t) == Some(FileRef(id)) && id in m.d.files && m.d.files[id] == Inode(c.file, true)
    modifies m
    ensures Continues(c, old(m.trace), m.trace)
    ensures Midway(c, m.d)
    ensures ok ==> Done(c, m.d) && Replaced(c, m.d, base)
    ensures Shows(c, m.d, base) || Replaced(c, m.d, base)
  {
    hide View;
    hide Shows;
    hide Midway;
    hide Done;
    var fault: bool := *;
    if fault || (p in m.d.names && m.d.names[p].DirRef?) {
      return false;
    }
    assert Replaceable(c) by { assert NameOf(m.d, c.p) == NameOf(c.d0, c.p); }
    MidwayWellFormed(c, m.d);
    RenameMidway(c, m.d);
    MidwayWellFormed(c, RenameFile(m.d, t, p));
    RenameShows(c, m.d, base);
    NotOverDirectory(c, m.d, base);
    m.Set(RenameFile(m.d, t, p));
    fault := *;
    if fault {
      return false;
    }
    SyncedIsDone(c, m.d);
    MidwayWellFormed(c, SyncDirectory(m.d, Parent(p)));
    SyncShows(m.d, Parent(p));
    m.Set(SyncDirectory(m.d, Parent(p)));
    return true;
  }

  // ----- what success is worth -----

  /** A completed copy is there in every outcome that still has the target's directory, and the temporary name is not. */
  lemma SettledTarget(c: Copy, d: Disk, fs: Fs)
    requires Fits(c) && Done(c, d) && Outcome(d, fs) && HasDir(fs, Parent(c.p))
    ensures c.p in fs && fs[c.p] == c.file && c.t !in fs
  {
    assert None !in Possible(d, c.p);
    var ref :| Some(ref) in Possible(d, c.p) && MayHold(d, ref, fs[c.p]);
    assert forall r :: Some(r) !in Possible(d, c.t);
  }

  /** After a power failure `a` is a directory, if its parent is. */
  ghost predicate SettledDir(d: Disk, a: Path) {
    forall e | e in Possible(d, a) :: e.Some? && e.value.DirRef?
  }

  lemma {:induction false} SettledWay(d: Disk, fs: Fs, dir: Path)
    requires Outcome(d, fs) && forall a | a != [] && Under(a, dir) :: SettledDir(d, a)
    ensures HasDir(fs, dir)
    decreases |dir|
  {
    if dir != [] {
      forall a | Under(a, Parent(dir)) ensures Under(a, dir) { UnderParent(a, dir); }
      SettledWay(d, fs, Parent(dir));
      assert Under(dir, dir) && SettledDir(d, dir);
      assert None !in Possible(d, dir);
      assert dir in fs && MayShow(d, dir, fs[dir]);
    }
  }

  /** The tree without `a` and what is below it, or with something else in its place. */
  ghost function Cut(view: Fs, a: Path, node: Option<Node>): Fs {
    var rest := map q | q in view && !Under(a, q) :: view[q];
    if node.Some? then rest[a := node.value] else rest
  }

  lemma CutIsTree(view: Fs, a: Path, node: Option<Node>)
    requires IsTree(view) && a in view
    ensures IsTree(Cut(view, a, node))
  {
    var fs := Cut(view, a, node);
    forall q | q in fs ensures q != [] && HasDir(fs, Parent(q)) {
      assert q in view && HasDir(view, Parent(q));
      UnderParent(a, q);
    }
  }

  lemma ViewMayShow(d: Disk, q: Path)
    requires WellFormed(d) && q in d.names
    ensures MayShow(d, q, View(d)[q])
  {
    assert NameOf(d, q) in Possible(d, q);
    assert MayHold(d, d.names[q], View(d)[q]);
  }

  /** Where a directory on the way may be missing or a file, a power failure may leave exactly that. */
  lemma UnsettledWay(d: Disk, a: Path, e: Option<Ref>) returns (fs: Fs)
    requires WellFormed(d) && IsTree(View(d)) && a in d.names && e in Possible(d, a) && !(e.Some? && e.value.DirRef?)
    ensures Outcome(d, fs) && !HasDir(fs, a) && forall q | q in fs :: !(a < q)
  {
    hide IsTree;
    hide MayShow;
    var view, node := View(d), if e.Some? then Some(d.files[e.value.id].now) else None;
    assert a in view && a != [] by { assert IsTree(view); ViewedRoot(view, a); }
    fs := Cut(view, a, node);
    CutIsTree(view, a, node);
    forall q | q in fs ensures MayShow(d, q, fs[q]) {
      if q == a { EntryMayShow(d, a, e); } else { ViewMayShow(d, q); }
    }
    forall q | q !in fs && None !in Possible(d, q) ensures q == [] || !HasDir(fs, Parent(q)) {
      assert NameOf(d, q) in Possible(d, q);
      assert q in view && q != a && Under(a, q);
      if q != [] { UnderParent(a, q); }
    }
  }

  lemma ViewedRoot(view: Fs, a: Path)
    requires IsTree(view) && a in view
    ensures a != []
  {
  }

  lemma EntryMayShow(d: Disk, a: Path, e: Option<Ref>)
    requires WellFormed(d) && e in Possible(d, a) && e.Some? && e.value.FileRef?
    ensures e.value.id in d.files && d.files[e.value.id].now.File? && MayShow(d, a, d.files[e.value.id].now)
  {
    assert Some(FileRef(e.value.id)) in Possible(d, a);
    assert MayHold(d, e.value, d.files[e.value.id].now);
  }

  /**
    A completed copy survives every power failure exactly when every directory on the
    way to it is settled; what processes see is a tree.
   */
  lemma DurableExactly(c: Copy, d: Disk)
    requires Fits(c) && Done(c, d) && IsTree(View(d))
    ensures (forall fs | Outcome(d, fs) :: c.p in fs && fs[c.p] == c.file && c.t !in fs) <==>
            (forall a | a != [] && Under(a, Parent(c.p)) :: SettledDir(d, a))
  {
    if forall a | a != [] && Under(a, Parent(c.p)) :: SettledDir(d, a) {
      forall fs | Outcome(d, fs) ensures c.p in fs && fs[c.p] == c.file && c.t !in fs {
        SettledWay(d, fs, Parent(c.p));
        SettledTarget(c, d, fs);
      }
    } else {
      var a :| a != [] && Under(a, Parent(c.p)) && !SettledDir(d, a);
      var e :| e in Possible(d, a) && !(e.Some? && e.value.DirRef?);
      assert c.p in View(d);
      assert a < c.p by { UnderParent(a, c.p); }
      AncestorIsDir(View(d), a, c.p);
      var fs := UnsettledWay(d, a, e);
      assert c.p !in fs;
    }
  }

  /** Directories that were settled before the copy stay so. */
  lemma SettledStays(c: Copy, d: Disk, a: Path)
    requires Fits(c) && Midway(c, d) && SettledDir(c.d0, a)
    ensures SettledDir(d, a)
  {
    assert NameOf(c.d0, a) in Possible(c.d0, a) && NameOf(c.d0, c.t) in Possible(c.d0, c.t);
    forall e | e in Possible(d, a) ensures e.Some? && e.value.DirRef? {
      assert AllowedEntry(c, d, a, e);
    }
  }

  /** If the way was settled before, no power failure takes a completed copy back. */
  lemma DoneIsDurable(c: Copy, d: Disk, fs: Fs)
    requires Fits(c) && Done(c, d) && Outcome(d, fs)
    requires forall a | a != [] && Under(a, Parent(c.p)) :: SettledDir(c.d0, a)
    ensures c.p in fs && fs[c.p] == c.file && c.t !in fs
  {
    forall a | a != [] && Under(a, Parent(c.p)) ensures SettledDir(d, a) {
      SettledStays(c, d, a);
    }
    SettledWay(d, fs, Parent(c.p));
    SettledTarget(c, d, fs);
  }

  /**
    If the copy had to create the target's directory, that directory's own name was
    never synced, and a power failure may still undo the copy.
   */
  lemma DoneMayVanish(c: Copy, d: Disk) returns (fs: Fs)
    requires Fits(c) && Done(c, d) && IsTree(View(d))
    requires Parent(c.p) != [] && Parent(c.p) !in c.d0.names
    ensures Outcome(d, fs) && c.p !in fs
  {
    var dir := Parent(c.p);
    assert c.p in View(d) && HasDir(View(d), dir);
    assert dir != c.p && dir != c.t;
    fs := UnsettledWay(d, dir, None);
    assert dir < c.p;
  }
}
