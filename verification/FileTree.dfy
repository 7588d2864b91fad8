/**
  File systems as finite trees: the root directory is implicit, every other
  object is found by its cleaned relative path.
 */
module FileTree {

  import opened Wrappers
  import opened Paths

  type Perm = bv9
  type Time = int
  type Byte = bv8

  datatype Node =
    | Dir(perm: Perm)
    | File(perm: Perm, mtime: Time, data: seq<Byte>)
    | Symlink
    | Special

  type Fs = map<Path, Node>

  /** Every object sits in an existing directory. */
  ghost predicate IsTree(fs: Fs) {
    forall p | p in fs :: p != [] && HasDir(fs, Parent(p))
  }

  predicate HasDir(fs: Fs, p: Path) {
    p == [] || (p in fs && fs[p].Dir?)
  }

  /** Only directories and regular files. */
  ghost predicate Plain(fs: Fs) {
    forall p | p in fs :: fs[p].Dir? || fs[p].File?
  }

  lemma {:induction false} AncestorIsDir(fs: Fs, p: Path, q: Path)
    requires IsTree(fs) && q in fs && p < q
    ensures HasDir(fs, p)
  {
    assert HasDir(fs, Parent(q));
    if p != Parent(q) {
      AncestorIsDir(fs, p, Parent(q));
    }
  }

  /** Nothing lies below an object that is absent or is not a directory. */
  lemma NothingBelow(fs: Fs, p: Path)
    requires IsTree(fs) && !HasDir(fs, p)
    ensures forall q | q in fs :: !(p < q)
  {
    forall q | q in fs
      ensures !(p < q)
    {
      if p < q {
        AncestorIsDir(fs, p, q);
      }
    }
  }

  // ----- operations on a tree without symbolic links -----

  /** os.MkdirAll: fails exactly when something on the way is not a directory. */
  function MkdirAll(fs: Fs, p: Path, perm: Perm): Option<Fs>
    decreases |p|
  {
    if p == [] then Some(fs)
    else if p in fs then (if fs[p].Dir? then Some(fs) else None)
    else match MkdirAll(fs, Parent(p), perm)
      case None => None
      case Some(g) => Some(g[p := Dir(perm)])
  }

  /** What os.MkdirAll leaves: the missing ancestors as new directories, all else as it was. */
  ghost predicate Extended(fs: Fs, p: Path, perm: Perm, g: Fs) {
    && (forall q :: q in g <==> q in fs || (q != [] && Under(q, p)))
    && (forall q | q in g :: g[q] == if q in fs then fs[q] else Dir(perm))
  }

  lemma AncestorsAreDirs(fs: Fs, p: Path)
    requires IsTree(fs) && HasDir(fs, p)
    ensures forall q | Under(q, p) :: HasDir(fs, q)
  {
    forall q | Under(q, p)
      ensures HasDir(fs, q)
    {
      if q != p { AncestorIsDir(fs, q, p); }
    }
  }

  lemma {:induction false} MkdirAllMeaning(fs: Fs, p: Path, perm: Perm)
    requires IsTree(fs)
    ensures MkdirAll(fs, p, perm).Some? <==> forall q | q in fs && Under(q, p) :: fs[q].Dir?
    ensures MkdirAll(fs, p, perm).Some? ==> Extended(fs, p, perm, MkdirAll(fs, p, perm).value)
    decreases |p|
  {
    if HasDir(fs, p) {
      AncestorsAreDirs(fs, p);
      assert forall q | q in fs && Under(q, p) :: HasDir(fs, q);
    } else if p !in fs {
      MkdirAllMeaning(fs, Parent(p), perm);
      forall q
        ensures Under(q, p) <==> q == p || Under(q, Parent(p))
      {
        UnderParent(q, p);
      }
    }
  }

  lemma ExtendedIsTree(fs: Fs, p: Path, perm: Perm, g: Fs)
    requires IsTree(fs) && Extended(fs, p, perm, g)
    requires forall q | q in fs && Under(q, p) :: fs[q].Dir?
    ensures IsTree(g) && HasDir(g, p)
    ensures Plain(fs) ==> Plain(g)
  {
    assert Under(p, p);
    forall q | q in g
      ensures q != [] && HasDir(g, Parent(q))
    {
      if q in fs {
        assert HasDir(fs, Parent(q));
      } else {
        UnderParent(Parent(q), q);
        assert Under(Parent(q), p);
      }
    }
  }

  /** An existing parent is enough: nothing else is created. */
  lemma MkdirAllExistingParent(fs: Fs, p: Path, perm: Perm)
    requires IsTree(fs) && p != [] && HasDir(fs, Parent(p))
    ensures MkdirAll(fs, Parent(p), perm) == Some(fs)
    ensures p !in fs ==> MkdirAll(fs, p, perm) == Some(fs[p := Dir(perm)])
  {
  }

  function Without(fs: Fs, p: Path): Fs {
    map q | q in fs && !Under(p, q) :: fs[q]
  }

  /** os.RemoveAll: removing what is absent succeeds; a non-directory on the way is an error. */
  function RemoveAll(fs: Fs, p: Path): Option<Fs> {
    if exists k: nat :: k < |p| && p[..k] in fs && !fs[p[..k]].Dir? then None else Some(Without(fs, p))
  }

  lemma WithoutIsTree(fs: Fs, p: Path)
    requires IsTree(fs) && p != []
    ensures IsTree(Without(fs, p))
    ensures Plain(fs) ==> Plain(Without(fs, p))
  {
    forall q | q in Without(fs, p)
      ensures q != [] && HasDir(Without(fs, p), Parent(q))
    {
      assert HasDir(fs, Parent(q));
      UnderParent(p, q);
    }
  }

  /** Replacing a file by an atomic rename: a directory in the way is an error. */
  function Replace(fs: Fs, p: Path, file: Node, parentPerm: Perm): Option<Fs>
    requires p != []
  {
    match MkdirAll(fs, Parent(p), parentPerm)
    case None => None
    case Some(g) => if p in g && g[p].Dir? then None else Some(g[p := file])
  }
}
