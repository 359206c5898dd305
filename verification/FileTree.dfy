/** A directory tree as a map from component paths to nodes, relative to the custody root, with
    the POSIX operations the publishers use. */
module FileTree {
  import opened Ordering

  /** What a file holds: nothing complete yet, or a payload. */
  datatype Bytes<P> = Partial | Whole(payload: P)

  datatype Node<P> = Dir(mode: nat) | File(mode: nat, bytes: Bytes<P>)

  type Tree<P> = map<Path, Node<P>>

  const PRIVATE_DIR: nat := 448  // octal 0700
  const SEALED_FILE: nat := 256  // octal 0400

  function Parent(p: Path): Path
    requires p != []
  {
    p[..|p| - 1]
  }

  /** Every node hangs under a directory, up to the root. */
  ghost predicate Rooted<P>(t: Tree<P>) {
    && [] in t && t[[]].Dir?
    && forall p :: p in t && p != [] ==> Parent(p) in t && t[Parent(p)].Dir?
  }

  predicate Empty<P>(t: Tree<P>, p: Path) {
    forall q :: q in t ==> !(p < q)
  }

  /** The names directly inside `p`. */
  function Names<P>(t: Tree<P>, p: Path): set<string> {
    set q | q in t && |q| == |p| + 1 && p < q :: q[|p|]
  }

  function Outside<P>(t: Tree<P>, p: Path): Tree<P> {
    map q | q in t && !(p <= q) :: t[q]
  }

  /** A rename of directory `src` succeeds onto an absent path or an empty directory, and fails
      onto anything else, in particular onto a directory with entries. */
  predicate CanRename<P>(t: Tree<P>, src: Path, dst: Path) {
    && src in t && t[src].Dir? && src != [] && dst != []
    && Parent(dst) in t && t[Parent(dst)].Dir?
    && !(src <= dst) && !(dst <= src)
    && (dst in t ==> t[dst].Dir? && Empty(t, dst))
  }

  /** Where the nodes of `src` land under `dst`. */
  function Landing<P>(t: Tree<P>, src: Path, dst: Path): (r: set<Path>)
    ensures forall q :: q in r <==> dst <= q && src + q[|dst|..] in t
  {
    var r := set x | x in t && src <= x :: dst + x[|src|..];
    assert forall x :: x in t && src <= x ==> (dst + x[|src|..])[|dst|..] == x[|src|..] && src + x[|src|..] == x;
    assert forall q :: dst <= q && src + q[|dst|..] in t ==>
        var x := src + q[|dst|..]; x[|src|..] == q[|dst|..] && dst + x[|src|..] == q;
    r
  }

  /** The subtree of `src` reappears at `dst`; everything else stays. */
  function Moved<P>(t: Tree<P>, src: Path, dst: Path): Tree<P> {
    Outside(t, src) + map q | q in Landing(t, src, dst) :: t[src + q[|dst|..]]
  }

  // ---------- facts ----------

  lemma {:induction false} AncestorsExist<P>(t: Tree<P>, p: Path, q: Path)
    requires Rooted(t) && q in t && p <= q
    ensures p in t && (p < q ==> t[p].Dir?)
    decreases |q|
  {
    if p == q {
    } else {
      assert p <= Parent(q);
      AncestorsExist(t, p, Parent(q));
      if p == Parent(q) { assert t[Parent(q)].Dir?; }
    }
  }

  lemma RootedAdd<P>(t: Tree<P>, p: Path, n: Node<P>)
    requires Rooted(t) && p != [] && Parent(p) in t && t[Parent(p)].Dir?
    requires p in t ==> n.Dir? || t[p].File?
    ensures Rooted(t[p := n])
  {}

  lemma RootedOutside<P>(t: Tree<P>, p: Path)
    requires Rooted(t) && p != []
    ensures Rooted(Outside(t, p))
  {
    var o := Outside(t, p);
    forall q | q in o && q != [] ensures Parent(q) in o && o[Parent(q)].Dir? {
      assert Parent(q) <= q;
      PrefixTrans(p, Parent(q), q);
    }
  }

  lemma PrefixTrans(a: Path, b: Path, c: Path)
    ensures a <= b && b <= c ==> a <= c
  {}

  lemma MovedLookup<P>(t: Tree<P>, src: Path, dst: Path, r: Path)
    requires Rooted(t) && CanRename(t, src, dst)
    ensures dst + r in Moved(t, src, dst) <==> src + r in t
    ensures src + r in t ==> Moved(t, src, dst)[dst + r] == t[src + r]
  {
    assert (dst + r)[|dst|..] == r;
    assert dst + r in Landing(t, src, dst) <==> src + r in t;
    if src + r !in t && dst + r in t {
      assert src in t && src + [] == src;
      AncestorsExist(t, dst, dst + r);
    }
  }

  lemma MovedElsewhere<P>(t: Tree<P>, src: Path, dst: Path, q: Path)
    requires !(dst <= q)
    ensures q in Moved(t, src, dst) <==> q in t && !(src <= q)
    ensures q in t && !(src <= q) ==> Moved(t, src, dst)[q] == t[q]
  {}

  /** An empty directory in the way does not stop a rename between siblings. */
  lemma EmptyIsReplaced<P>(t: Tree<P>, src: Path, dst: Path)
    requires Rooted(t) && src in t && dst in t && t[src].Dir? && t[dst].Dir?
    requires src != [] && dst != [] && src != dst && Parent(src) == Parent(dst)
    requires forall q :: q in t ==> !(dst < q)
    ensures CanRename(t, src, dst)
  {
    assert |src| == |dst|;
  }

  /** A rename that succeeds loses no file: each is where it was, or below the new name as it was below the old. */
  lemma RenameLosesNothing<P>(t: Tree<P>, src: Path, dst: Path, q: Path)
    requires Rooted(t) && CanRename(t, src, dst) && q in t && t[q].File?
    ensures var to := if src <= q then dst + q[|src|..] else q;
            to in Moved(t, src, dst) && Moved(t, src, dst)[to] == t[q]
  {
    hide Moved;
    if src <= q {
      assert q == src + q[|src|..];
      MovedLookup(t, src, dst, q[|src|..]);
    } else {
      assert !(dst <= q) by {
        if dst <= q { AncestorsExist(t, dst, q); }
        assert dst < q ==> !Empty(t, dst);
        assert dst <= q && |dst| == |q| ==> dst == q;
      }
      MovedElsewhere(t, src, dst, q);
    }
  }

  lemma ParentOfJoined(p: Path, r: Path)
    requires r != []
    ensures p + r != [] && Parent(p + r) == p + Parent(r)
  {}

  lemma ParentHeld<P>(t: Tree<P>, q: Path)
    requires Rooted(t) && q in t && q != []
    ensures Parent(q) in t && t[Parent(q)].Dir?
  {}

  lemma NotAboveParent(p: Path, q: Path)
    requires q != [] && !(p <= q)
    ensures !(p <= Parent(q))
  {
    PrefixTrans(p, Parent(q), q);
  }

  lemma MovedParent<P>(t: Tree<P>, src: Path, dst: Path, q: Path)
    requires Rooted(t) && CanRename(t, src, dst) && q in Moved(t, src, dst) && q != []
    ensures Parent(q) in Moved(t, src, dst) && Moved(t, src, dst)[Parent(q)].Dir?
  {
    hide Moved, Rooted;
    if dst < q {
      var r := q[|dst|..];
      assert q == dst + r;
      MovedLookup(t, src, dst, r);
      ParentOfJoined(src, r);
      ParentOfJoined(dst, r);
      ParentHeld(t, src + r);
      MovedLookup(t, src, dst, Parent(r));
    } else if q == dst {
      NotAboveParent(src, dst);
      assert !(dst <= Parent(dst));
      MovedElsewhere(t, src, dst, Parent(dst));
    } else {
      MovedElsewhere(t, src, dst, q);
      NotAboveParent(src, q);
      NotAboveParent(dst, q);
      ParentHeld(t, q);
      MovedElsewhere(t, src, dst, Parent(q));
    }
  }

  /** A rename that succeeds leaves every node under a directory. */
  lemma MovedIsRooted<P>(t: Tree<P>, src: Path, dst: Path)
    requires Rooted(t) && CanRename(t, src, dst)
    ensures Rooted(Moved(t, src, dst))
  {
    var m := Moved(t, src, dst);
    assert [] in m && m[[]].Dir? by {
      assert !(dst <= []) && !(src <= []);
      MovedElsewhere(t, src, dst, []);
    }
    forall q | q in m && q != [] ensures Parent(q) in m && m[Parent(q)].Dir? { MovedParent(t, src, dst, q); }
  }
}
