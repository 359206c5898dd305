/** What staging builds and what renaming it into place leaves. */
module Staging {
  import opened Ordering
  import opened FileTree
  import opened Custody

  lemma {:induction false} BuiltHas(base: Path, items: seq<Item>, q: Path)
    ensures q in Built(base, items) <==> q == base || exists i :: 0 <= i < |items| && q == base + [items[i].name]
  {
    if items != [] {
      var init, last := items[..|items| - 1], items[|items| - 1];
      BuiltHas(base, init, q);
      if q == base + [last.name] { assert items[|items| - 1] == last; }
      if q in Built(base, init) && q != base {
        var i :| 0 <= i < |init| && q == base + [init[i].name];
        assert items[i] == init[i];
      }
    }
  }

  lemma {:induction false} BuiltNode(base: Path, items: seq<Item>, i: nat)
    requires DistinctNames(items) && i < |items|
    ensures base + [items[i].name] in Built(base, items) && Built(base, items)[base + [items[i].name]] == NodeOf(items[i])
  {
    var init := items[..|items| - 1];
    if i < |init| {
      BuiltNode(base, init, i);
      assert base + [items[i].name] != base + [items[|items| - 1].name] by {
        assert (base + [items[i].name])[|base|] == items[i].name;
        assert (base + [items[|items| - 1].name])[|base|] == items[|items| - 1].name;
      }
    }
  }

  lemma {:induction false} BuiltBase(base: Path, items: seq<Item>)
    ensures base in Built(base, items) && Built(base, items)[base] == Dir(PRIVATE_DIR)
  {
    if items != [] {
      BuiltBase(base, items[..|items| - 1]);
      assert |base + [items[|items| - 1].name]| == |base| + 1;
    }
  }

  /** `t` with a directory staged or published at `base`. */
  function With(t: Custodied, base: Path, items: seq<Item>): Custodied {
    t + Built(base, items)
  }

  lemma WithNextItem(t: Custodied, base: Path, items: seq<Item>, i: nat)
    requires i < |items|
    ensures With(t, base, items[..i])[base + [items[i].name] := NodeOf(items[i])] == With(t, base, items[..i + 1])
  {
    assert items[..i + 1][..i] == items[..i];
  }

  lemma NextItemIsNew(t: Custodied, base: Path, items: seq<Item>, i: nat)
    requires Rooted(t) && base !in t && base != [] && DistinctNames(items) && i < |items|
    ensures base + [items[i].name] !in With(t, base, items[..i])
  {
    var q := base + [items[i].name];
    assert q[|base|] == items[i].name;
    BuiltHas(base, items[..i], q);
    forall j | 0 <= j < i ensures q != base + [items[j].name] {
      assert (base + [items[j].name])[|base|] == items[j].name;
    }
    if q in t { AncestorsExist(t, base, q); }
  }

  /** Whatever is added under a new directory, the rest of the tree is as it was. */
  lemma OutsideWith(t: Custodied, base: Path, items: seq<Item>)
    requires Rooted(t) && base !in t
    ensures Outside(With(t, base, items), base) == t
  {
    forall q ensures q in Outside(With(t, base, items), base) <==> q in t {
      BuiltHas(base, items, q);
      if q in t && base <= q { AncestorsExist(t, base, q); }
    }
    forall q | q in t ensures With(t, base, items)[q] == t[q] {
      BuiltHas(base, items, q);
      if base <= q { AncestorsExist(t, base, q); }
    }
  }

  lemma WithIsRooted(t: Custodied, base: Path, items: seq<Item>)
    requires Rooted(t) && base != [] && base !in t && Parent(base) in t && t[Parent(base)].Dir?
    ensures Rooted(With(t, base, items))
  {
    var w := With(t, base, items);
    BuiltBase(base, items);
    BuiltHas(base, items, []);
    BuiltHas(base, items, Parent(base));
    forall q | q in w && q != [] ensures Parent(q) in w && w[Parent(q)].Dir? {
      BuiltHas(base, items, q);
      BuiltHas(base, items, Parent(q));
      if q in t {
        if base <= q { AncestorsExist(t, base, q); }
        if base <= Parent(q) { AncestorsExist(t, base, Parent(q)); }
      }
    }
  }

  /** One more file appearing under the staging directory, whatever its bytes. */
  lemma TornItem(t: Custodied, base: Path, items: seq<Item>, i: nat, b: Bytes<Payload>)
    requires Rooted(t) && base != [] && base !in t && Parent(base) in t && t[Parent(base)].Dir?
    requires DistinctNames(items) && i < |items|
    ensures var w := With(t, base, items[..i])[base + [items[i].name] := File(SEALED_FILE, b)];
            Rooted(w) && Outside(w, base) == t
  {
    var w, p := With(t, base, items[..i]), base + [items[i].name];
    WithIsRooted(t, base, items[..i]);
    BuiltBase(base, items[..i]);
    OutsideWith(t, base, items[..i]);
    NextItemIsNew(t, base, items, i);
    assert Parent(p) == base && base <= p;
    RootedAdd(w, p, File(SEALED_FILE, b));
    assert Outside(w[p := File(SEALED_FILE, b)], base) == Outside(w, base);
  }

  lemma Siblings(parent: Path, a: string, b: string)
    requires a != b
    ensures !(parent + [a] <= parent + [b]) && Parent(parent + [a]) == parent && parent + [a] != []
  {
    assert (parent + [a])[|parent|] == a && (parent + [b])[|parent|] == b;
  }

  lemma Apart(t: Custodied, a: Path, b: Path)
    requires Rooted(t) && a !in t && a != b && b != [] && Parent(b) in t
    ensures !(a <= b)
  {
    if a <= b && a != b {
      assert a <= Parent(b);
      AncestorsExist(t, a, Parent(b));
    }
  }

  lemma ParentIsBeside(src: Path, dst: Path)
    requires dst != []
    ensures !(src <= dst) ==> !(src <= Parent(dst))
  {
    assert src <= Parent(dst) ==> src == Parent(dst)[..|src|] == dst[..|src|];
  }

  lemma StagedCanRename(t: Custodied, src: Path, dst: Path, items: seq<Item>)
    requires Rooted(t) && src != dst && src != [] && dst != []
    requires Parent(src) in t && Parent(dst) in t && t[Parent(dst)].Dir? && src !in t && dst !in t
    ensures CanRename(With(t, src, items), src, dst) && !(src <= dst) && !(dst <= src)
  {
    Apart(t, src, dst);
    Apart(t, dst, src);
    BuiltBase(src, items);
    BuiltHas(src, items, dst);
    BuiltHas(src, items, Parent(dst));
    ParentIsBeside(src, dst);
  }

  lemma OutsideLookup(t: Custodied, base: Path, items: seq<Item>, q: Path)
    requires Rooted(t) && base !in t && !(base <= q)
    ensures q in With(t, base, items) <==> q in t
    ensures q in t ==> With(t, base, items)[q] == t[q]
  {
    OutsideWith(t, base, items);
    assert q in Outside(With(t, base, items), base) <==> q in With(t, base, items);
  }

  lemma RenamedAt(t: Custodied, src: Path, dst: Path, items: seq<Item>, q: Path)
    requires Rooted(t) && src != dst && src != [] && dst != []
    requires Parent(src) in t && t[Parent(src)].Dir? && Parent(dst) in t && t[Parent(dst)].Dir? && src !in t && dst !in t
    ensures var m, v := Moved(With(t, src, items), src, dst), With(t, dst, items);
            (q in m <==> q in v) && (q in m && q in v ==> m[q] == v[q])
  {
    hide Moved, CanRename, Built, With;
    var w := With(t, src, items);
    StagedCanRename(t, src, dst, items);
    if dst <= q {
      var r := q[|dst|..];
      assert q == dst + r;
      WithIsRooted(t, src, items);
      MovedLookup(w, src, dst, r);
      SameUnder(t, src, dst, items, r);
    } else {
      MovedElsewhere(w, src, dst, q);
      OutsideLookup(t, dst, items, q);
      if src <= q {
        if q in t { AncestorsExist(t, src, q); }
      } else {
        OutsideLookup(t, src, items, q);
      }
    }
  }

  /** Renaming a fully staged directory onto an absent path in a directory publishes exactly its items. */
  lemma RenamePublishes(t: Custodied, src: Path, dst: Path, items: seq<Item>)
    requires Rooted(t) && src != dst && src != [] && dst != []
    requires Parent(src) in t && t[Parent(src)].Dir? && Parent(dst) in t && t[Parent(dst)].Dir? && src !in t && dst !in t
    ensures CanRename(With(t, src, items), src, dst)
    ensures Moved(With(t, src, items), src, dst) == With(t, dst, items)
  {
    hide Moved, CanRename, Built, With;
    StagedCanRename(t, src, dst, items);
    var m, v := Moved(With(t, src, items), src, dst), With(t, dst, items);
    forall q ensures (q in m <==> q in v) && (q in m && q in v ==> m[q] == v[q]) {
      RenamedAt(t, src, dst, items, q);
    }
  }

  lemma SameUnder(t: Custodied, src: Path, dst: Path, items: seq<Item>, r: Path)
    requires Rooted(t) && src !in t && dst !in t
    ensures src + r in With(t, src, items) <==> dst + r in With(t, dst, items)
    ensures src + r in With(t, src, items) && dst + r in With(t, dst, items) ==>
              With(t, src, items)[src + r] == With(t, dst, items)[dst + r]
  {
    if src + r in t { AncestorsExist(t, src, src + r); }
    if dst + r in t { AncestorsExist(t, dst, dst + r); }
    SameBuilt(src, dst, items, r);
  }

  lemma {:induction false} SameBuilt(src: Path, dst: Path, items: seq<Item>, r: Path)
    ensures src + r in Built(src, items) <==> dst + r in Built(dst, items)
    ensures src + r in Built(src, items) && dst + r in Built(dst, items) ==> Built(src, items)[src + r] == Built(dst, items)[dst + r]
  {
    if items == [] {
      assert src + r == src <==> r == [];
      assert dst + r == dst <==> r == [];
    } else {
      var name := items[|items| - 1].name;
      SameBuilt(src, dst, items[..|items| - 1], r);
      assert (src + r)[|src|..] == r && (src + [name])[|src|..] == [name];
      assert (dst + r)[|dst|..] == r && (dst + [name])[|dst|..] == [name];
    }
  }

  lemma WithIsComplete(t: Custodied, base: Path, items: seq<Item>)
    requires Rooted(t) && base !in t && base != [] && DistinctNames(items)
    ensures Complete(With(t, base, items), base, items)
  {
    var w := With(t, base, items);
    BuiltBase(base, items);
    forall i | 0 <= i < |items| ensures base + [items[i].name] in w && w[base + [items[i].name]] == NodeOf(items[i]) {
      BuiltNode(base, items, i);
    }
    forall name | name in Names(w, base) ensures exists i :: 0 <= i < |items| && items[i].name == name {
      NameIn(w, base, name);
      var q := base + [name];
      BuiltHas(base, items, q);
      if q in t { AncestorsExist(t, base, q); }
      var i :| 0 <= i < |items| && q == base + [items[i].name];
      assert q[|base|] == name;
    }
  }
}
