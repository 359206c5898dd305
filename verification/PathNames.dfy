/** Path texts as the operating system resolves them in a directory tree: components between
    separators, dots and two dots among them, and the length a component may have. */
module PathNames {
  import opened Outcomes
  import opened Ordering
  import opened FileTree

  /** The components of a path text, empty ones included. */
  function Split(s: string): (r: seq<string>)
    ensures r != []
  {
    if s == "" then [""]
    else
      var rest := Split(s[1..]);
      if s[0] == '/' then [""] + rest else [[s[0]] + rest[0]] + rest[1..]
  }

  lemma {:induction false} SplitFlat(s: string)
    requires '/' !in s
    ensures Split(s) == [s]
  {
    if s != "" {
      SplitFlat(s[1..]);
      assert s == [s[0]] + s[1..];
    }
  }

  lemma {:induction false} SplitFirst(a: string, b: string)
    requires '/' !in a
    ensures Split(a + "/" + b) == [a] + Split(b)
  {
    var s := a + "/" + b;
    if a == "" {
      assert s[1..] == b;
    } else {
      SplitFirst(a[1..], b);
      assert s[1..] == a[1..] + "/" + b && s[0] == a[0];
      assert [a[0]] + a[1..] == a;
    }
  }

  /** The components with `tail` at the end of the last. */
  function Lengthened(parts: seq<string>, tail: string): seq<string>
    requires parts != []
  {
    parts[..|parts| - 1] + [parts[|parts| - 1] + tail]
  }

  lemma LengthenLater(x: string, parts: seq<string>, tail: string)
    requires parts != []
    ensures Lengthened([x] + parts, tail) == [x] + Lengthened(parts, tail)
  {}

  lemma LengthenFirst(c: char, parts: seq<string>, tail: string)
    requires parts != []
    ensures Lengthened([[c] + parts[0]] + parts[1..], tail) == [[c] + Lengthened(parts, tail)[0]] + Lengthened(parts, tail)[1..]
  {
    if |parts| == 1 { assert [c] + (parts[0] + tail) == ([c] + parts[0]) + tail; }
  }

  /** A text without a separator appended belongs to the last component. */
  lemma {:induction false} SplitAppend(s: string, tail: string)
    requires '/' !in tail
    ensures Split(s + tail) == Lengthened(Split(s), tail)
  {
    hide Lengthened;
    if s == "" {
      SplitFlat(tail);
      assert "" + tail == tail;
      assert Lengthened([""], tail) == ["" + tail] by { LengthenOnly(tail); }
    } else {
      SplitAppend(s[1..], tail);
      assert (s + tail)[1..] == s[1..] + tail && (s + tail)[0] == s[0];
      LengthenLater("", Split(s[1..]), tail);
      LengthenFirst(s[0], Split(s[1..]), tail);
    }
  }

  lemma LengthenOnly(tail: string)
    ensures Lengthened([""], tail) == ["" + tail]
  {}

  // ---------- lengths ----------

  /** The longest name a directory entry may have, in bytes. */
  const NAME_MAX: nat := 255

  /** The bytes of a character in UTF-8 (section 3 of RFC 3629). */
  function Utf8(c: char): seq<nat> {
    var n := c as int;
    if n < 0x80 then [n]
    else if n < 0x800 then [0xC0 + n / 64, 0x80 + n % 64]
    else if n < 0x1_0000 then [0xE0 + n / 64 / 64, 0x80 + n / 64 % 64, 0x80 + n % 64]
    else [0xF0 + n / 64 / 64 / 64, 0x80 + n / 64 / 64 % 64, 0x80 + n / 64 % 64, 0x80 + n % 64]
  }

  /** The character read back from bytes with a lead that tells how many follow. */
  function Utf8Value(bytes: seq<int>): int
    requires 1 <= |bytes| <= 4
  {
    match |bytes|
    case 1 => bytes[0]
    case 2 => (bytes[0] - 0xC0) * 64 + (bytes[1] - 0x80)
    case 3 => (bytes[0] - 0xE0) * 4096 + (bytes[1] - 0x80) * 64 + (bytes[2] - 0x80)
    case _ => (bytes[0] - 0xF0) * 262144 + (bytes[1] - 0x80) * 4096 + (bytes[2] - 0x80) * 64 + (bytes[3] - 0x80)
  }

  /** The bytes are a lead of its own range and six bits in each that follows, the fewest that hold the character. */
  lemma Utf8Means(c: char)
    ensures var bytes := Utf8(c);
            && 1 <= |bytes| <= 4 && Utf8Value(bytes) == c as int
            && (forall i :: 0 < i < |bytes| ==> 0x80 <= bytes[i] < 0xC0)
            && (match |bytes|
                case 1 => bytes[0] < 0x80
                case 2 => 0xC2 <= bytes[0] < 0xE0
                case 3 => 0xE0 <= bytes[0] < 0xF0 && (bytes[0] == 0xE0 ==> bytes[1] >= 0xA0)
                case _ => 0xF0 <= bytes[0] < 0xF8 && (bytes[0] == 0xF0 ==> bytes[1] >= 0x90))
  {
    SixBits(c as int);
    SixBits(c as int / 64);
    SixBits(c as int / 64 / 64);
  }

  lemma SixBits(n: nat)
    ensures n == 64 * (n / 64) + n % 64 && 0 <= n % 64 < 64
  {}

  /** The length of a text in UTF-8. */
  function ByteCount(s: string): nat {
    if s == "" then 0 else |Utf8(s[0])| + ByteCount(s[1..])
  }

  lemma {:induction false} BytesAdd(a: string, b: string)
    ensures ByteCount(a + b) == ByteCount(a) + ByteCount(b)
  {
    if a == "" {
      assert a + b == b;
    } else {
      BytesAdd(a[1..], b);
      assert (a + b)[1..] == a[1..] + b;
    }
  }

  // ---------- resolving ----------

  /** A name that is one component of a path and leads to an entry of its own. */
  predicate IsComponent(name: string) {
    name != "" && name != "." && name != ".." && '/' !in name && '\0' !in name
  }

  /** Where a walk from directory `from` arrives, each component on the way a directory. A walk above
      the root arrives nowhere in this tree. */
  function Walk<P>(t: Tree<P>, from: Path, parts: seq<string>): Option<Path>
    decreases |parts|
  {
    if parts == [] then Some(from)
    else if parts[0] == "" || parts[0] == "." then Walk(t, from, parts[1..])
    else if parts[0] == ".." then if from == [] then None else Walk(t, Parent(from), parts[1..])
    else if from + [parts[0]] in t && t[from + [parts[0]]].Dir? then Walk(t, from + [parts[0]], parts[1..])
    else None
  }

  /** The path meant by components from `from`: all but the last walked, the last an entry or not. */
  function Resolve<P>(t: Tree<P>, from: Path, parts: seq<string>): Option<Path> {
    if parts == [] then Some(from)
    else
      var last := parts[|parts| - 1];
      match Walk(t, from, parts[..|parts| - 1])
      case None => None
      case Some(dir) =>
        if last == "" || last == "." then Some(dir)
        else if last == ".." then if dir == [] then None else Some(Parent(dir))
        else Some(dir + [last])
  }

  /** Joining drops the components that stay in place. */
  function Moving(parts: seq<string>): seq<string> {
    if parts == [] then []
    else (if parts[0] == "" || parts[0] == "." then [] else [parts[0]]) + Moving(parts[1..])
  }

  lemma {:induction false} MovingMembers(parts: seq<string>)
    ensures forall p :: p in Moving(parts) ==> p in parts && p != "" && p != "."
  {
    if parts != [] { MovingMembers(parts[1..]); }
  }

  /** Without two dots a walk only goes down. */
  lemma {:induction false} WalkGoesDown<P>(t: Tree<P>, from: Path, parts: seq<string>)
    requires ".." !in parts
    ensures Walk(t, from, parts).Some? ==> from <= Walk(t, from, parts).value
    decreases |parts|
  {
    if parts != [] {
      if parts[0] == "" || parts[0] == "." {
        WalkGoesDown(t, from, parts[1..]);
      } else {
        WalkGoesDown(t, from + [parts[0]], parts[1..]);
      }
    }
  }

  lemma ResolvesBelow<P>(t: Tree<P>, from: Path, parts: seq<string>)
    requires ".." !in parts && parts != [] && parts[|parts| - 1] != "" && parts[|parts| - 1] != "."
    ensures Resolve(t, from, parts).Some? ==> from < Resolve(t, from, parts).value
  {
    WalkGoesDown(t, from, parts[..|parts| - 1]);
  }

  lemma ResolvesWithin<P>(t: Tree<P>, from: Path, parts: seq<string>)
    requires forall p :: p in parts ==> p != "" && p != "." && p != ".."
    ensures Resolve(t, from, parts).Some? ==> from <= Resolve(t, from, parts).value
  {
    if parts != [] {
      assert parts[|parts| - 1] in parts;
      ResolvesBelow(t, from, parts);
    }
  }

  /** A dot, or nothing between separators, stays; two dots go to the parent; either way the walk goes on. */
  lemma WalksOn<P>(t: Tree<P>, from: Path, rest: seq<string>)
    ensures Walk(t, from, ["."] + rest) == Walk(t, from, rest) == Walk(t, from, [""] + rest)
    ensures from != [] ==> Walk(t, from, [".."] + rest) == Walk(t, Parent(from), rest)
  {
    assert (["."] + rest)[1..] == rest && ([""] + rest)[1..] == rest && ([".."] + rest)[1..] == rest;
  }

  /** A walk through directories by their own names arrives at the last. */
  lemma {:induction false} WalksThrough<P>(t: Tree<P>, from: Path, parts: seq<string>)
    requires forall k :: 0 <= k < |parts| ==> IsComponent(parts[k]) && from + parts[..k + 1] in t && t[from + parts[..k + 1]].Dir?
    ensures Walk(t, from, parts) == Some(from + parts)
    decreases |parts|
  {
    if parts == [] {
      assert from + parts == from;
    } else {
      var next, rest := from + [parts[0]], parts[1..];
      assert parts[..1] == [parts[0]];
      forall k | 0 <= k < |rest|
        ensures IsComponent(rest[k]) && next + rest[..k + 1] in t && t[next + rest[..k + 1]].Dir? {
        assert parts[k + 1] == rest[k] && parts[..k + 2] == [parts[0]] + rest[..k + 1];
        assert next + rest[..k + 1] == from + parts[..k + 2];
      }
      WalksThrough(t, next, rest);
      assert next + rest == from + parts;
    }
  }

  lemma ResolvesNothing<P>(t: Tree<P>, from: Path)
    ensures Resolve(t, from, []) == Some(from)
  {}

  lemma ResolvesOne<P>(t: Tree<P>, from: Path, name: string)
    ensures name != "" && name != "." && name != ".." ==> Resolve(t, from, [name]) == Some(from + [name])
    ensures name == "" || name == "." ==> Resolve(t, from, [name]) == Some(from)
    ensures from != [] ==> Resolve(t, from, [".."]) == Some(Parent(from))
  {
    assert [name][..0] == [];
    assert [".."][..0] == [];
  }

  /** Up and down again leads beside. */
  lemma ResolvesBeside<P>(t: Tree<P>, from: Path, name: string)
    requires from != [] && name != "" && name != "." && name != ".."
    ensures Resolve(t, from, ["..", name]) == Some(Parent(from) + [name])
  {
    assert ["..", name][..1] == [".."] && [".."][1..] == [];
    assert Walk(t, from, [".."]) == Walk(t, Parent(from), []);
  }

  lemma MovingDot(name: string)
    requires name != "" && name != "."
    ensures Moving([".", name]) == [name]
  {
    assert [".", name][1..] == [name] && [name][1..] == [] && Moving([]) == [];
    assert Moving([name]) == [name];
  }
}
