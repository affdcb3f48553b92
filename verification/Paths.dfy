/**
 * Paths as slices of a base string, their components and their equivalence (fs/path.c).
 */
module Paths {
  const MAX_LEN := 2048

  type Text = seq<char>

  /** The non-empty pieces between slashes; `piece` is the one under way. */
  function Pieces(s: Text, piece: Text): seq<Text>
    decreases |s|
  {
    if s == [] then (if piece == [] then [] else [piece])
    else if s[0] == '/' then (if piece == [] then [] else [piece]) + Pieces(s[1..], [])
    else Pieces(s[1..], piece + [s[0]])
  }

  function Components(s: Text): seq<Text> {
    Pieces(s, [])
  }

  predicate Slashes(s: Text) {
    forall k :: 0 <= k < |s| ==> s[k] == '/'
  }

  predicate NoSlash(s: Text) {
    forall k :: 0 <= k < |s| ==> s[k] != '/'
  }

  predicate NulFree(s: Text) {
    forall k :: 0 <= k < |s| ==> s[k] != '\0'
  }

  lemma {:induction false} LeadingSlashes(a: Text, s: Text)
    requires Slashes(a)
    ensures Components(a + s) == Components(s)
    decreases |a|
  {
    if a == [] {
      assert a + s == s;
    } else {
      assert (a + s)[1..] == a[1..] + s;
      LeadingSlashes(a[1..], s);
    }
  }

  lemma {:induction false} Collect(c: Text, s: Text, piece: Text)
    requires NoSlash(c) && (s == [] || s[0] == '/')
    ensures Pieces(c + s, piece) == (if piece + c == [] then [] else [piece + c]) + Components(s)
    decreases |c|
  {
    if c == [] {
      assert c + s == s && piece + c == piece;
    } else {
      assert (c + s)[1..] == c[1..] + s;
      Collect(c[1..], s, piece + [c[0]]);
      assert (piece + [c[0]]) + c[1..] == piece + c;
    }
  }

  /** Slashes, a component, and what starts with the next slash. */
  lemma FirstPiece(a: Text, c: Text, s: Text)
    requires Slashes(a) && NoSlash(c) && (s == [] || s[0] == '/')
    ensures Components(a + c + s) == (if c == [] then [] else [c]) + Components(s)
  {
    LeadingSlashes(a, c + s);
    assert a + c + s == a + (c + s);
    Collect(c, s, []);
    assert [] + c == c;
  }

  /** The characters of the components. */
  function Length(cs: seq<Text>): nat {
    if cs == [] then 0 else |cs[0]| + Length(cs[1..])
  }

  function NonSlashes(s: Text): nat {
    if s == [] then 0 else NonSlashes(s[1..]) + if s[0] == '/' then 0 else 1
  }

  /** No character of a component is lost or invented. */
  lemma {:induction false} PiecesLength(s: Text, piece: Text)
    ensures Length(Pieces(s, piece)) == |piece| + NonSlashes(s)
    decreases |s|
  {
    if s == [] {
    } else if s[0] == '/' {
      PiecesLength(s[1..], []);
      if piece == [] {
        assert [] + Pieces(s[1..], []) == Pieces(s[1..], []);
      } else {
        assert ([piece] + Pieces(s[1..], []))[1..] == Pieces(s[1..], []);
      }
    } else {
      PiecesLength(s[1..], piece + [s[0]]);
    }
  }

  lemma {:induction false} NonSlashesSum(a: Text, b: Text)
    ensures NonSlashes(a + b) == NonSlashes(a) + NonSlashes(b)
    decreases |a|
  {
    if a == [] {
      assert a + b == b;
    } else {
      assert (a + b)[1..] == a[1..] + b;
      NonSlashesSum(a[1..], b);
    }
  }

  lemma {:induction false} NonSlashesZero(s: Text)
    ensures NonSlashes(s) == 0 <==> Slashes(s)
  {
    if s != [] {
      NonSlashesZero(s[1..]);
      assert s[0] == '/' && Slashes(s[1..]) ==> Slashes(s);
      assert Slashes(s) ==> forall k :: 0 <= k < |s| - 1 ==> s[1..][k] == s[k + 1];
    }
  }

  /** Text behind a path adds no component exactly when it is all slashes. */
  lemma TrailingSlashes(s: Text, t: Text)
    ensures Components(s + t) == Components(s) <==> Slashes(t)
  {
    PiecesLength(s, []);
    PiecesLength(s + t, []);
    NonSlashesSum(s, t);
    NonSlashesZero(t);
    if Slashes(t) {
      TrailingPieces(s, t, []);
    }
  }

  lemma {:induction false} TrailingPieces(s: Text, t: Text, piece: Text)
    requires Slashes(t)
    ensures Pieces(s + t, piece) == Pieces(s, piece)
    decreases |s|
  {
    if s == [] {
      assert s + t == t;
      if t != [] {
        LeadingSlashes(t[1..], []);
        assert t[1..] + [] == t[1..];
      }
    } else {
      assert (s + t)[1..] == s[1..] + t;
      TrailingPieces(s[1..], t, if s[0] == '/' then [] else piece + [s[0]]);
    }
  }

  lemma {:induction false} PiecesAppend(s: Text, name: Text, piece: Text)
    requires name != [] && NoSlash(name)
    ensures Pieces(s + "/" + name, piece) == Pieces(s, piece) + [name]
    decreases |s|
  {
    var t := s + "/" + name;
    if s == [] {
      assert t == ['/'] + name && t[1..] == name + [];
      Collect(name, [], []);
      assert [] + name == name;
    } else {
      assert t[1..] == s[1..] + "/" + name && t[0] == s[0];
      PiecesAppend(s[1..], name, if s[0] == '/' then [] else piece + [s[0]]);
    }
  }

  /** A name behind a slash is one more component. */
  lemma AppendName(path: Text, name: Text)
    requires name != [] && NoSlash(name)
    ensures Components(path + "/" + name) == Components(path) + [name]
    ensures path != [] ==> Absolute(path + "/" + name) == Absolute(path)
  {
    PiecesAppend(path, name, []);
  }

  /** The names, each behind a slash. */
  function Joined(names: seq<Text>): Text {
    if names == [] then [] else Joined(names[..|names| - 1]) + "/" + names[|names| - 1]
  }

  /** Names that are joined by slashes are the components of the path. */
  lemma {:induction false} JoinRoundTrip(names: seq<Text>)
    requires forall k :: 0 <= k < |names| ==> names[k] != [] && NoSlash(names[k])
    ensures Components(Joined(names)) == names
  {
    if names != [] {
      var last := |names| - 1;
      JoinRoundTrip(names[..last]);
      AppendName(Joined(names[..last]), names[last]);
    }
  }

  lemma SameHead(c: Text, x: seq<Text>, y: seq<Text>)
    ensures [c] + x == [c] + y <==> x == y
  {
    assert ([c] + x)[1..] == x && ([c] + y)[1..] == y;
  }

  /** `first_x`: the first character that is a slash, or that is none. */
  method FirstX(s: Text, slash: bool) returns (n: nat)
    ensures n <= |s| && (n < |s| ==> (s[n] == '/') == slash)
    ensures if slash then NoSlash(s[..n]) else Slashes(s[..n])
  {
    n := 0;
    while n < |s| && (s[n] == '/') != slash
      invariant n <= |s| && forall k :: 0 <= k < n ==> (s[k] == '/') != slash
    {
      n := n + 1;
    }
  }

  /** A path: `size` characters of `base` from `offset`. */
  datatype Path = Path(base: Text, offset: nat, size: nat) {
    predicate Valid() {
      offset + size <= |base| <= MAX_LEN
    }

    function Str(): Text
      requires Valid()
    {
      base[offset..offset + size]
    }

    /** The path runs to the end of its base string. */
    predicate Whole() {
      offset + size == |base|
    }
  }

  predicate Absolute(s: Text) {
    s != [] && s[0] == '/'
  }

  /** The component that iteration stands at; an empty one is past the end. */
  class Component {
    const base: Text
    var offset: nat
    var size: nat

    predicate Valid()
      reads this
    {
      offset + size <= |base| <= MAX_LEN
    }

    function Str(): Text
      requires Valid()
      reads this
    {
      base[offset..offset + size]
    }

    /** What iteration still yields, this component first. */
    function Rest(): seq<Text>
      requires Valid()
      reads this
    {
      if size == 0 then [] else [Str()] + Components(base[offset + size..])
    }

    /** `build_component_path`: the first component of the slice. */
    method BuildComponent()
      requires Valid()
      modifies this`offset, this`size
      ensures Valid() && old(offset) <= offset && offset + size <= old(offset + size)
      ensures Split(old(base[offset..offset + size]), base[old(offset)..offset], Str(),
                    base[offset + size..old(offset + size)])
    {
      var lo, hi := offset, offset + size;
      var start := FirstX(base[lo..hi], false);
      var end := FirstX(base[lo + start..hi], true);
      assert base[lo..hi][..start] == base[lo..lo + start];
      assert base[lo + start..hi][..end] == base[lo + start..lo + start + end];
      offset := lo + start;
      size := end;
    }

    /**
     * `vfs_path_first_component`. Iteration goes on to the end of the base string, so it yields the components of
     * the slice exactly when there are none or nothing but slashes follows the slice.
     */
    constructor First(path: Path)
      requires path.Valid()
      ensures Valid() && base == path.base
      ensures Rest() == [] <==> Components(path.Str()) == []
      ensures Rest() != [] ==> Rest()[0] == Components(path.Str())[0]
      ensures Rest() == Components(path.Str()) <==>
                Components(path.Str()) == [] || Slashes(path.base[path.offset + path.size..])
    {
      base, offset, size := path.base, path.offset, path.size;
      new;
      hide Components, Slashes, Split;
      BuildComponent();
      IterationExact(base, path.offset, path.offset + path.size, offset, offset + size);
    }

    /** `vfs_path_component_next` */
    method Next()
      requires Valid()
      modifies this`offset, this`size
      ensures Valid() && Rest() == Components(base[old(offset + size)..])
      ensures offset >= old(offset + size) && (old(size) > 0 ==> [old(Str())] + Rest() == old(Rest()))
    {
      hide Components, Slashes, Split;
      ghost var lo := offset + size;
      offset := offset + size;
      size := |base| - offset;
      BuildComponent();
      RestExact(base, lo, offset, offset + size);
    }
  }

  /**
   * The loop of everyone who walks a path: from `vfs_path_first_component`, with `vfs_path_component_next`, to the
   * empty component. It yields the components of the path exactly when there are none or only slashes follow it.
   */
  method Iterate(path: Path) returns (names: seq<Text>)
    requires path.Valid()
    ensures names == Components(path.Str()) <==>
              Components(path.Str()) == [] || Slashes(path.base[path.offset + path.size..])
    ensures forall k :: 0 <= k < |names| ==> names[k] != []
  {
    hide Components, Slashes;
    var c := new Component.First(path);
    ghost var all := c.Rest();
    names := [];
    while c.size > 0
      invariant c.Valid() && fresh(c) && c.base == path.base && names + c.Rest() == all
      invariant forall k :: 0 <= k < |names| ==> names[k] != []
      decreases |c.base| - c.offset
    {
      names := names + [c.Str()];
      c.Next();
    }
  }

  /** Slashes `a`, then a component `c`, which is empty only at the end. */
  ghost predicate Split(s: Text, a: Text, c: Text, rest: Text) {
    s == a + c + rest && Slashes(a) && NoSlash(c) && (rest == [] || rest[0] == '/') && (c == [] ==> rest == [])
  }

  lemma FirstSplit(s: Text, a: Text, c: Text, rest: Text)
    requires Split(s, a, c, rest)
    ensures Components(s) == if c == [] then [] else [c] + Components(rest)
  {
    FirstPiece(a, c, rest);
  }

  lemma RestExact(base: Text, lo: nat, p: nat, q: nat)
    requires lo <= p <= q <= |base| && Split(base[lo..|base|], base[lo..p], base[p..q], base[q..|base|])
    ensures Components(base[lo..]) == if p == q then [] else [base[p..q]] + Components(base[q..])
  {
    hide Components;
    FirstSplit(base[lo..|base|], base[lo..p], base[p..q], base[q..|base|]);
    assert base[q..|base|] == base[q..] && base[lo..|base|] == base[lo..];
  }

  lemma IterationExact(base: Text, lo: nat, hi: nat, p: nat, q: nat)
    requires lo <= p <= q <= hi <= |base| && Split(base[lo..hi], base[lo..p], base[p..q], base[q..hi])
    ensures var rest, cs := if p == q then [] else [base[p..q]] + Components(base[q..]), Components(base[lo..hi]);
            && (rest == [] <==> cs == []) && (rest != [] ==> rest[0] == cs[0])
            && (rest == cs <==> cs == [] || Slashes(base[hi..]))
  {
    hide Components;
    FirstSplit(base[lo..hi], base[lo..p], base[p..q], base[q..hi]);
    assert base[q..] == base[q..hi] + base[hi..];
    TrailingSlashes(base[q..hi], base[hi..]);
    SameHead(base[p..q], Components(base[q..]), Components(base[q..hi]));
  }

  /** `strncmp` on texts of equal length: it stops at a NUL. */
  function CEqual(a: Text, b: Text): bool
    requires |a| == |b|
  {
    a == [] || (a[0] == b[0] && (a[0] == '\0' || CEqual(a[1..], b[1..])))
  }

  lemma {:induction false} CEqualText(a: Text, b: Text)
    requires |a| == |b| && NulFree(a)
    ensures CEqual(a, b) <==> a == b
  {
    if a != [] {
      CEqualText(a[1..], b[1..]);
      assert a == [a[0]] + a[1..] && b == [b[0]] + b[1..];
    }
  }

  /** `path_string_equals`; two paths on one base string are told apart by offset and size. */
  predicate StringEquals(p: Path, q: Path)
    requires p.Valid() && q.Valid()
  {
    p == q || (p.size == q.size && CEqual(p.Str(), q.Str()))
  }

  /** Iteration over the path yields its components, and no string holds a NUL. */
  ghost predicate Proper(p: Path) {
    p.Valid() && NulFree(p.base) && (Components(p.Str()) == [] || Slashes(p.base[p.offset + p.size..]))
  }

  /** The slice is a name: not empty, and without slashes. */
  ghost predicate Single(p: Path) {
    p.Valid() && p.Str() != [] && NoSlash(p.Str())
  }

  lemma SingleComponent(p: Path)
    requires Single(p)
    ensures Components(p.Str()) == [p.Str()]
  {
    Collect(p.Str(), [], []);
    assert p.Str() + [] == p.Str() && [] + p.Str() == p.Str();
  }

  /** `path_same` */
  method PathSame(p: Path, q: Path) returns (same: bool)
    requires p.Valid() && q.Valid()
    ensures Proper(p) && Proper(q) ==> (same <==> Components(p.Str()) == Components(q.Str()))
    ensures NulFree(p.base) && Single(p) && Single(q) && same ==> p.Str() == q.Str()
  {
    hide Components, Slashes, NulFree, Single, Component.Rest;
    var c := new Component.First(p);
    var d := new Component.First(q);
    if Single(p) && Single(q) {
      SingleComponent(p);
      SingleComponent(q);
    }
    same := SameRest(c, d);
  }

  /** The loop of `path_same`: both iterations yield the same names. */
  method SameRest(c: Component, d: Component) returns (same: bool)
    requires c.Valid() && d.Valid() && c != d
    modifies c, d
    ensures NulFree(c.base) ==> (same <==> old(c.Rest()) == old(d.Rest()))
  {
    hide Components, Slashes, NulFree, CEqual;
    while c.size > 0 && d.size > 0 && c.size == d.size && CEqual(c.Str(), d.Str())
      invariant c.Valid() && d.Valid()
      invariant NulFree(c.base) ==> (old(c.Rest()) == old(d.Rest()) <==> c.Rest() == d.Rest())
      decreases |c.base| - c.offset
    {
      ghost var x, y := c.Str(), d.Str();
      if NulFree(c.base) {
        SliceNulFree(c.base, c.offset, c.offset + c.size);
        CEqualText(x, y);
      }
      c.Next();
      d.Next();
      SameHead(x, c.Rest(), d.Rest());
    }
    same := c.size == 0 && d.size == 0;
    if NulFree(c.base) && c.size > 0 && c.size == d.size {
      SliceNulFree(c.base, c.offset, c.offset + c.size);
      CEqualText(c.Str(), d.Str());
    }
    assert c.size > 0 ==> c.Rest()[0] == c.Str();
    assert d.size > 0 ==> d.Rest()[0] == d.Str();
  }

  lemma SliceNulFree(s: Text, lo: nat, hi: nat)
    requires NulFree(s) && lo <= hi <= |s|
    ensures NulFree(s[lo..hi])
  {
  }

  lemma {:induction false} CEqualSelf(a: Text)
    ensures CEqual(a, a)
  {
    if a != [] {
      CEqualSelf(a[1..]);
    }
  }

  /**
   * `vfs_path_same` decides whether the component lists are equal; hence it is an equivalence. Equal slices are the
   * same wherever they lie in their strings, and names, such as the components that a lookup compares with the
   * children of a node, are the same only if they are equal.
   */
  method VfsPathSame(p: Path, q: Path) returns (same: bool)
    requires p.Valid() && q.Valid()
    ensures Proper(p) && Proper(q) ==> (same <==> Components(p.Str()) == Components(q.Str()))
    ensures p.Str() == q.Str() ==> same
    ensures NulFree(p.base) && Single(p) && Single(q) ==> (same <==> p.Str() == q.Str())
  {
    hide Components, Slashes, NoSlash, NulFree, CEqual;
    if p.Str() == q.Str() {
      CEqualSelf(p.Str());
    }
    if StringEquals(p, q) {
      if NulFree(p.base) {
        SliceNulFree(p.base, p.offset, p.offset + p.size);
      }
      if NulFree(p.base) && p != q {
        CEqualText(p.Str(), q.Str());
      }
      return true;
    }
    same := PathSame(p, q);
  }

  /** A slice that stops before its base string does is not proper: iteration over "a" in "a/b" goes on to "b". */
  lemma PrefixIsNotProper()
    ensures var p := Path("a/b", 0, 1); p.Valid() && NulFree(p.base) && !p.Whole() && !Proper(p)
    ensures forall p: Path :: p.Valid() && p.Whole() && NulFree(p.base) ==> Proper(p)
  {
    var p := Path("a/b", 0, 1);
    assert p.Str() == ['a'];
    Collect(['a'], [], []);
    assert ['a'] + [] == ['a'] && p.base[1..][1] == 'b';
  }
}
