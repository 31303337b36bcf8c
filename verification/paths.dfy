/** Remote paths as sequences of segments, so that `path.Join`, `path.Split`
    and `strings.TrimPrefix` on cleaned absolute paths become list operations. */
module Paths {

  /** One segment of a path: the text between two slashes. */
  type Name = string

  /** A cleaned absolute path, segment by segment; `[]` is the root "/". */
  type Path = seq<Name>

  /** `p` is `prefix` itself or lies somewhere beneath it. */
  predicate Under(prefix: Path, p: Path) {
    prefix <= p
  }

  /** `path.Join` of two cleaned paths. */
  function Join(a: Path, b: Path): Path {
    a + b
  }

  /** The directory half of `path.Split`; the root is its own parent. */
  function Parent(p: Path): Path {
    if p == [] then [] else p[..|p| - 1]
  }

  /** The name half of `path.Split`: the last segment, or nothing for the root
      (so joining it onto a directory leaves that directory unchanged). */
  function Base(p: Path): (name: Path)
    ensures |name| <= 1
    ensures p != [] ==> Join(Parent(p), name) == p
    ensures p == [] ==> name == []
  {
    if p == [] then [] else [p[|p| - 1]]
  }

  /** `strings.TrimPrefix(p, prefix)`: drop `prefix` when `p` starts with it. */
  function TrimPrefix(p: Path, prefix: Path): (rest: Path)
    ensures Under(prefix, p) ==> Join(prefix, rest) == p
    ensures !Under(prefix, p) ==> rest == p
  {
    if prefix <= p then p[|prefix|..] else p
  }

  /** `Join(dest, TrimPrefix(p, source))`: where a path met while walking
      `source` lands when the tree is mirrored under `dest`. */
  function Rebase(source: Path, dest: Path, p: Path): Path {
    Join(dest, TrimPrefix(p, source))
  }

  /** The walk root lands exactly on the destination root, and every path
      under the source lands under the destination at the same depth. */
  lemma RebaseUnder(source: Path, dest: Path, p: Path)
    requires Under(source, p)
    ensures Under(dest, Rebase(source, dest, p))
    ensures |Rebase(source, dest, p)| - |dest| == |p| - |source|
    ensures p == source ==> Rebase(source, dest, p) == dest
  {
  }

  /** Mapping a path from the source tree into the destination tree and back
      again returns the original path. */
  lemma RebaseRoundTrip(source: Path, dest: Path, p: Path)
    requires Under(source, p)
    ensures Rebase(dest, source, Rebase(source, dest, p)) == p
  {
    assert Rebase(source, dest, p)[|dest|..] == p[|source|..];
  }

  /** Distinct paths under the source land on distinct destination paths. */
  lemma RebaseInjective(source: Path, dest: Path, p: Path, q: Path)
    requires Under(source, p) && Under(source, q)
    requires Rebase(source, dest, p) == Rebase(source, dest, q)
    ensures p == q
  {
    RebaseRoundTrip(source, dest, p);
    RebaseRoundTrip(source, dest, q);
  }

  /** Rebasing commutes with taking the parent below the walk root, so a
      directory's children land inside that directory's image. */
  lemma RebaseParent(source: Path, dest: Path, p: Path)
    requires Under(source, p) && p != source
    ensures Under(source, Parent(p))
    ensures Parent(Rebase(source, dest, p)) == Rebase(source, dest, Parent(p))
  {
    var r := Rebase(source, dest, p);
    assert r == dest + p[|source|..];
    assert Parent(p)[|source|..] == p[|source|..|p| - 1];
    assert r[..|r| - 1] == dest + p[|source|..|p| - 1];
  }
}
