/** A single-file copy worked through on a small concrete tree. */
module Scenarios {
  import opened RemoteFs
  import opened Copy

  const X: seq<byte> := [120, 10]

  /** `/` holding the single file `/a/x.txt`. */
  function Tree(): Fs {
    Fs(map[[] := Dir(DirMode),
           ["a"] := Dir(DirMode),
           ["a", "x.txt"] := File(X)],
       {}, {}, multiset{})
  }

  /** `cp /a/x.txt /d` with `/d` absent writes the bytes of `/a/x.txt` at
      `/d` itself. */
  lemma FileToAbsentDestination()
    ensures CopySingleFile(Tree(), ["a", "x.txt"], ["d"]).err.None?
    ensures CopySingleFile(Tree(), ["a", "x.txt"], ["d"]).fs.nodes[["d"]] == File(X)
  {
    assert Copyable(Tree(), ["a", "x.txt"], ["d"]);
  }
}
