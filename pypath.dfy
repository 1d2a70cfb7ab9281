/** `os.path` over absolute, normalised paths: a path is the sequence of its
    components, the root `/` is the empty sequence. */
module PyPath {
  import PyStr

  type Path = seq<string>

  /** A path text starting at the root; `os.path.join` discards what comes
      before such a component. */
  predicate IsAbsolute(s: string)
  {
    s != [] && s[0] == '/'
  }

  /** `os.path.join(p, name)` for a single relative component. */
  function Join(p: Path, name: string): Path
  {
    p + [name]
  }

  /** `os.path.dirname(p)`: drops the last component; the root is its own
      parent, and it is the only path that is. */
  function Dirname(p: Path): (r: Path)
    ensures r == p <==> p == []
    ensures p != [] ==> |r| == |p| - 1 && r == p[..|r|]
  {
    if p == [] then p else p[..|p| - 1]
  }

  /** The text of a path: `/` for the root, `/a/b` otherwise. */
  function Render(p: Path): (s: string)
    ensures |s| >= 1 && s[0] == '/'
  {
    "/" + PyStr.Join(p, '/')
  }
}
