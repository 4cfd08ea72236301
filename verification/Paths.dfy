/** Absolute, normalized paths as the sequence of their components; `/` is []. */
module Paths {
  type Path = seq<string>

  datatype Option<+T> = None | Some(value: T)

  function Parent(path: Path): Path {
    if path == [] then [] else path[..|path| - 1]
  }

  predicate Within(path: Path, root: Path) {
    root <= path
  }

  /** The range of path texts below `root`: the prefix of `/` is `/` itself, so that its range holds
      `/`, while any other range holds only what lies strictly below. */
  predicate InRange(path: Path, root: Path) {
    root == [] || root < path
  }

  /** The step from `above` towards `path`. */
  function Toward(above: Path, path: Path): (child: Path)
    requires above < path
    ensures above < child <= path && Parent(child) == above
  {
    path[..|above| + 1]
  }

  lemma OnlyToward(above: Path, child: Path, path: Path)
    requires above < path && above < child && Parent(child) == above
    ensures child <= path <==> child == Toward(above, path)
  {
    if child <= path {
      assert child == path[..|above| + 1];
    }
  }

  /** The text of a path. */
  function Text(path: Path): string {
    if path == [] then "/" else Joined(path)
  }

  function Joined(path: Path): string {
    if path == [] then "" else "/" + path[0] + Joined(path[1..])
  }

  lemma Comparable(a: Path, b: Path, path: Path)
    requires a <= path && b <= path
    ensures a <= b || b <= a
  {
    if |a| <= |b| {
      assert a == path[..|a|] && b == path[..|b|];
    } else {
      assert a == path[..|a|] && b == path[..|b|];
    }
  }
}
