/** Lexical path policy: which scopes may be observed. Unicode normalization of a name is any
    function; `/` takes no part in it, so that paths normalize name by name. */
module Policies {
  import opened Paths
  import opened JobTable

  const TMP_SUFFIX := ".__jaso_nfc_tmp__"

  // ---------------------------------------------------------------- normalization of a path text

  predicate Component(name: string) { name != "" && name != "." && name != ".." && '/' !in name }

  predicate Clean(path: Path) { forall i :: 0 <= i < |path| ==> Component(path[i]) }

  /** The names between the slashes; empty ones and `.` vanish. */
  function Split(text: string): seq<string> {
    if text == "" then [""]
    else
      var rest := Split(text[1..]);
      if text[0] == '/' then [""] + rest else [[text[0]] + rest[0]] + rest[1..]
  }

  function Pushed(path: Path, part: string): Path {
    if part == ".." then Parent(path) else if part == "" || part == "." then path else path + [part]
  }

  function PushAll(path: Path, parts: seq<string>): Path {
    if parts == [] then path else Pushed(PushAll(path, parts[..|parts| - 1]), parts[|parts| - 1])
  }

  /** The lexical absolute path: a relative text is taken below the working directory. */
  function AbsoluteOf(cwd: Path, text: string): Path {
    PushAll(if text != "" && text[0] == '/' then [] else cwd, Split(text))
  }

  method Absolute(cwd: Path, text: string) returns (result: Path)
    ensures result == AbsoluteOf(cwd, text)
  {
    var parts := Split(text);
    result := if text != "" && text[0] == '/' then [] else cwd;
    ghost var start := result;
    for i := 0 to |parts|
      invariant result == PushAll(start, parts[..i])
    {
      assert parts[..i + 1][..i] == parts[..i];
      if parts[i] == ".." {
        result := Parent(result);
      } else if parts[i] != "" && parts[i] != "." {
        result := result + [parts[i]];
      }
    }
    assert parts[..|parts|] == parts;
  }

  lemma {:induction false} SplitParts(text: string)
    ensures |Split(text)| > 0 && forall i :: 0 <= i < |Split(text)| ==> '/' !in Split(text)[i]
    decreases |text|
  {
    if text != "" {
      SplitParts(text[1..]);
    }
  }

  lemma {:induction false} PushClean(path: Path, parts: seq<string>)
    requires Clean(path) && forall i :: 0 <= i < |parts| ==> '/' !in parts[i]
    ensures Clean(PushAll(path, parts))
    decreases |parts|
  {
    if parts != [] {
      PushClean(path, parts[..|parts| - 1]);
    }
  }

  lemma {:induction false} SplitName(name: string, text: string)
    requires '/' !in name
    ensures Split(name + text) == [name + Split(text)[0]] + Split(text)[1..]
    decreases |name|
  {
    SplitParts(text);
    if name == "" {
      assert name + text == text && "" + Split(text)[0] == Split(text)[0] && Split(text) == [Split(text)[0]] + Split(text)[1..];
    } else {
      assert (name + text)[1..] == name[1..] + text;
      SplitName(name[1..], text);
      assert [name[0]] + (name[1..] + Split(text)[0]) == name + Split(text)[0];
    }
  }

  lemma {:induction false} SplitJoined(path: Path)
    requires Clean(path)
    ensures Split(Joined(path)) == [""] + path
    decreases |path|
  {
    if path == [] {
    } else {
      SplitJoined(path[1..]);
      SplitName(path[0], Joined(path[1..]));
      var text := "/" + path[0] + Joined(path[1..]);
      assert text[1..] == path[0] + Joined(path[1..]);
      assert path[0] + "" == path[0] && [path[0]] + path[1..] == path;
    }
  }

  lemma {:induction false} PushPath(start: Path, path: Path)
    requires Clean(path)
    ensures PushAll(start, [""] + path) == start + path
    decreases |path|
  {
    var parts := [""] + path;
    if path == [] {
      assert parts[..0] == [] && start + path == start;
    } else {
      assert parts[..|parts| - 1] == [""] + path[..|path| - 1];
      PushPath(start, path[..|path| - 1]);
      assert start + path == start + path[..|path| - 1] + [path[|path| - 1]];
    }
  }

  /** The result is absolute and normal: no empty name, no `.` or `..` is left, also past the root. */
  lemma AbsoluteIsClean(cwd: Path, text: string)
    requires Clean(cwd)
    ensures Clean(AbsoluteOf(cwd, text))
  {
    SplitParts(text);
    PushClean(if text != "" && text[0] == '/' then [] else cwd, Split(text));
  }

  /** Normalizing the text of a normal path gives it back: normalization is idempotent. */
  lemma AbsoluteIsIdempotent(cwd: Path, path: Path)
    requires Clean(path)
    ensures AbsoluteOf(cwd, Text(path)) == path
  {
    if path == [] {
      assert Split("/") == [""] + Split("/"[1..]);
      assert Split("/") == ["", ""];
      assert ["", ""][..1] == [""] && [""][..0] == [];
    } else {
      SplitJoined(path);
      PushPath([], path);
      assert [] + path == path;
    }
  }

  // ---------------------------------------------------------------- selected roots and exclusions

  predicate Prefixed(text: string, prefix: string) { prefix <= text }

  predicate Suffixed(text: string, suffix: string) { |suffix| <= |text| && text[|text| - |suffix|..] == suffix }

  predicate Hidden(name: string) { Prefixed(name, ".") }

  /** /Users/NAME/Library/CloudStorage. */
  predicate HomeLayout(parts: Path) {
    |parts| == 4 && parts[0] == "Users" && parts[2] == "Library" && parts[3] == "CloudStorage"
  }

  /** Google Drive's own staging directory at a provider root of an account home. */
  predicate Staging(path: Path) {
    && |path| >= 2 && path[|path| - 1] == ".tmp"
    && Prefixed(path[|path| - 2], "GoogleDrive-") && |path[|path| - 2]| > |"GoogleDrive-"|
    && (var cloud := path[..|path| - 2];
        HomeLayout(cloud) || (|cloud| == 6 && cloud[0] == "Volumes" && HomeLayout(cloud[2..])))
  }

  predicate ManagedCloud(path: Path) { exists n :: 0 <= n <= |path| && Staging(path[..n]) }

  datatype Policy = Policy(nfc: string -> string, roots: seq<Path>, excludes: seq<Path>, excludeNames: seq<string>,
                           skipHiddenTops: seq<Path>, rootExcludes: map<Path, seq<Path>>)
  {
    function Nfc(path: Path): (n: Path)
      ensures |n| == |path|
    {
      seq(|path|, i requires 0 <= i < |path| => nfc(path[i]))
    }

    /** Spelling-independent: names are compared normalized. */
    predicate Inside(path: Path, root: Path) { Nfc(root) <= Nfc(path) }

    /** The longest of the selected roots above `path`, of equally long ones the last. */
    function MostSpecific(candidates: seq<Path>, path: Path): Option<Path> {
      if candidates == [] then None
      else
        var last := candidates[|candidates| - 1];
        var best := MostSpecific(candidates[..|candidates| - 1], path);
        if Inside(path, last) && (best.None? || |last| >= |best.value|) then Some(last) else best
    }

    /** The shortest one, of equally short ones the first. */
    function Outermost(candidates: seq<Path>, path: Path): Option<Path> {
      if candidates == [] then None
      else
        var last := candidates[|candidates| - 1];
        var best := Outermost(candidates[..|candidates| - 1], path);
        if Inside(path, last) && (best.None? || |last| < |best.value|) then Some(last) else best
    }

    function RootFor(path: Path): Option<Path> { MostSpecific(roots, path) }

    /** The first hidden directory on `path` between position `from` and `to`. */
    function FirstHidden(path: Path, from: nat, to: nat): Option<Path>
      requires to <= |path|
      decreases if from < to then to - from else 0
    {
      if from >= to then None
      else if Hidden(path[from]) then Some(path[..from + 1])
      else FirstHidden(path, from + 1, to)
    }

    function HiddenBoundary(path: Path, directory: bool): Option<Path> {
      var root := RootFor(path);
      if root.None? then None
      else FirstHidden(path, |root.value|, if directory || path == [] then |path| else |path| - 1)
    }

    predicate Excluded(path: Path, roots: seq<Path>) { exists i :: 0 <= i < |roots| && Inside(path, roots[i]) }

    /** A hidden entry directly below a top whose hidden entries are skipped. */
    predicate SkippedBelow(path: Path, root: Path, top: Path) {
      && Inside(path, top) && (Nfc(root) == Nfc(top) || !Inside(root, top))
      && Nfc(path) != Nfc(top) && |top| < |path| && Hidden(path[|top|])
    }

    predicate BadName(name: string) {
      nfc(name) in excludeNames || Suffixed(name, TMP_SUFFIX) || Prefixed(name, "._")
    }

    predicate BadNameFrom(path: Path, from: nat) { exists i :: from <= i < |path| && BadName(path[i]) }

    predicate AcceptsLexically(path: Path) {
      && !ManagedCloud(path)
      && HiddenBoundary(path, false).None?
      && RootFor(path).Some?
      && !Excluded(path, excludes)
      && (Nfc(RootFor(path).value) in rootExcludes ==> !Excluded(path, rootExcludes[Nfc(RootFor(path).value)]))
      && (forall i :: 0 <= i < |skipHiddenTops| ==> !SkippedBelow(path, RootFor(path).value, skipHiddenTops[i]))
      && (Outermost(roots, path).Some? ==> !BadNameFrom(path, |Outermost(roots, path).value|))
    }

    predicate AcceptsDirectory(path: Path) { AcceptsLexically(path) && HiddenBoundary(path, true).None? }

    // -------------------------------------------------------------- the loops

    method FindHiddenBoundary(path: Path, directory: bool) returns (boundary: Option<Path>)
      ensures boundary == HiddenBoundary(path, directory)
    {
      var root := RootFor(path);
      if root.None? {
        return None;
      }
      SameChoice(roots, path, path);
      var count := if directory || path == [] then |path| else |path| - 1;
      var ancestor, i := path[..|root.value|], |root.value|;
      while i < count
        invariant |root.value| <= i <= |path| && ancestor == path[..i]
        invariant FirstHidden(path, i, count) == HiddenBoundary(path, directory)
        decreases count - i
      {
        ancestor := ancestor + [path[i]];
        assert ancestor == path[..i + 1];
        if Hidden(path[i]) {
          return Some(ancestor);
        }
        i := i + 1;
      }
      return None;
    }

    method Check(path: Path) returns (accepted: bool)
      ensures accepted == AcceptsLexically(path)
    {
      var hidden := FindHiddenBoundary(path, false);
      if ManagedCloud(path) || hidden.Some? {
        return false;
      }
      var root := RootFor(path);
      if root.None? || Excluded(path, excludes) {
        return false;
      }
      if Nfc(root.value) in rootExcludes && Excluded(path, rootExcludes[Nfc(root.value)]) {
        return false;
      }
      for i := 0 to |skipHiddenTops|
        invariant forall j :: 0 <= j < i ==> !SkippedBelow(path, root.value, skipHiddenTops[j])
      {
        if SkippedBelow(path, root.value, skipHiddenTops[i]) {
          return false;
        }
      }
      OutermostExists(roots, path);
      var i := |Outermost(roots, path).value|;
      while i < |path|
        invariant forall j :: |Outermost(roots, path).value| <= j < i && j < |path| ==> !BadName(path[j])
      {
        if BadName(path[i]) {
          return false;
        }
        i := i + 1;
      }
      return true;
    }

    // -------------------------------------------------------------- which root

    lemma {:induction false} OutermostExists(candidates: seq<Path>, path: Path)
      ensures Outermost(candidates, path).Some? <==> MostSpecific(candidates, path).Some?
      decreases |candidates|
    {
      if candidates != [] {
        OutermostExists(candidates[..|candidates| - 1], path);
      }
    }

    lemma InsideShorter(path: Path, above: Path, root: Path)
      requires above <= path
      ensures Inside(above, root) <==> Inside(path, root) && |root| <= |above|
    {
      assert Nfc(path)[..|above|] == Nfc(above) by {
        assert forall i :: 0 <= i < |above| ==> above[i] == path[i];
      }
      if Inside(path, root) && |root| <= |above| {
        assert Nfc(root) == Nfc(path)[..|root|] == Nfc(above)[..|root|];
      }
    }

    lemma InsideSpelled(path: Path, root: Path)
      requires root <= path
      ensures Inside(path, root)
    {
      assert forall i :: 0 <= i < |root| ==> root[i] == path[i];
    }

    /** A root is found exactly when some selected root is above the path, and none is longer. */
    lemma {:induction false} MostSpecificIs(candidates: seq<Path>, path: Path)
      ensures var best := MostSpecific(candidates, path);
              && (best.None? <==> forall i :: 0 <= i < |candidates| ==> !Inside(path, candidates[i]))
              && (best.Some? ==> best.value in candidates && Inside(path, best.value))
              && (best.Some? ==> forall i :: 0 <= i < |candidates| && Inside(path, candidates[i]) ==> |candidates[i]| <= |best.value|)
      decreases |candidates|
    {
      if candidates != [] {
        var rest := candidates[..|candidates| - 1];
        MostSpecificIs(rest, path);
        assert candidates == rest + [candidates[|candidates| - 1]];
      }
    }

    /** Down to the chosen root the choice is the same. */
    lemma {:induction false} SameChoice(candidates: seq<Path>, path: Path, above: Path)
      requires above <= path
      ensures MostSpecific(candidates, path).Some? && |MostSpecific(candidates, path).value| <= |above| ==>
                MostSpecific(candidates, above) == MostSpecific(candidates, path)
      ensures MostSpecific(candidates, path).None? ==> MostSpecific(candidates, above).None?
      ensures MostSpecific(candidates, above).Some? ==> |MostSpecific(candidates, above).value| <= |above|
      ensures MostSpecific(candidates, path).Some? ==> |MostSpecific(candidates, path).value| <= |path|
      decreases |candidates|
    {
      if candidates != [] {
        SameChoice(candidates[..|candidates| - 1], path, above);
        InsideShorter(path, above, candidates[|candidates| - 1]);
      }
    }

    lemma {:induction false} SameOutermost(candidates: seq<Path>, path: Path, above: Path)
      requires above <= path && Outermost(candidates, path).Some? && |Outermost(candidates, path).value| <= |above|
      ensures Outermost(candidates, above) == Outermost(candidates, path)
      decreases |candidates|
    {
      var rest := candidates[..|candidates| - 1];
      InsideShorter(path, above, candidates[|candidates| - 1]);
      if Outermost(rest, path).Some? && |Outermost(rest, path).value| <= |above| {
        SameOutermost(rest, path, above);
      } else {
        NoneShorter(rest, path, above);
      }
    }

    lemma {:induction false} NoneShorter(candidates: seq<Path>, path: Path, above: Path)
      requires above <= path && (Outermost(candidates, path).Some? ==> |Outermost(candidates, path).value| > |above|)
      ensures Outermost(candidates, above).None?
      decreases |candidates|
    {
      if candidates != [] {
        InsideShorter(path, above, candidates[|candidates| - 1]);
        NoneShorter(candidates[..|candidates| - 1], path, above);
      }
    }

    lemma {:induction false} OutermostShortest(candidates: seq<Path>, path: Path)
      requires MostSpecific(candidates, path).Some?
      ensures Outermost(candidates, path).Some? && |Outermost(candidates, path).value| <= |MostSpecific(candidates, path).value|
      decreases |candidates|
    {
      var rest := candidates[..|candidates| - 1];
      OutermostExists(rest, path);
      if MostSpecific(rest, path).Some? {
        OutermostShortest(rest, path);
      }
    }

    // -------------------------------------------------------------- closure

    lemma {:induction false} HiddenAbove(path: Path, above: Path, from: nat, to: nat)
      requires above <= path && to <= |above|
      ensures FirstHidden(above, from, to) == FirstHidden(path, from, to)
      decreases if from < to then to - from else 0
    {
      if from < to {
        HiddenAbove(path, above, from + 1, to);
        assert above[..from + 1] == path[..from + 1];
      }
    }

    lemma {:induction false} HiddenShorter(path: Path, from: nat, to: nat, more: nat)
      requires to <= more <= |path| && FirstHidden(path, from, more).None?
      ensures FirstHidden(path, from, to).None?
      decreases if from < to then to - from else 0
    {
      if from < to {
        HiddenShorter(path, from + 1, to, more);
      }
    }

    lemma ManagedAbove(path: Path, above: Path)
      requires above <= path && ManagedCloud(above)
      ensures ManagedCloud(path)
    {
      var n :| 0 <= n <= |above| && Staging(above[..n]);
      assert above[..n] == path[..n];
    }

    lemma ExcludedAbove(path: Path, above: Path, excluded: seq<Path>)
      requires above <= path && Excluded(above, excluded)
      ensures Excluded(path, excluded)
    {
      var i :| 0 <= i < |excluded| && Inside(above, excluded[i]);
      InsideShorter(path, above, excluded[i]);
    }

    lemma SkippedAbove(path: Path, above: Path, root: Path, top: Path)
      requires above <= path && SkippedBelow(above, root, top)
      ensures SkippedBelow(path, root, top)
    {
      InsideShorter(path, above, top);
      assert |Nfc(path)| > |Nfc(top)|;
    }

    lemma HiddenClosed(path: Path, above: Path)
      requires above <= path && RootFor(path).Some? && |RootFor(path).value| <= |above|
      requires HiddenBoundary(path, true).None?
      ensures HiddenBoundary(above, true).None? && HiddenBoundary(above, false).None?
    {
      SameChoice(roots, path, above);
      var from := |RootFor(path).value|;
      HiddenShorter(path, from, |above|, |path|);
      HiddenAbove(path, above, from, |above|);
      if above != [] {
        HiddenShorter(path, from, |above| - 1, |path|);
        HiddenAbove(path, above, from, |above| - 1);
      }
    }

    /** Every directory between an accepted directory and its most specific root is accepted under the
        same root: an accepted directory is reachable from its root through accepted ones. */
    lemma Closure(path: Path, above: Path)
      requires AcceptsDirectory(path) && above <= path && |RootFor(path).value| <= |above|
      ensures AcceptsDirectory(above) && RootFor(above) == RootFor(path)
    {
      SameChoice(roots, path, above);
      HiddenClosed(path, above);
      OutermostShortest(roots, path);
      SameOutermost(roots, path, above);
      if ManagedCloud(above) { ManagedAbove(path, above); }
      if Excluded(above, excludes) { ExcludedAbove(path, above, excludes); }
      var root := RootFor(path).value;
      if Nfc(root) in rootExcludes && Excluded(above, rootExcludes[Nfc(root)]) { ExcludedAbove(path, above, rootExcludes[Nfc(root)]); }
      forall i | 0 <= i < |skipHiddenTops| ensures !SkippedBelow(above, root, skipHiddenTops[i]) {
        if SkippedBelow(above, root, skipHiddenTops[i]) { SkippedAbove(path, above, root, skipHiddenTops[i]); }
      }
      assert forall i :: 0 <= i < |above| ==> above[i] == path[i];
    }
  }

  // ---------------------------------------------------------------- the configuration of the job table

  /** `k` has the longest root above `path`, compared by spelling. */
  predicate Top(volumes: map<Key, Path>, path: Path, k: Key) {
    && k in volumes && volumes[k] <= path
    && forall j :: j in volumes && volumes[j] <= path ==> |volumes[j]| <= |volumes[k]|
  }

  ghost function VolumeOf(volumes: map<Key, Path>, path: Path): Option<Key> {
    if exists k :: Top(volumes, path, k) then
      var k :| Top(volumes, path, k);
      Some(k)
    else None
  }

  lemma {:induction false} SomeTop(volumes: map<Key, Path>, path: Path, k: Key)
    requires k in volumes && volumes[k] <= path
    ensures exists t :: Top(volumes, path, t)
    decreases volumes.Keys, |path| - |volumes[k]|
  {
    if !Top(volumes, path, k) {
      var j :| j in volumes && volumes[j] <= path && |volumes[j]| > |volumes[k]|;
      SomeTop(volumes, path, j);
    }
  }

  /** Each volume has one root, which is one of the selected roots; no two share it. */
  ghost predicate Assigned(policy: Policy, volumes: map<Key, Path>) {
    && (forall k :: k in volumes ==> volumes[k] in policy.roots)
    && (forall r :: r in policy.roots ==> exists k :: k in volumes && volumes[k] == r)
    && (forall j, k :: j in volumes && k in volumes && volumes[j] == volumes[k] ==> j == k)
  }

  /** An accepted scope that is spelled below its root as the root is. */
  ghost predicate AcceptedScope(policy: Policy, path: Path) {
    policy.AcceptsDirectory(path) && policy.RootFor(path).value <= path
  }

  ghost function ConfigurationOf(policy: Policy, volumes: map<Key, Path>, accepts: Path -> bool, package: Path -> bool): Configuration {
    Configuration(map k | k in volumes :: [volumes[k]], path => VolumeOf(volumes, path), accepts,
                  path => AcceptedScope(policy, path), package)
  }

  lemma TopIsUnique(policy: Policy, volumes: map<Key, Path>, path: Path, j: Key, k: Key)
    requires Assigned(policy, volumes) && Top(volumes, path, j) && Top(volumes, path, k)
    ensures j == k
  {
    assert volumes[j] == path[..|volumes[j]|] == path[..|volumes[k]|] == volumes[k];
  }

  /** The policy's root of an accepted scope is the root of the scope's volume, and accepted itself. */
  lemma RootOfScope(policy: Policy, volumes: map<Key, Path>, path: Path)
    requires Assigned(policy, volumes) && AcceptedScope(policy, path)
    ensures VolumeOf(volumes, path).Some?
    ensures var k := VolumeOf(volumes, path).value;
            k in volumes && volumes[k] == policy.RootFor(path).value && volumes[k] <= path && AcceptedScope(policy, volumes[k])
  {
    var root := policy.RootFor(path).value;
    policy.MostSpecificIs(policy.roots, path);
    var r :| r in volumes && volumes[r] == root;
    SomeTop(volumes, path, r);
    var k := VolumeOf(volumes, path).value;
    assert Top(volumes, path, k);
    policy.InsideSpelled(path, volumes[k]);
    var i :| 0 <= i < |policy.roots| && policy.roots[i] == volumes[k];
    assert |volumes[k]| == |root|;
    assert volumes[k] == path[..|root|] == root;
    policy.Closure(path, root);
  }

  /** What the job table assumes of its configuration holds of this one. */
  lemma ConfigurationIsValid(policy: Policy, volumes: map<Key, Path>, accepts: Path -> bool, package: Path -> bool)
    requires Assigned(policy, volumes)
    ensures ConfigurationOf(policy, volumes, accepts, package).Valid()
  {
    var c := ConfigurationOf(policy, volumes, accepts, package);
    forall k | k in volumes ensures VolumeOf(volumes, volumes[k]) == Some(k) { RootsVolume(policy, volumes, k); }
    VolumesCover(c, volumes);
    ScopesRooted(policy, volumes, c);
  }

  lemma VolumesCover(c: Configuration, volumes: map<Key, Path>)
    requires c.roots == (map k | k in volumes :: [volumes[k]]) && forall path :: c.volumeFor(path) == VolumeOf(volumes, path)
    ensures forall path :: c.volumeFor(path).Some? ==> c.HasBest(path, c.volumeFor(path).value)
    ensures forall path, k, i :: k in c.roots && 0 <= i < |c.roots[k]| && c.roots[k][i] <= path ==> c.volumeFor(path).Some?
  {
    forall path | c.volumeFor(path).Some? ensures c.HasBest(path, c.volumeFor(path).value) { BestVolume(c, volumes, path); }
    forall path, k, i | k in c.roots && 0 <= i < |c.roots[k]| && c.roots[k][i] <= path ensures c.volumeFor(path).Some? {
      SomeTop(volumes, path, k);
    }
  }

  lemma ScopesRooted(policy: Policy, volumes: map<Key, Path>, c: Configuration)
    requires Assigned(policy, volumes) && c == ConfigurationOf(policy, volumes, c.accepts, c.package)
    ensures forall path :: c.acceptsDirectory(path) ==> c.AcceptedRoot(path)
  {
    forall path | c.acceptsDirectory(path) ensures c.AcceptedRoot(path) {
      RootOfScope(policy, volumes, path);
      assert c.RootAt(path, 0);
    }
  }

  lemma RootsVolume(policy: Policy, volumes: map<Key, Path>, k: Key)
    requires Assigned(policy, volumes) && k in volumes
    ensures VolumeOf(volumes, volumes[k]) == Some(k)
  {
    SomeTop(volumes, volumes[k], k);
    assert Top(volumes, volumes[k], k);
    TopIsUnique(policy, volumes, volumes[k], k, VolumeOf(volumes, volumes[k]).value);
  }

  lemma BestVolume(c: Configuration, volumes: map<Key, Path>, path: Path)
    requires c.roots == (map k | k in volumes :: [volumes[k]]) && VolumeOf(volumes, path).Some?
    ensures c.HasBest(path, VolumeOf(volumes, path).value)
  {
    var k := VolumeOf(volumes, path).value;
    assert Top(volumes, path, k);
    assert c.Best(path, k, 0);
  }
}
