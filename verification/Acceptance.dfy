/** What the path policy accepts, said of names and positions: no order of checks, no loops. */
module Acceptance {
  import opened Paths
  import opened Policies

  predicate Dotted(name: string) { name != "" && name[0] == '.' }

  /** ACCOUNT/Library/CloudStorage/GoogleDrive-NAME/.tmp or something below it, where ACCOUNT is a home
      directory of the system or of another volume. */
  predicate InStaging(path: Path) {
    || StagingAt(path, 0)
    || (|path| >= 2 && path[0] == "Volumes" && StagingAt(path, 2))
  }

  predicate StagingAt(path: Path, n: nat) {
    && |path| >= n + 6 && path[n] == "Users" && path[n + 2] == "Library" && path[n + 3] == "CloudStorage"
    && |path[n + 4]| > 12 && path[n + 4][..12] == "GoogleDrive-" && path[n + 5] == ".tmp"
  }

  lemma StagingIs(path: Path)
    ensures ManagedCloud(path) <==> InStaging(path)
  {
    if StagingAt(path, 0) {
      assert path[..6][..4] == path[..4];
      assert Staging(path[..6]);
    }
    if |path| >= 2 && path[0] == "Volumes" && StagingAt(path, 2) {
      assert path[..8][..6][2..] == path[2..6];
      assert Staging(path[..8]);
    }
  }

  /** The longest selected root above the path. */
  predicate Chosen(p: Policy, path: Path, r: Path) {
    && r in p.roots && p.Nfc(r) <= p.Nfc(path)
    && forall q :: q in p.roots && p.Nfc(q) <= p.Nfc(path) ==> |q| <= |r|
  }

  /** No directory from there down to the path, without the path's own name, is hidden. */
  predicate NothingHidden(path: Path, r: Path) { forall i :: |r| <= i < |path| - 1 ==> !Dotted(path[i]) }

  predicate OutsideAll(p: Policy, path: Path, roots: seq<Path>) { forall x :: x in roots ==> !(p.Nfc(x) <= p.Nfc(path)) }

  /** A hidden entry of a directory whose hidden entries are skipped counts only below a root selected
      further down. */
  predicate NotSkipped(p: Policy, path: Path, r: Path) { forall top :: top in p.skipHiddenTops ==> Passes(p, path, r, top) }

  predicate Passes(p: Policy, path: Path, r: Path, top: Path) {
    p.Nfc(top) <= p.Nfc(path) && |top| < |path| && Dotted(path[|top|]) ==> p.Nfc(top) < p.Nfc(r)
  }

  predicate GoodName(p: Policy, name: string) {
    && p.nfc(name) !in p.excludeNames
    && !(|name| >= |TMP_SUFFIX| && name[|name| - |TMP_SUFFIX|..] == TMP_SUFFIX)
    && !(|name| >= 2 && name[..2] == "._")
  }

  /** Below every selected root above the path all names are good. */
  predicate GoodNames(p: Policy, path: Path) {
    forall q :: q in p.roots && p.Nfc(q) <= p.Nfc(path) ==> GoodFrom(p, path, |q|)
  }

  predicate GoodFrom(p: Policy, path: Path, n: nat) { forall i :: n <= i < |path| ==> GoodName(p, path[i]) }

  predicate NotExcludedFor(p: Policy, path: Path, r: Path) {
    p.Nfc(r) in p.rootExcludes ==> OutsideAll(p, path, p.rootExcludes[p.Nfc(r)])
  }

  predicate Fits(p: Policy, path: Path, r: Path) {
    Chosen(p, path, r) && NothingHidden(path, r) && NotSkipped(p, path, r) && NotExcludedFor(p, path, r)
  }

  lemma {:induction false} NoneHidden(p: Policy, path: Path, from: nat, to: nat)
    requires to <= |path|
    ensures p.FirstHidden(path, from, to).None? <==> forall i :: from <= i < to ==> !Dotted(path[i])
    decreases if from < to then to - from else 0
  {
    if from < to {
      assert Hidden(path[from]) <==> Dotted(path[from]);
      NoneHidden(p, path, from + 1, to);
    }
  }

  lemma ChosenRoot(p: Policy, path: Path, r: Path)
    requires Chosen(p, path, r)
    ensures p.RootFor(path).Some? && Chosen(p, path, p.RootFor(path).value)
    ensures p.Nfc(p.RootFor(path).value) == p.Nfc(r)
  {
    p.MostSpecificIs(p.roots, path);
    var best := p.RootFor(path).value;
    assert p.Inside(path, r);
    assert |best| == |r|;
    assert p.Nfc(best) == p.Nfc(path)[..|r|] == p.Nfc(r);
  }

  lemma RootChosen(p: Policy, path: Path)
    requires p.RootFor(path).Some?
    ensures Chosen(p, path, p.RootFor(path).value)
  {
    p.MostSpecificIs(p.roots, path);
    forall q | q in p.roots && p.Nfc(q) <= p.Nfc(path) ensures |q| <= |p.RootFor(path).value| { assert p.Inside(path, q); }
  }

  lemma {:induction false} ShortestIs(p: Policy, candidates: seq<Path>, path: Path)
    ensures var least := p.Outermost(candidates, path);
            && (least.None? <==> forall q :: q in candidates ==> !(p.Nfc(q) <= p.Nfc(path)))
            && (least.Some? ==> least.value in candidates && p.Nfc(least.value) <= p.Nfc(path))
            && (least.Some? ==> forall q :: q in candidates && p.Nfc(q) <= p.Nfc(path) ==> |least.value| <= |q|)
    decreases |candidates|
  {
    if candidates != [] {
      var rest := candidates[..|candidates| - 1];
      ShortestIs(p, rest, path);
      assert candidates == rest + [candidates[|candidates| - 1]];
      assert p.Inside(path, candidates[|candidates| - 1]) <==> p.Nfc(candidates[|candidates| - 1]) <= p.Nfc(path);
    }
  }

  lemma BadNameIs(p: Policy, path: Path, n: nat)
    ensures p.BadNameFrom(path, n) <==> !GoodFrom(p, path, n)
  {
    forall i | n <= i < |path| ensures GoodName(p, path[i]) <==> !p.BadName(path[i]) { }
  }

  lemma GoodFurtherOn(p: Policy, path: Path, n: nat, m: nat)
    requires n <= m && GoodFrom(p, path, n)
    ensures GoodFrom(p, path, m)
  {
  }

  lemma NamesAre(p: Policy, path: Path)
    ensures GoodNames(p, path) <==> (p.Outermost(p.roots, path).Some? ==> !p.BadNameFrom(path, |p.Outermost(p.roots, path).value|))
  {
    ShortestIs(p, p.roots, path);
    var least := p.Outermost(p.roots, path);
    if least.Some? {
      BadNameIs(p, path, |least.value|);
      if GoodFrom(p, path, |least.value|) {
        forall q | q in p.roots && p.Nfc(q) <= p.Nfc(path) ensures GoodFrom(p, path, |q|) {
          GoodFurtherOn(p, path, |least.value|, |q|);
        }
      }
    }
  }

  lemma SkipIs(p: Policy, path: Path, r: Path, top: Path)
    requires p.Nfc(r) <= p.Nfc(path)
    ensures p.SkippedBelow(path, r, top) <==> !Passes(p, path, r, top)
  {
    if |top| < |path| {
      assert Hidden(path[|top|]) <==> Dotted(path[|top|]);
      assert |p.Nfc(top)| != |p.Nfc(path)|;
    }
  }

  lemma SkipsAre(p: Policy, path: Path, r: Path)
    requires p.Nfc(r) <= p.Nfc(path)
    ensures NotSkipped(p, path, r) <==> forall i :: 0 <= i < |p.skipHiddenTops| ==> !p.SkippedBelow(path, r, p.skipHiddenTops[i])
  {
    forall i | 0 <= i < |p.skipHiddenTops|
      ensures p.skipHiddenTops[i] in p.skipHiddenTops
      ensures p.SkippedBelow(path, r, p.skipHiddenTops[i]) <==> !Passes(p, path, r, p.skipHiddenTops[i])
    {
      SkipIs(p, path, r, p.skipHiddenTops[i]);
    }
  }

  lemma ExcludedIs(p: Policy, path: Path, roots: seq<Path>)
    ensures p.Excluded(path, roots) <==> !OutsideAll(p, path, roots)
  {
    forall x ensures p.Inside(path, x) <==> p.Nfc(x) <= p.Nfc(path) { }
    if p.Excluded(path, roots) {
      var i :| 0 <= i < |roots| && p.Inside(path, roots[i]);
      assert roots[i] in roots;
    }
  }

  /** A path is accepted exactly when it lies outside the staging directories and the excluded trees, all its
      names below a selected root are good, and some longest selected root above it leads to it past nothing
      hidden, nothing skipped and nothing excluded for that root. */
  lemma AcceptedIff(p: Policy, path: Path)
    ensures p.AcceptsLexically(path)
            <==> !InStaging(path) && OutsideAll(p, path, p.excludes) && GoodNames(p, path) && exists r :: Fits(p, path, r)
  {
    StagingIs(path);
    ExcludedIs(p, path, p.excludes);
    NamesAre(p, path);
    SomeFits(p, path);
    Parts(p, path);
  }

  lemma Parts(p: Policy, path: Path)
    ensures p.AcceptsLexically(path)
            <==> && !ManagedCloud(path) && !p.Excluded(path, p.excludes)
                 && (p.Outermost(p.roots, path).Some? ==> !p.BadNameFrom(path, |p.Outermost(p.roots, path).value|))
                 && p.RootFor(path).Some? && Leads(p, path, p.RootFor(path).value)
  {
  }

  /** The checks that depend on the chosen root. */
  predicate Leads(p: Policy, path: Path, r: Path) {
    && p.HiddenBoundary(path, false).None?
    && (p.Nfc(r) in p.rootExcludes ==> !p.Excluded(path, p.rootExcludes[p.Nfc(r)]))
    && forall i :: 0 <= i < |p.skipHiddenTops| ==> !p.SkippedBelow(path, r, p.skipHiddenTops[i])
  }

  lemma SomeFits(p: Policy, path: Path)
    ensures (exists r :: Fits(p, path, r)) <==> p.RootFor(path).Some? && Fits(p, path, p.RootFor(path).value)
    ensures p.RootFor(path).Some? ==>
      var r := p.RootFor(path).value;
      (Fits(p, path, r) <==> Leads(p, path, r))
  {
    if p.RootFor(path).Some? {
      RootChosen(p, path);
      FitsIs(p, path, p.RootFor(path).value);
    }
    forall r | Fits(p, path, r) ensures p.RootFor(path).Some? && Fits(p, path, p.RootFor(path).value) {
      AlikeFits(p, path, r);
    }
  }

  lemma AlikeFits(p: Policy, path: Path, r: Path)
    requires Fits(p, path, r)
    ensures p.RootFor(path).Some? && Fits(p, path, p.RootFor(path).value)
  {
    ChosenRoot(p, path, r);
    var best := p.RootFor(path).value;
    assert |best| == |r|;
    forall top | top in p.skipHiddenTops ensures Passes(p, path, best, top) { assert Passes(p, path, r, top); }
  }

  lemma HiddenIs(p: Policy, path: Path, r: Path)
    requires p.RootFor(path) == Some(r)
    ensures NothingHidden(path, r) <==> p.HiddenBoundary(path, false).None?
  {
    NoneHidden(p, path, |r|, if path == [] then 0 else |path| - 1);
  }

  lemma ExcludedForIs(p: Policy, path: Path, r: Path)
    ensures NotExcludedFor(p, path, r) <==> (p.Nfc(r) in p.rootExcludes ==> !p.Excluded(path, p.rootExcludes[p.Nfc(r)]))
  {
    if p.Nfc(r) in p.rootExcludes {
      ExcludedIs(p, path, p.rootExcludes[p.Nfc(r)]);
    }
  }

  lemma FitsIs(p: Policy, path: Path, r: Path)
    requires p.RootFor(path) == Some(r) && Chosen(p, path, r)
    ensures Fits(p, path, r) <==> Leads(p, path, r)
  {
    HiddenIs(p, path, r);
    SkipsAre(p, path, r);
    ExcludedForIs(p, path, r);
  }

  /** The last name below the root is not hidden. */
  predicate OpenBelow(path: Path, r: Path) { |r| < |path| ==> !Dotted(path[|path| - 1]) }

  lemma OpenIs(p: Policy, path: Path, r: Path)
    requires p.RootFor(path) == Some(r) && p.HiddenBoundary(path, false).None?
    ensures p.HiddenBoundary(path, true).None? <==> OpenBelow(path, r)
  {
    NoneHidden(p, path, |r|, if path == [] then 0 else |path| - 1);
    NoneHidden(p, path, |r|, |path|);
  }

  lemma AlikeOpen(p: Policy, path: Path, q: Path, r: Path)
    requires Chosen(p, path, q) && Chosen(p, path, r)
    ensures OpenBelow(path, q) <==> OpenBelow(path, r)
  {
    assert |q| == |r|;
  }

  /** An accepted directory is in addition not hidden itself, unless it is the chosen root. */
  lemma AcceptedDirectoryIff(p: Policy, path: Path)
    ensures p.AcceptsDirectory(path) <==> p.AcceptsLexically(path) && exists r :: Chosen(p, path, r) && OpenBelow(path, r)
  {
    if p.RootFor(path).Some? && p.HiddenBoundary(path, false).None? {
      var r := p.RootFor(path).value;
      RootChosen(p, path);
      OpenIs(p, path, r);
      if q :| Chosen(p, path, q) && OpenBelow(path, q) {
        AlikeOpen(p, path, q, r);
      }
    }
  }
}
