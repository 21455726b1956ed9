/** The directory layout of the application (`getPortablePaths` in
    jdextract/app.go): the root is the directory of the resolved executable
    or, on macOS, the directory that holds the enclosing `.app` bundle.

    Paths are POSIX paths in the form `filepath.EvalSymlinks` returns them:
    absolute and clean. */
module Paths {
  import opened GoStrings

  const BundleSuffix := ".app"

  /** `p` names a `.` or `..` component starting at index `k`. */
  predicate DotComponentAt(p: string, k: nat) {
    k < |p| && p[k] == '.' &&
    (k + 1 == |p| || p[k + 1] == '/' || (p[k + 1] == '.' && (k + 2 == |p| || p[k + 2] == '/')))
  }

  /** An absolute path as `filepath.Clean` leaves it: it starts with a slash,
      has no empty, `.` or `..` component and no trailing slash, or is "/". */
  predicate CleanAbs(p: string) {
    |p| >= 1 && p[0] == '/' &&
    (p == "/" ||
     (p[|p| - 1] != '/' &&
      forall i :: 0 <= i < |p| && p[i] == '/' ==> i + 1 < |p| && p[i + 1] != '/' && !DotComponentAt(p, i + 1)))
  }

  /** The index of the last slash. */
  function LastSlash(p: string): (k: nat)
    requires |p| >= 1 && p[0] == '/'
    ensures k < |p| && p[k] == '/'
    ensures forall j :: k < j < |p| ==> p[j] != '/'
    decreases |p|
  {
    if p[|p| - 1] == '/' then |p| - 1 else LastSlash(p[..|p| - 1])
  }

  /** `filepath.Dir` on a clean absolute path: everything before the last
      slash, or "/" when that is the first character. */
  function Dir(p: string): (d: string)
    requires CleanAbs(p)
    ensures CleanAbs(d)
    ensures p == "/" ==> d == "/"
    ensures p != "/" ==> |d| < |p| && (d == "/" || p == d + "/" + p[|d| + 1..])
  {
    if p == "/" then "/"
    else
      var k := LastSlash(p);
      if k == 0 then "/"
      else
        PrefixClean(p, k);
        p[..k]
  }

  /** Cutting a clean path before one of its slashes leaves a clean path. */
  lemma PrefixClean(p: string, k: nat)
    requires CleanAbs(p) && p != "/" && 0 < k < |p| && p[k] == '/'
    ensures CleanAbs(p[..k])
  {
    var q := p[..k];
    assert p[k - 1] != '/';
    forall i | 0 <= i < |q| && q[i] == '/'
      ensures i + 1 < |q| && q[i + 1] != '/' && !DotComponentAt(q, i + 1)
    {
      assert i != k - 1;
    }
  }

  /** A single path element: not empty, without a slash, and neither `.` nor `..`. */
  predicate Element(name: string) {
    name != [] && name != "." && name != ".." && forall i :: 0 <= i < |name| ==> name[i] != '/'
  }

  /** `filepath.Base` on a clean absolute path other than "/": the last element. */
  function Base(p: string): string
    requires CleanAbs(p)
  {
    if p == "/" then "/" else p[LastSlash(p) + 1..]
  }

  /** `filepath.Join(d, name)` for a clean absolute `d` and one element. */
  function Join(d: string, name: string): (r: string)
    requires CleanAbs(d) && Element(name)
    ensures CleanAbs(r)
    ensures Dir(r) == d && Base(r) == name
  {
    var r := if d == "/" then "/" + name else d + "/" + name;
    JoinClean(d, name, r);
    JoinParts(d, name, r);
    r
  }

  lemma JoinClean(d: string, name: string, r: string)
    requires CleanAbs(d) && Element(name)
    requires r == if d == "/" then "/" + name else d + "/" + name
    ensures CleanAbs(r)
  {
    var k := |r| - |name| - 1;
    forall i: nat | i < |r| && r[i] == '/'
      ensures i + 1 < |r| && r[i + 1] != '/' && !DotComponentAt(r, i + 1)
    {
      if d != "/" && i < k {
        assert r[i] == d[i] && i + 1 < |d|;
        assert r[i + 1] == d[i + 1];
        assert !DotComponentAt(d, i + 1);
        assert r[..|d| + 1] == d + "/";
      } else {
        assert forall j :: k < j < |r| ==> r[j] == name[j - k - 1];
        assert i == k;
        assert r[k + 1..] == name;
        assert DotComponentAt(r, i + 1) ==> name == "." || name == "..";
      }
    }
  }

  lemma JoinParts(d: string, name: string, r: string)
    requires CleanAbs(d) && Element(name) && CleanAbs(r)
    requires r == if d == "/" then "/" + name else d + "/" + name
    ensures Dir(r) == d && Base(r) == name
  {
    var k := |r| - |name| - 1;
    assert r[k] == '/' && r[k + 1..] == name;
    assert forall j :: k < j < |r| ==> r[j] == name[j - k - 1];
    LastSlashIs(r, k);
    if d == "/" {
      assert k == 0;
    } else {
      assert r[..k] == d;
    }
  }

  lemma LastSlashIs(p: string, k: nat)
    requires |p| >= 1 && p[0] == '/' && k < |p| && p[k] == '/'
    requires forall j :: k < j < |p| ==> p[j] != '/'
    ensures LastSlash(p) == k
  {
    var m := LastSlash(p);
    assert !(m > k) && !(m < k);
  }

  /** `a` is `p` itself or one of its ancestors: "/", or a path that `p`
      continues with a slash. */
  predicate AncestorOrSelf(a: string, p: string) {
    CleanAbs(a) && (a == p || a == "/" || HasPrefix(p, a + "/"))
  }

  /** An ancestor-or-self whose name ends with `.app`. */
  predicate BundleAt(a: string, p: string) {
    AncestorOrSelf(a, p) && HasSuffix(a, BundleSuffix)
  }

  /** Where the walk-up loop stops, starting from `root`. */
  function WalkUp(root: string): (r: string)
    requires CleanAbs(root)
    ensures CleanAbs(r) && AncestorOrSelf(r, root)
    decreases |root|
  {
    if HasSuffix(root, BundleSuffix) then
      AncestorStep(Dir(root), root);
      Dir(root)
    else if Dir(root) == root then root
    else
      var r := WalkUp(Dir(root));
      AncestorStep(r, root);
      r
  }

  /** The paths `getPortablePaths` reports. */
  datatype PortablePaths = PortablePaths(root: string, jobs: string, data: string, config: string, templates: string)

  /** The layout under a root: `data/jobs` and `config/templates` nested
      below `data` and `config`. */
  function Layout(root: string): (paths: PortablePaths)
    requires CleanAbs(root)
    ensures paths.root == root
    ensures CleanAbs(paths.data) && CleanAbs(paths.config) && CleanAbs(paths.jobs) && CleanAbs(paths.templates)
    ensures Dir(paths.data) == root && Dir(paths.config) == root
    ensures Dir(paths.jobs) == paths.data && Dir(paths.templates) == paths.config
    ensures Base(paths.data) == "data" && Base(paths.jobs) == "jobs"
    ensures Base(paths.config) == "config" && Base(paths.templates) == "templates"
  {
    var data := Join(root, "data");
    var config := Join(root, "config");
    PortablePaths(root, Join(data, "jobs"), data, config, Join(config, "templates"))
  }

  /** `getPortablePaths` after the executable has been located: `execPath` is
      the result of `os.Executable` and `filepath.EvalSymlinks`, `darwin`
      whether `runtime.GOOS` is "darwin". */
  method GetPortablePaths(execPath: string, darwin: bool) returns (paths: PortablePaths)
    requires CleanAbs(execPath)
    ensures darwin ==> paths == Layout(WalkUp(Dir(execPath)))
    ensures !darwin ==> paths == Layout(Dir(execPath))
  {
    var root := Dir(execPath);
    if darwin {
      while true
        invariant CleanAbs(root) && WalkUp(root) == WalkUp(Dir(execPath))
        decreases |root|
      {
        if HasSuffix(root, BundleSuffix) {
          root := Dir(root);
          break;
        }
        var parent := Dir(root);
        if parent == root {
          break;
        }
        root := parent;
      }
    }
    paths := Layout(root);
  }

  /** The ancestors of a path other than "/" are the path itself and the
      ancestors of its directory. */
  lemma AncestorStep(a: string, p: string)
    requires CleanAbs(p) && p != "/"
    ensures AncestorOrSelf(a, p) <==> a == p || AncestorOrSelf(a, Dir(p))
  {
    var d := Dir(p);
    var k := LastSlash(p);
    if AncestorOrSelf(a, p) && a != p && a != "/" {
      // a + "/" starts p, so a ends just before some slash of p
      var m := |a|;
      assert p[m] == '/' by { assert (a + "/")[m] == '/'; }
      assert m <= k;
      if m == k {
        assert a == p[..k];
      } else {
        assert d == p[..k];
        assert d[..m + 1] == p[..m + 1];
      }
    }
    if AncestorOrSelf(a, d) && a != "/" {
      if a == d {
        assert d != "/";
        assert p[..|d| + 1] == d + "/";
      } else {
        assert p[..|a| + 1] == d[..|a| + 1];
      }
    }
  }

  /** Only "/" is an ancestor of "/". */
  lemma RootAncestor(a: string)
    requires AncestorOrSelf(a, "/")
    ensures a == "/"
  {
  }

  /** On macOS the root is the directory holding the nearest enclosing `.app`
      bundle (the start directory included), and "/" when there is none. */
  lemma {:induction false} WalkUpNearest(start: string)
    requires CleanAbs(start)
    ensures forall a :: BundleAt(a, start) && (forall b :: BundleAt(b, start) ==> |b| <= |a|) ==>
      WalkUp(start) == Dir(a)
    ensures (forall a :: !BundleAt(a, start)) ==> WalkUp(start) == "/"
    decreases |start|
  {
    if HasSuffix(start, BundleSuffix) {
      assert BundleAt(start, start);
      forall a | BundleAt(a, start) && (forall b :: BundleAt(b, start) ==> |b| <= |a|)
        ensures a == start
      {
        assert |start| <= |a|;
      }
    } else if Dir(start) == start {
      assert start == "/";
      forall a | AncestorOrSelf(a, start) ensures a == "/" {
        RootAncestor(a);
      }
    } else {
      var d := Dir(start);
      WalkUpNearest(d);
      forall a ensures BundleAt(a, start) <==> BundleAt(a, d) {
        AncestorStep(a, start);
      }
    }
  }
}
