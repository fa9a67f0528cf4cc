/**
 * The two POSIX path functions the download pipeline calls: os.path.join with
 * two components and os.path.splitext.
 */
module OsPath {
  import opened PyText

  type Path = string

  predicate IsAbsolute(p: Path)
  {
    |p| > 0 && p[0] == '/'
  }

  predicate EndsWith(s: string, suffix: string)
  {
    |suffix| <= |s| && s[|s| - |suffix|..] == suffix
  }

  /** os.path.join(a, b): an absolute b replaces a; otherwise one '/' separates
      them unless a is empty or already ends with one. */
  function Join(a: Path, b: Path): Path
  {
    if IsAbsolute(b) then b
    else if a == [] || a[|a| - 1] == '/' then a + b
    else a + "/" + b
  }

  /** The joined path always ends with b; a relative b is appended to a, with
      exactly one '/' between them when a does not already end in one. */
  lemma JoinShape(a: Path, b: Path)
    ensures var r := Join(a, b);
      && EndsWith(r, b)
      && (IsAbsolute(b) ==> r == b)
      && (!IsAbsolute(b) ==> |a| + |b| <= |r| <= |a| + |b| + 1 && r[..|a|] == a)
      && (!IsAbsolute(b) && a != [] && a[|a| - 1] != '/' ==> r == a + "/" + b)
  {
  }

  /** Some character other than '.' lies in p[from..to]. */
  predicate HasNonDot(p: string, from: nat, to: nat)
    requires from <= to <= |p|
  {
    exists j :: from <= j < to && p[j] != '.'
  }

  /** os.path.splitext(p) as (root, ext): ext starts at the last '.' of the final
      path component, provided that component has a character other than '.'
      before it; leading dots alone never start an extension. */
  function SplitExt(p: Path): (Path, string)
  {
    var sep := RFind(p, '/');
    var dot := RFind(p, '.');
    RFindSpec(p, '/');
    RFindSpec(p, '.');
    if dot > sep && HasNonDot(p, sep + 1, dot) then (p[..dot], p[dot..])
    else (p, [])
  }

  /** Root and extension put back together are the path, and the extension is
      empty or one '.' followed by neither '.' nor '/'. */
  lemma SplitExtShape(p: Path)
    ensures SplitExt(p).0 + SplitExt(p).1 == p
    ensures var e := SplitExt(p).1;
      e == [] || (e[0] == '.' && '.' !in e[1..] && '/' !in e)
  {
    var sep := RFind(p, '/');
    var dot := RFind(p, '.');
    RFindSpec(p, '/');
    RFindSpec(p, '.');
    if dot > sep && HasNonDot(p, sep + 1, dot) {
      var e := p[dot..];
      assert forall j :: 0 <= j < |e| - 1 ==> e[1..][j] == p[dot + 1 + j];
      assert forall j :: 0 <= j < |e| ==> e[j] == p[dot + j];
    }
  }

  /** The extension part of SplitExt. */
  function Extension(p: Path): string
  {
    SplitExt(p).1
  }

  /** A final component with a stem and one last '.' splits at that dot. */
  lemma ExtensionOfStemAndSuffix(dir: Path, stem: string, e: string)
    requires dir == [] || dir[|dir| - 1] == '/'
    requires '/' !in stem && '/' !in e && '.' !in e
    requires exists j :: 0 <= j < |stem| && stem[j] != '.'
    ensures SplitExt(dir + stem + "." + e) == (dir + stem, "." + e)
  {
    var p := dir + stem + "." + e;
    var dot := |dir| + |stem|;
    assert p[dot] == '.';
    assert forall j :: dot < j < |p| ==> p[j] == e[j - dot - 1];
    RFindSpec(p, '.');
    RFindSpec(p, '/');
    assert RFind(p, '.') == dot;
    var sep := RFind(p, '/');
    assert sep < |dir| by {
      forall j | |dir| <= j < |p| ensures p[j] != '/' {
        if j < dot { assert p[j] == stem[j - |dir|]; }
      }
    }
    var k :| 0 <= k < |stem| && stem[k] != '.';
    assert sep < |dir| + k < dot && p[|dir| + k] == stem[k];
    if dir != [] {
      assert p[|dir| - 1] == '/';
    }
    assert sep == |dir| - 1;
    assert HasNonDot(p, sep + 1, dot);
    assert p[..dot] == dir + stem;
    assert p[dot..] == "." + e;
  }

  /** A component made of dots followed by a dot-free tail ('.bashrc', '..cfg')
      has no extension. */
  lemma HiddenNameHasNoExtension(dir: Path, dots: string, e: string)
    requires dir == [] || dir[|dir| - 1] == '/'
    requires forall j :: 0 <= j < |dots| ==> dots[j] == '.'
    requires '/' !in e && '.' !in e
    ensures Extension(dir + dots + "." + e) == []
  {
    var p := dir + dots + "." + e;
    var dot := |dir| + |dots|;
    assert p[dot] == '.';
    assert forall j :: dot < j < |p| ==> p[j] == e[j - dot - 1];
    RFindSpec(p, '.');
    RFindSpec(p, '/');
    assert RFind(p, '.') == dot;
    var sep := RFind(p, '/');
    assert forall j :: |dir| <= j < dot ==> p[j] == dots[j - |dir|];
    if dir != [] {
      assert p[|dir| - 1] == '/';
    }
    assert sep == |dir| - 1;
    assert !HasNonDot(p, sep + 1, dot);
  }
}
