/** The two numbering loops: archive paths and copies of notebooks. Both end because numbered names never repeat. */
module FreshNames {
  import opened Seqs
  import opened Text

  lemma SubsetIsSmaller<T>(a: set<T>, b: set<T>)
    requires a <= b
    ensures |a| <= |b|
  {
    if a != {} {
      var x :| x in a;
      SubsetIsSmaller(a - {x}, b - {x});
    }
  }

  /******* Numbers in decimal *******/

  function Digit(d: nat): char
    requires d < 10
  {
    (('0' as int) + d) as char
  }

  function Decimal(n: nat): (r: string)
    ensures |r| > 0
    ensures forall c :: c in r ==> '0' <= c <= '9'
  {
    if n < 10 then [Digit(n)] else Decimal(n / 10) + [Digit(n % 10)]
  }

  lemma {:induction false} DecimalInjective(a: nat, b: nat)
    requires Decimal(a) == Decimal(b)
    ensures a == b
  {
    var s, t := Decimal(a), Decimal(b);
    assert s[|s| - 1] == t[|t| - 1] && s[..|s| - 1] == t[..|t| - 1];
    if a >= 10 && b >= 10 {
      assert s[..|s| - 1] == Decimal(a / 10) && t[..|t| - 1] == Decimal(b / 10);
      DecimalInjective(a / 10, b / 10);
    }
  }

  /** What a reader makes of decimal digits, the last one counting ones. */
  ghost function ValueOf(s: string): int {
    if s == "" then 0 else 10 * ValueOf(s[..|s| - 1]) + (s[|s| - 1] as int - '0' as int)
  }

  /** The decimal of a number reads back as the number, and has no leading zero. */
  lemma {:induction false} DecimalReadsBack(n: nat)
    ensures ValueOf(Decimal(n)) == n && (n > 0 ==> Decimal(n)[0] != '0')
  {
    var s := Decimal(n);
    if n < 10 {
      assert s[..0] == "";
    } else {
      DecimalReadsBack(n / 10);
      assert s[..|s| - 1] == Decimal(n / 10);
    }
  }

  /******* Archive paths *******/

  /** `path.lastIndexOf('.')`, or -1. */
  function LastDot(path: string): (i: int)
    ensures -1 <= i < |path|
    ensures i >= 0 ==> path[i] == '.'
    ensures forall j :: i < j < |path| ==> path[j] != '.'
  {
    if path == [] then -1
    else if path[|path| - 1] == '.' then |path| - 1
    else LastDot(path[..|path| - 1])
  }

  function Stem(path: string): string { if LastDot(path) == -1 then path else path[..LastDot(path)] }

  function Extension(path: string): string { if LastDot(path) == -1 then "" else path[LastDot(path)..] }

  function NumberedPath(path: string, n: nat): string {
    Stem(path) + "-" + Decimal(n) + Extension(path)
  }

  lemma NumberedPathInjective(path: string, m: nat, n: nat)
    requires NumberedPath(path, m) == NumberedPath(path, n)
    ensures m == n
  {
    var a, b, k := NumberedPath(path, m), NumberedPath(path, n), |Stem(path)| + 1;
    assert |Decimal(m)| == |Decimal(n)|;
    assert a[k..k + |Decimal(m)|] == Decimal(m) && b[k..k + |Decimal(n)|] == Decimal(n);
    DecimalInjective(m, n);
  }

  /** The number goes between the stem and the extension, which stays what a reader takes for one. */
  lemma NumberedPathParts(path: string, n: nat)
    ensures Stem(path) + Extension(path) == path
    ensures Extension(NumberedPath(path, n)) == Extension(path) && Stem(NumberedPath(path, n)) == Stem(path) + "-" + Decimal(n)
    ensures '.' in path ==> Extension(path) != "" && Extension(path)[0] == '.' && '.' !in Extension(path)[1..]
    ensures '.' !in path ==> Stem(path) == path
  {
    var a, i, k := NumberedPath(path, n), LastDot(path), |Stem(path)| + 1 + |Decimal(n)|;
    var j := LastDot(a);
    if i >= 0 {
      assert a[k] == path[i] == '.';
      forall m | k < m < |a| ensures a[m] != '.' { assert a[m] == path[i + (m - k)]; }
      assert j == k;
      assert a[k..] == path[i..];
    } else {
      forall m | 0 <= m < |a| ensures a[m] != '.' {
        if m > |path| { assert a[m] in Decimal(n); }
      }
      assert j == -1;
    }
  }

  function NumberedPaths(path: string, n: nat): set<string> { set m: nat | 2 <= m < n :: NumberedPath(path, m) }

  lemma {:induction false} NumberedPathCount(path: string, n: nat)
    requires n >= 2
    ensures |NumberedPaths(path, n)| == n - 2
  {
    if n > 2 {
      NumberedPathCount(path, n - 1);
      var last := NumberedPath(path, n - 1);
      assert last !in NumberedPaths(path, n - 1) by {
        if m: nat :| 2 <= m < n - 1 && last == NumberedPath(path, m) { NumberedPathInjective(path, m, n - 1); }
      }
      assert NumberedPaths(path, n) == NumberedPaths(path, n - 1) + {last};
    }
  }

  function ToSet(s: seq<string>): set<string> { set x | x in s }

  /** The path itself when it is free, else the numbered path with the least free number from 2 on. */
  ghost predicate IsFreshPath(path: string, used: set<string>, r: string) {
    && r !in used
    && (path !in used ==> r == path)
    && (path in used ==> exists n: nat :: n >= 2 && r == NumberedPath(path, n) &&
                           forall m :: 2 <= m < n ==> NumberedPath(path, m) in used)
  }

  lemma IsNew(path: string, used: set<string>, r: string)
    requires IsFreshPath(path, used, r)
    ensures r !in used
  {
  }

  /** The paths handed out for one archive. */
  class UsedPaths {
    var paths: set<string>

    constructor ()
      ensures paths == {}
    {
      paths := {};
    }

    /** uniquePath: it terminates for every finite set and claims exactly one free path. */
    method Claim(path: string) returns (r: string)
      modifies this
      ensures IsFreshPath(path, old(paths), r)
      ensures paths == old(paths) + {r}
    {
      if path !in paths {
        paths := paths + {path};
        return path;
      }
      var n: nat := 2;
      r := NumberedPath(path, n);
      while r in paths
        invariant n >= 2 && r == NumberedPath(path, n) && paths == old(paths)
        invariant forall m :: 2 <= m < n ==> NumberedPath(path, m) in paths
        decreases |paths| + 2 - n
      {
        n := n + 1;
        NumberedPathCount(path, n);
        SubsetIsSmaller(NumberedPaths(path, n), paths);
        r := NumberedPath(path, n);
      }
      paths := paths + {r};
    }
  }

  /** All paths of an archive are pairwise distinct, and a path nobody claimed before is kept as it is. */
  method ArchivePaths(wanted: seq<string>) returns (paths: seq<string>)
    ensures |paths| == |wanted|
    ensures Distinct(paths)
    ensures forall i :: 0 <= i < |wanted| ==> IsFreshPath(wanted[i], ToSet(paths[..i]), paths[i])
  {
    hide IsFreshPath;
    var used := new UsedPaths();
    paths := [];
    for i := 0 to |wanted|
      invariant |paths| == i && fresh(used)
      invariant used.paths == ToSet(paths)
      invariant Distinct(paths)
      invariant forall j :: 0 <= j < i ==> IsFreshPath(wanted[j], ToSet(paths[..j]), paths[j])
    {
      ghost var before, used0 := paths, used.paths;
      var path := used.Claim(wanted[i]);
      IsNew(wanted[i], used0, path);
      assert path !in before;
      paths := paths + [path];
      assert before == paths[..i];
      assert forall j :: 0 <= j < i ==> before[..j] == paths[..j];
    }
  }

  /******* Copies of notebooks *******/

  /**
   What is asked of the locale's lower-casing: a space and digits behind a name change nothing and are not changed. Words
   end at the space, so no rule that looks at neighbours reaches across it.
   */
  ghost predicate Folding(fold: string -> string) {
    forall s, d :: IsNumbering(d) ==> fold(s + d) == fold(s) + d
  }

  predicate IsNumbering(d: string) { d != "" && d[0] == ' ' && forall i :: 1 <= i < |d| ==> '0' <= d[i] <= '9' }

  /** ASCII lower-casing is one of them. */
  lemma LowerFolds()
    ensures Folding(Lower)
  {
    forall s, d | IsNumbering(d) ensures Lower(s + d) == Lower(s) + d {
      assert Lower(d) == d;
    }
  }

  /** normalizedNotebookName. */
  function Normalized(fold: string -> string, name: string): string { fold(Trim(name)) }

  function CopyBase(name: string): (r: string)
    ensures r != "" && !IsSpace(r[0])
  {
    if Trim(name) == "" then "Notebook" else Trim(name)
  }

  /** The candidates in order: `base copy`, `base copy 2`, `base copy 3`, ... */
  function CopyCandidate(base: string, n: nat): string {
    if n < 2 then base + " copy" else base + " copy " + Decimal(n)
  }

  function Numbering(n: nat): string { " " + Decimal(n) }

  lemma NumberingIsOne(n: nat)
    ensures IsNumbering(Numbering(n)) && !IsSpace(Numbering(n)[|Numbering(n)| - 1])
  {
    assert forall i :: 0 <= i < |Decimal(n)| ==> Decimal(n)[i] in Decimal(n);
  }

  lemma NormalizedCandidate(fold: string -> string, base: string, n: nat)
    requires base != "" && !IsSpace(base[0]) && n >= 2 && Folding(fold)
    ensures Normalized(fold, CopyCandidate(base, n)) == fold(base + " copy") + Numbering(n)
  {
    hide Trim, IsSpace, Decimal, IsNumbering;
    NumberingIsOne(n);
    var s, d := base + " copy", Numbering(n);
    assert d != "";
    assert CopyCandidate(base, n) == s + d;
    EndsOf(s, d);
    assert s[0] == base[0];
    TrimOfTight(s + d);
  }

  lemma EndsOf(s: string, d: string)
    requires s != "" && d != ""
    ensures s + d != "" && (s + d)[0] == s[0] && (s + d)[|s + d| - 1] == d[|d| - 1]
  {
  }

  lemma FirstCandidate(fold: string -> string, base: string)
    requires base != "" && !IsSpace(base[0])
    ensures Normalized(fold, CopyCandidate(base, 1)) == fold(base + " copy")
  {
    TrimOfTight(CopyCandidate(base, 1));
  }

  lemma NumberingInjective(s: string, m: nat, n: nat)
    requires s + Numbering(m) == s + Numbering(n)
    ensures m == n
  {
    hide Decimal;
    assert (s + Numbering(m))[|s|..] == Numbering(m) && (s + Numbering(n))[|s|..] == Numbering(n);
    assert Numbering(m)[1..] == Decimal(m) && Numbering(n)[1..] == Decimal(n);
    DecimalInjective(m, n);
  }

  /** The numbered candidates never repeat, in any such lower-casing. */
  lemma CandidatesDiffer(fold: string -> string, base: string, m: nat, n: nat)
    requires base != "" && !IsSpace(base[0]) && 1 <= m < n && Folding(fold)
    ensures Normalized(fold, CopyCandidate(base, m)) != Normalized(fold, CopyCandidate(base, n))
  {
    hide Decimal, Normalized, CopyCandidate, IsSpace, Folding;
    NormalizedCandidate(fold, base, n);
    if m == 1 {
      FirstCandidate(fold, base);
    } else {
      NormalizedCandidate(fold, base, m);
      if Normalized(fold, CopyCandidate(base, m)) == Normalized(fold, CopyCandidate(base, n)) {
        NumberingInjective(fold(base + " copy"), m, n);
      }
    }
  }

  function TriedNames(fold: string -> string, base: string, n: nat): set<string> {
    set m: nat | 1 <= m < n :: Normalized(fold, CopyCandidate(base, m))
  }

  lemma {:induction false} TriedCount(fold: string -> string, base: string, n: nat)
    requires base != "" && !IsSpace(base[0]) && n >= 1 && Folding(fold)
    ensures |TriedNames(fold, base, n)| == n - 1
  {
    hide Normalized, CopyCandidate, IsSpace, Folding;
    if n > 1 {
      TriedCount(fold, base, n - 1);
      var last := Normalized(fold, CopyCandidate(base, n - 1));
      assert last !in TriedNames(fold, base, n - 1) by {
        if m: nat :| 1 <= m < n - 1 && last == Normalized(fold, CopyCandidate(base, m)) { CandidatesDiffer(fold, base, m, n - 1); }
      }
      assert TriedNames(fold, base, n) == TriedNames(fold, base, n - 1) + {last};
    }
  }

  function NormalizedNames(fold: string -> string, names: seq<string>): set<string> { set x | x in names :: Normalized(fold, x) }

  /** The name a copy gets: the first candidate that no taken name equals up to case and outer white space. */
  ghost predicate IsCopyName(fold: string -> string, name: string, taken: set<string>, r: string) {
    && Normalized(fold, r) !in taken
    && exists n: nat :: n >= 1 && r == CopyCandidate(CopyBase(name), n) &&
         forall m :: 1 <= m < n ==> Normalized(fold, CopyCandidate(CopyBase(name), m)) in taken
  }

  /** notebookCopyName. */
  method NotebookCopyName(fold: string -> string, name: string, names: seq<string>) returns (r: string)
    requires Folding(fold)
    ensures IsCopyName(fold, name, NormalizedNames(fold, names), r)
    ensures var base := if Trim(name) == "" then "Notebook" else Trim(name);
      r == base + " copy" || exists n: nat :: n >= 2 && r == base + " copy " + Decimal(n)
    ensures forall x :: x in names ==> Normalized(fold, x) != Normalized(fold, r)
  {
    hide Normalized, CopyCandidate, CopyBase, Folding, Trim, IsSpace;
    var base := CopyBase(name);
    var taken := NormalizedNames(fold, names);
    var n: nat := 1;
    r := CopyCandidate(base, n);
    while Normalized(fold, r) in taken
      invariant n >= 1 && r == CopyCandidate(base, n)
      invariant forall m :: 1 <= m < n ==> Normalized(fold, CopyCandidate(base, m)) in taken
      decreases |taken| + 1 - n
    {
      n := n + 1;
      TriedCount(fold, base, n);
      SubsetIsSmaller(TriedNames(fold, base, n), taken);
      r := CopyCandidate(base, n);
    }
    CandidateText(name, n);
  }

  lemma CandidateText(name: string, n: nat)
    requires n >= 1
    ensures var base := if Trim(name) == "" then "Notebook" else Trim(name);
      CopyCandidate(CopyBase(name), n) == if n == 1 then base + " copy" else base + " copy " + Decimal(n)
  {
    hide Trim;
  }

  /** Both names are determined: no two answers meet the description. */
  lemma CopyNameUnique(fold: string -> string, name: string, taken: set<string>, a: string, b: string)
    requires IsCopyName(fold, name, taken, a) && IsCopyName(fold, name, taken, b)
    ensures a == b
  {
    var base := CopyBase(name);
    var m: nat :| m >= 1 && a == CopyCandidate(base, m) && forall k :: 1 <= k < m ==> Normalized(fold, CopyCandidate(base, k)) in taken;
    var n: nat :| n >= 1 && b == CopyCandidate(base, n) && forall k :: 1 <= k < n ==> Normalized(fold, CopyCandidate(base, k)) in taken;
  }

  lemma FreshPathUnique(path: string, used: set<string>, a: string, b: string)
    requires IsFreshPath(path, used, a) && IsFreshPath(path, used, b)
    ensures a == b
  {
    if path in used {
      var m: nat :| m >= 2 && a == NumberedPath(path, m) && forall k :: 2 <= k < m ==> NumberedPath(path, k) in used;
      var n: nat :| n >= 2 && b == NumberedPath(path, n) && forall k :: 2 <= k < n ==> NumberedPath(path, k) in used;
    }
  }
}
