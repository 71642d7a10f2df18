/** The `pathlib` parts the splitter relies on: a path's name, parent, stem and
    suffix, the default output directory, the extension filter of the folder scan
    and the order `sorted` puts the found files in. A path is its sequence of
    components; the empty sequence is `.`. */
module Paths {

  datatype Path = Path(parts: seq<string>)

  /** `Path.name`: the last component, or "" for `.`. */
  function Name(p: Path): string {
    if |p.parts| == 0 then "" else p.parts[|p.parts| - 1]
  }

  /** `Path.parent`: every component but the last; `.` is its own parent. */
  function Parent(p: Path): Path {
    if |p.parts| == 0 then p else Path(p.parts[..|p.parts| - 1])
  }

  /** `p / name` for a single component `name`. */
  function Child(p: Path, name: string): (r: Path)
    ensures Parent(r) == p && Name(r) == name
  {
    assert (p.parts + [name])[..|p.parts|] == p.parts;
    Path(p.parts + [name])
  }

  // ---------------------------------------------------------------------------
  // stem and suffix

  /** `str.rfind(c)`: the position of the last `c`, or -1. */
  function LastIndexOf(s: string, c: char): (r: int)
    ensures -1 <= r < |s|
    ensures r >= 0 ==> s[r] == c
    ensures forall j :: r < j < |s| ==> s[j] != c
  {
    if |s| == 0 then -1
    else if s[|s| - 1] == c then |s| - 1
    else LastIndexOf(s[..|s| - 1], c)
  }

  /** Where the suffix starts, or -1 when there is none: the last dot counts when it
      is neither the first nor the last character of the name. */
  function SuffixStart(name: string): (i: int)
    ensures i == -1 || (0 < i < |name| - 1 && name[i] == '.')
  {
    var i := LastIndexOf(name, '.');
    if 0 < i < |name| - 1 then i else -1
  }

  /** `PurePath.suffix`. */
  function Suffix(name: string): string {
    var i := SuffixStart(name);
    if i < 0 then "" else name[i..]
  }

  /** `PurePath.stem`. */
  function Stem(name: string): string {
    var i := SuffixStart(name);
    if i < 0 then name else name[..i]
  }

  /** A name is its stem followed by its suffix; the stem is never empty for a
      non-empty name, and a suffix is a dot followed by at least one character that
      is not a dot. */
  lemma StemSuffix(name: string)
    ensures Stem(name) + Suffix(name) == name
    ensures |name| > 0 ==> |Stem(name)| > 0
    ensures Suffix(name) == "" || IsExtension(Suffix(name))
  {
    var i := SuffixStart(name);
    if i >= 0 {
      assert name == name[..i] + name[i..];
      var j := LastIndexOf(name, '.');
      assert j == i;
      forall k | 1 <= k < |name[i..]|
        ensures name[i..][k] != '.'
      {
        assert name[i..][k] == name[i + k];
      }
    }
  }

  /** A dot followed by at least one character, none of them a dot. */
  predicate IsExtension(e: string) {
    |e| >= 2 && e[0] == '.' && forall k :: 1 <= k < |e| ==> e[k] != '.'
  }

  /** The suffix is the extension `e` exactly when the name ends with `e` and has
      something before it. */
  lemma SuffixIs(name: string, e: string)
    requires IsExtension(e)
    ensures Suffix(name) == e <==> |name| > |e| && name[|name| - |e|..] == e
  {
    if |name| > |e| && name[|name| - |e|..] == e {
      var d := |name| - |e|;
      assert name[d] == e[0];
      var j := LastIndexOf(name, '.');
      assert j >= d;
    }
  }

  // ---------------------------------------------------------------------------
  // default output directory

  const SplitSuffix: string := "_split"

  /** `_get_default_output_dir`: next to the input, named after the file's stem or
      the folder's name, followed by `_split`. The name gives the input's name back:
      drop `_split` and, for a file, put the suffix back on. It is never the input
      itself. */
  function DefaultOutputDir(input: Path, isFile: bool): (r: Path)
    ensures Parent(r) == Parent(input)
    ensures var n := Name(r);
      |n| >= |SplitSuffix| && n[|n| - |SplitSuffix|..] == SplitSuffix &&
      n[..|n| - |SplitSuffix|] + (if isFile then Suffix(Name(input)) else "") == Name(input)
    ensures r != input
  {
    var base := if isFile then Stem(Name(input)) else Name(input);
    var n := base + SplitSuffix;
    assert n[..|base|] == base;
    assert n[|n| - |SplitSuffix|..] == SplitSuffix;
    StemSuffix(Name(input));
    Child(Parent(input), n)
  }

  // ---------------------------------------------------------------------------
  // the folder scan

  const SqlExtensions: seq<string> := [".sql", ".ddl", ".SQL", ".DDL"]

  /** One result of the recursive glob: a path and whether it is a regular file. */
  datatype Entry = Entry(path: Path, isFile: bool)

  /** The filter of `_find_ddl_files`: a regular file whose suffix is one of the
      four spellings; the comparison is case-sensitive. A file is kept exactly when
      its name is something followed by `.sql`, `.ddl`, `.SQL` or `.DDL`. A
      mixed-case `.Sql` is none of them, and a bare `.sql` has no suffix. */
  predicate IsDdlFile(e: Entry)
    ensures IsDdlFile(e) <==>
      (e.isFile &&
       (EndsWith(Name(e.path), ".sql") || EndsWith(Name(e.path), ".ddl") ||
        EndsWith(Name(e.path), ".SQL") || EndsWith(Name(e.path), ".DDL")))
    ensures Suffix(Name(e.path)) == ".Sql" ==> !IsDdlFile(e)
  {
    DdlSuffix(Name(e.path));
    e.isFile && Suffix(Name(e.path)) in SqlExtensions
  }

  lemma DdlSuffix(name: string)
    ensures Suffix(name) in SqlExtensions <==>
      (EndsWith(name, ".sql") || EndsWith(name, ".ddl") || EndsWith(name, ".SQL") || EndsWith(name, ".DDL"))
  {
    KnownSuffix(name, 0);
    KnownSuffix(name, 1);
    KnownSuffix(name, 2);
    KnownSuffix(name, 3);
    InExtensions(Suffix(name), EndsWith(name, ".sql"), EndsWith(name, ".ddl"),
                 EndsWith(name, ".SQL"), EndsWith(name, ".DDL"));
  }

  lemma KnownSuffix(name: string, k: nat)
    requires k < |SqlExtensions|
    ensures Suffix(name) == SqlExtensions[k] <==> EndsWith(name, SqlExtensions[k])
  {
    var e := SqlExtensions[k];
    assert IsExtension(e);
    SuffixIs(name, e);
  }

  /** Membership in the four spellings, each decided by its own test. */
  lemma InExtensions(x: string, sql: bool, ddl: bool, upperSql: bool, upperDdl: bool)
    requires (x == ".sql") == sql && (x == ".ddl") == ddl
    requires (x == ".SQL") == upperSql && (x == ".DDL") == upperDdl
    ensures x in SqlExtensions <==> sql || ddl || upperSql || upperDdl
  {
  }

  predicate EndsWith(s: string, e: string) {
    |s| > |e| && s[|s| - |e|..] == e
  }

  function KeepDdlFiles(entries: seq<Entry>): (r: seq<Path>)
    ensures |r| <= |entries|
  {
    if |entries| == 0 then []
    else (if IsDdlFile(entries[0]) then [entries[0].path] else []) + KeepDdlFiles(entries[1..])
  }

  /** The paths of the kept entries, counted with multiplicity. */
  lemma {:induction false} KeepDdlFilesContents(entries: seq<Entry>, p: Path)
    ensures multiset(KeepDdlFiles(entries))[p] == CountDdl(entries, p)
  {
    if |entries| > 0 {
      KeepDdlFilesContents(entries[1..], p);
    }
  }

  /** How many entries are DDL files at path `p`. */
  function CountDdl(entries: seq<Entry>, p: Path): nat {
    if |entries| == 0 then 0
    else (if IsDdlFile(entries[0]) && entries[0].path == p then 1 else 0) + CountDdl(entries[1..], p)
  }

  /** `_find_ddl_files`: the DDL files among the scanned entries, sorted. */
  function FindDdlFiles(entries: seq<Entry>): (r: seq<Path>)
    ensures Sorted(r)
    ensures multiset(r) == multiset(KeepDdlFiles(entries))
  {
    SortPaths(KeepDdlFiles(entries))
  }

  /** A path is found exactly as often as it is a scanned DDL file; in particular
      every found path is a DDL file and every DDL file is found. */
  lemma FindDdlFilesComplete(entries: seq<Entry>, p: Path)
    ensures multiset(FindDdlFiles(entries))[p] == CountDdl(entries, p)
    ensures p in FindDdlFiles(entries) <==> CountDdl(entries, p) > 0
  {
    KeepDdlFilesContents(entries, p);
    assert p in multiset(FindDdlFiles(entries)) <==> p in FindDdlFiles(entries);
  }

  // ---------------------------------------------------------------------------
  // path order

  /** `str` comparison: code point by code point, a proper prefix first. */
  predicate StrLe(a: string, b: string) {
    |a| == 0 || (|b| > 0 && (a[0] < b[0] || (a[0] == b[0] && StrLe(a[1..], b[1..]))))
  }

  /** Comparison of `PurePath`s on POSIX: their components as lists of strings. */
  predicate PartsLe(p: seq<string>, q: seq<string>) {
    |p| == 0 || (|q| > 0 && ((StrLe(p[0], q[0]) && p[0] != q[0]) || (p[0] == q[0] && PartsLe(p[1..], q[1..]))))
  }

  predicate PathLe(p: Path, q: Path) {
    PartsLe(p.parts, q.parts)
  }

  lemma {:induction false} StrLeTotal(a: string, b: string)
    ensures StrLe(a, b) || StrLe(b, a)
  {
    if |a| > 0 && |b| > 0 && a[0] == b[0] {
      StrLeTotal(a[1..], b[1..]);
    }
  }

  lemma {:induction false} StrLeReflexive(a: string)
    ensures StrLe(a, a)
  {
    if |a| > 0 {
      StrLeReflexive(a[1..]);
    }
  }

  lemma {:induction false} StrLeAntisymmetric(a: string, b: string)
    requires StrLe(a, b) && StrLe(b, a)
    ensures a == b
  {
    if |a| > 0 {
      StrLeAntisymmetric(a[1..], b[1..]);
      assert a == [a[0]] + a[1..] && b == [b[0]] + b[1..];
    }
  }

  lemma {:induction false} StrLeTransitive(a: string, b: string, c: string)
    requires StrLe(a, b) && StrLe(b, c)
    ensures StrLe(a, c)
  {
    if |a| > 0 && a[0] == b[0] && b[0] == c[0] {
      StrLeTransitive(a[1..], b[1..], c[1..]);
    }
  }

  lemma {:induction false} PartsLeTotal(p: seq<string>, q: seq<string>)
    ensures PartsLe(p, q) || PartsLe(q, p)
  {
    if |p| > 0 && |q| > 0 {
      StrLeTotal(p[0], q[0]);
      if p[0] == q[0] {
        PartsLeTotal(p[1..], q[1..]);
      }
    }
  }

  lemma {:induction false} PartsLeTransitive(p: seq<string>, q: seq<string>, r: seq<string>)
    requires PartsLe(p, q) && PartsLe(q, r)
    ensures PartsLe(p, r)
  {
    if |p| > 0 {
      if p[0] == q[0] && q[0] == r[0] {
        PartsLeTransitive(p[1..], q[1..], r[1..]);
      } else {
        StrLeReflexive(p[0]);
        StrLeReflexive(q[0]);
        StrLeTransitive(p[0], q[0], r[0]);
        if p[0] == r[0] {
          StrLeAntisymmetric(p[0], q[0]);
        }
      }
    }
  }

  /** Neighbouring paths are in order. */
  predicate Sorted(s: seq<Path>) {
    forall i :: 0 < i < |s| ==> PathLe(s[i - 1], s[i])
  }

  /** Because the order is transitive, neighbours in order means every pair in order. */
  lemma {:induction false} SortedPairs(s: seq<Path>, i: nat, j: nat)
    requires Sorted(s) && i <= j < |s|
    ensures PathLe(s[i], s[j])
    decreases j - i
  {
    if i == j {
      PartsLeReflexive(s[i].parts);
    } else {
      SortedPairs(s, i + 1, j);
      PartsLeTransitive(s[i].parts, s[i + 1].parts, s[j].parts);
    }
  }

  lemma {:induction false} PartsLeReflexive(p: seq<string>)
    ensures PartsLe(p, p)
  {
    if |p| > 0 {
      PartsLeReflexive(p[1..]);
    }
  }

  /** Put `x` before the first element it is not after. */
  function Insert(x: Path, s: seq<Path>): (r: seq<Path>)
    ensures multiset(r) == multiset(s) + multiset{x}
  {
    if |s| == 0 then [x]
    else if PathLe(x, s[0]) then [x] + s
    else (assert s == [s[0]] + s[1..]; [s[0]] + Insert(x, s[1..]))
  }

  lemma {:induction false} InsertSorted(x: Path, s: seq<Path>)
    requires Sorted(s)
    ensures Sorted(Insert(x, s))
    ensures |s| > 0 ==> Insert(x, s)[0] == x || Insert(x, s)[0] == s[0]
  {
    if |s| > 0 && !PathLe(x, s[0]) {
      var t := s[1..];
      assert Sorted(t) by {
        forall i | 0 < i < |t|
          ensures PathLe(t[i - 1], t[i])
        {
          assert t[i - 1] == s[i] && t[i] == s[i + 1];
        }
      }
      InsertSorted(x, t);
      PartsLeTotal(x.parts, s[0].parts);
      var r := Insert(x, s);
      assert r == [s[0]] + Insert(x, t);
      forall i | 0 < i < |r|
        ensures PathLe(r[i - 1], r[i])
      {
        if i > 1 {
          assert r[i - 1] == Insert(x, t)[i - 2] && r[i] == Insert(x, t)[i - 1];
        } else if |t| > 0 && Insert(x, t)[0] == t[0] {
          assert PathLe(s[0], s[1]);
        }
      }
    }
  }

  /** `sorted(...)`: insertion sort. */
  function SortPaths(s: seq<Path>): (r: seq<Path>)
    ensures multiset(r) == multiset(s)
    ensures Sorted(r)
  {
    if |s| == 0 then []
    else
      assert s == [s[0]] + s[1..];
      InsertSorted(s[0], SortPaths(s[1..]));
      Insert(s[0], SortPaths(s[1..]))
  }
}
