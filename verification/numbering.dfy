/** The numbering loop of `split_single_file`: every statement gets the 1-based
    position `i` it has in the statement list, blank statements are skipped but
    keep their number, and each other statement is written to
    `<prefix>_<i:04d>_<sanitised name>.sql` holding its stripped text and a newline. */
module Numbering {
  import opened Chars
  import opened Text
  import opened Decimal
  import opened Sanitize
  import opened ObjectName

  /** `f"{source_prefix}_{i:04d}_{sanitized_name}.sql"`. */
  function OutputFileName(prefix: string, index: nat, name: string): (f: string)
    ensures |f| == |prefix| + |Pad4(index)| + |name| + 6
    ensures f[..|prefix|] == prefix && f[|prefix|] == '_'
    ensures AllDigits(f[|prefix| + 1..|prefix| + 1 + |Pad4(index)|])
    ensures f[|prefix| + 1 + |Pad4(index)|] == '_'
    ensures f[|f| - 4..] == ".sql"
  {
    var pad := Pad4(index);
    var f := prefix + "_" + pad + "_" + name + ".sql";
    assert f[|prefix| + 1..|prefix| + 1 + |pad|] == pad;
    f
  }

  /** Length of the run of decimal digits at the start of `s`. */
  function DigitRun(s: string): (k: nat)
    ensures k <= |s|
    ensures AllDigits(s[..k])
    ensures k < |s| ==> !IsDigit(s[k])
  {
    if |s| > 0 && IsDigit(s[0]) then
      assert s[..1 + DigitRun(s[1..])] == [s[0]] + s[1..][..DigitRun(s[1..])];
      1 + DigitRun(s[1..])
    else 0
  }

  /** Reads the index back out of an output file name, given the prefix it was made with. */
  function IndexOf(prefix: string, filename: string): nat {
    if |filename| <= |prefix| then 0
    else
      var rest := filename[|prefix| + 1..];
      Parse(rest[..DigitRun(rest)])
  }

  /** The index is recovered from the file name, whatever the prefix and the name hold. */
  lemma IndexOfOutputFileName(prefix: string, index: nat, name: string)
    ensures IndexOf(prefix, OutputFileName(prefix, index, name)) == index
  {
    var f := OutputFileName(prefix, index, name);
    var pad := Pad4(index);
    var after := "_" + name + ".sql";
    assert f == prefix + "_" + (pad + after);
    var rest := f[|prefix| + 1..];
    assert rest == pad + after;
    DigitRunOf(pad, after);
    assert rest[..|pad|] == pad;
    Pad4Parse(index);
  }

  lemma {:induction false} DigitRunOf(a: string, b: string)
    requires AllDigits(a)
    requires b == [] || !IsDigit(b[0])
    ensures DigitRun(a + b) == |a|
    decreases |a|
  {
    if |a| == 0 {
      assert a + b == b;
    } else {
      assert (a + b)[1..] == a[1..] + b;
      DigitRunOf(a[1..], b);
    }
  }

  /** Two statements of one file with different numbers never share a file name. */
  lemma OutputFileNamesDistinct(prefix: string, i: nat, a: string, j: nat, b: string)
    requires i != j
    ensures OutputFileName(prefix, i, a) != OutputFileName(prefix, j, b)
  {
    IndexOfOutputFileName(prefix, i, a);
    IndexOfOutputFileName(prefix, j, b);
  }

  /** `not statement.strip()`: the statement is nothing but whitespace. */
  predicate Blank(statement: string) {
    |statement| == 0 || (IsSpace(statement[0]) && Blank(statement[1..]))
  }

  /** A statement is blank exactly when every character is whitespace, that is
      when stripping leaves nothing. */
  lemma {:induction false} BlankIsStripEmpty(statement: string)
    ensures Blank(statement) <==> AllSpace(statement)
    ensures Blank(statement) <==> Strip(statement) == []
  {
    if |statement| > 0 {
      BlankIsStripEmpty(statement[1..]);
      assert forall i :: 1 <= i < |statement| ==> statement[i] == statement[1..][i - 1];
    }
    StripShape(statement);
  }

  /** The sanitised object name of a statement, `_sanitize_filename(_extract_object_name(s))`.
      `hash` stands for Python's per-process `hash` of the statement. */
  function ObjectFileStem(statement: string, hash: int): (r: string)
    ensures |r| <= MaxLength
    ensures forall i :: 0 <= i < |r| ==> !IsForbidden(r[i])
  {
    SanitizeFilename(ExtractObjectName(statement, hash))
  }

  /** The file a non-blank statement at position `index` goes to; `nameOf` gives the
      object-name part. */
  function StatementFileName(prefix: string, index: nat, statement: string, nameOf: string -> string): string {
    OutputFileName(prefix, index, nameOf(statement))
  }

  /** What is written for a statement: its stripped text and a newline. */
  function StatementBody(statement: string): string {
    Strip(statement) + "\n"
  }

  datatype Emitted = Emitted(index: nat, filename: string, body: string)

  /** `e` records a successful write of statement number `e.index`. */
  predicate IsEmitted(prefix: string, statements: seq<string>, nameOf: string -> string,
                      written: string -> bool, e: Emitted) {
    && 1 <= e.index <= |statements|
    && !Blank(statements[e.index - 1])
    && e.filename == StatementFileName(prefix, e.index, statements[e.index - 1], nameOf)
    && e.body == StatementBody(statements[e.index - 1])
    && written(e.filename)
  }

  /** Statement number `index` is not blank and writing its file succeeds. */
  predicate Succeeds(prefix: string, statements: seq<string>, nameOf: string -> string,
                     written: string -> bool, index: nat) {
    && 1 <= index <= |statements|
    && !Blank(statements[index - 1])
    && written(StatementFileName(prefix, index, statements[index - 1], nameOf))
  }

  predicate Listed(files: seq<Emitted>, index: nat) {
    exists k :: 0 <= k < |files| && files[k].index == index
  }

  /** Every record in `files` is a successful write. */
  predicate AllEmitted(prefix: string, statements: seq<string>, nameOf: string -> string,
                       written: string -> bool, files: seq<Emitted>) {
    forall k :: 0 <= k < |files| ==> IsEmitted(prefix, statements, nameOf, written, files[k])
  }

  /** The records come in strictly increasing statement order, none after `n`. */
  predicate Increasing(files: seq<Emitted>, n: nat) {
    && (forall k :: 0 <= k < |files| ==> files[k].index <= n)
    && (forall k, l :: 0 <= k < l < |files| ==> files[k].index < files[l].index)
  }

  /** Statement number `n`, or "" for a number outside the list. */
  function StatementAt(statements: seq<string>, n: nat): string {
    if 1 <= n <= |statements| then statements[n - 1] else ""
  }

  /** The record of writing statement number `n`. */
  function Record(prefix: string, statements: seq<string>, nameOf: string -> string, n: nat): Emitted {
    Emitted(n, StatementFileName(prefix, n, StatementAt(statements, n), nameOf),
            StatementBody(StatementAt(statements, n)))
  }

  lemma NewEmitted(prefix: string, statements: seq<string>, nameOf: string -> string,
                   written: string -> bool, n: nat)
    requires Succeeds(prefix, statements, nameOf, written, n)
    ensures IsEmitted(prefix, statements, nameOf, written, Record(prefix, statements, nameOf, n))
  {
    assert StatementAt(statements, n) == statements[n - 1];
  }

  // ---------------------------------------------------------------------------
  // The loop's bookkeeping, over an abstract outcome `ok` and record `rec` per number

  /** The records kept for numbers `1 .. n`, in order: number `i` contributes
      `rec(i)` when `ok(i)`. */
  function Collect(ok: nat -> bool, rec: nat -> Emitted, n: nat): (r: seq<Emitted>)
    ensures |r| <= n
  {
    if n == 0 then []
    else if ok(n) then Collect(ok, rec, n - 1) + [rec(n)]
    else Collect(ok, rec, n - 1)
  }

  /** Record `i` is about number `i`. */
  ghost predicate Numbered(rec: nat -> Emitted) {
    forall i: nat :: rec(i).index == i
  }

  /** Every kept record is the record of a number whose outcome is `ok`, and the
      records come in increasing order. */
  lemma {:induction false} CollectSound(ok: nat -> bool, rec: nat -> Emitted, n: nat)
    requires Numbered(rec)
    ensures forall k :: 0 <= k < |Collect(ok, rec, n)| ==>
      ok(Collect(ok, rec, n)[k].index) && Collect(ok, rec, n)[k] == rec(Collect(ok, rec, n)[k].index)
    ensures Increasing(Collect(ok, rec, n), n)
  {
    if n > 0 {
      CollectSound(ok, rec, n - 1);
      var prev := Collect(ok, rec, n - 1);
      if ok(n) {
        var c := prev + [rec(n)];
        assert c[|prev|] == rec(n);
        assert forall k :: 0 <= k < |prev| ==> c[k] == prev[k];
      }
    }
  }

  /** Every number `j <= n` whose outcome is `ok` has its record kept. */
  lemma {:induction false} CollectComplete(ok: nat -> bool, rec: nat -> Emitted, n: nat, j: nat)
    requires Numbered(rec) && 1 <= j <= n && ok(j)
    ensures Listed(Collect(ok, rec, n), j)
  {
    var prev := Collect(ok, rec, n - 1);
    if j < n {
      CollectComplete(ok, rec, n - 1, j);
    }
    if ok(n) {
      ListedAppend(prev, rec(n), j);
    }
  }

  lemma ListedAppend(files: seq<Emitted>, e: Emitted, j: nat)
    requires Listed(files, j) || j == e.index
    ensures Listed(files + [e], j)
  {
    if j == e.index {
      assert (files + [e])[|files|] == e;
    } else {
      var k :| 0 <= k < |files| && files[k].index == j;
      assert (files + [e])[k] == files[k];
    }
  }

  /** The loop of `split_single_file`. `nameOf` names a statement's file (the pipeline
      passes `ObjectFileStem`); `written(filename)` is the outcome of writing that file,
      and a write that raises is caught and not counted. Returns the statement
      count, the number of successful splits and the files written, in order. */
  method SplitStatements(prefix: string, statements: seq<string>, nameOf: string -> string,
                         written: string -> bool)
    returns (total: nat, successes: nat, files: seq<Emitted>)
    ensures total == |statements|
    ensures successes == |files| <= total
    ensures AllEmitted(prefix, statements, nameOf, written, files)
    ensures Increasing(files, |statements|)
    ensures forall i: nat :: Succeeds(prefix, statements, nameOf, written, i) <==> Listed(files, i)
    ensures forall k, l :: 0 <= k < l < |files| ==> files[k].filename != files[l].filename
  {
    var ok := (n: nat) => Succeeds(prefix, statements, nameOf, written, n);
    var rec := (n: nat) => Record(prefix, statements, nameOf, n);
    successes := 0;
    files := [];
    var i := 1;
    while i <= |statements|
      invariant 1 <= i <= |statements| + 1
      invariant files == Collect(ok, rec, i - 1)
      invariant successes == |files|
    {
      var statement := statements[i - 1];
      assert StatementAt(statements, i) == statement;
      if !Blank(statement) {
        var filename := StatementFileName(prefix, i, statement, nameOf);
        assert ok(i) == written(filename);
        if written(filename) {
          assert rec(i) == Emitted(i, filename, StatementBody(statement));
          files := files + [Emitted(i, filename, StatementBody(statement))];
          successes := successes + 1;
        }
      } else {
        assert !ok(i);
      }
      i := i + 1;
    }
    total := |statements|;
    CollectedFiles(prefix, statements, nameOf, written, ok, rec);
  }

  /** The properties of the whole run, gathered. */
  lemma CollectedFiles(prefix: string, statements: seq<string>, nameOf: string -> string,
                       written: string -> bool, ok: nat -> bool, rec: nat -> Emitted)
    requires forall n: nat :: ok(n) == Succeeds(prefix, statements, nameOf, written, n)
    requires forall n: nat :: rec(n) == Record(prefix, statements, nameOf, n)
    ensures var files := Collect(ok, rec, |statements|);
      && AllEmitted(prefix, statements, nameOf, written, files)
      && Increasing(files, |statements|)
      && (forall i: nat :: Succeeds(prefix, statements, nameOf, written, i) <==> Listed(files, i))
      && (forall k, l :: 0 <= k < l < |files| ==> files[k].filename != files[l].filename)
  {
    var n := |statements|;
    var files := Collect(ok, rec, n);
    assert Numbered(rec);
    CollectSound(ok, rec, n);
    forall k | 0 <= k < |files|
      ensures IsEmitted(prefix, statements, nameOf, written, files[k])
    {
      NewEmitted(prefix, statements, nameOf, written, files[k].index);
    }
    forall i: nat | Succeeds(prefix, statements, nameOf, written, i)
      ensures Listed(files, i)
    {
      CollectComplete(ok, rec, n, i);
    }
    ListedSucceeds(prefix, statements, nameOf, written, files);
    EmittedNamesDistinct(prefix, statements, nameOf, written, files);
  }

  /** Only successful writes are listed. */
  lemma ListedSucceeds(prefix: string, statements: seq<string>, nameOf: string -> string,
                       written: string -> bool, files: seq<Emitted>)
    requires AllEmitted(prefix, statements, nameOf, written, files)
    ensures forall i: nat :: Listed(files, i) ==> Succeeds(prefix, statements, nameOf, written, i)
  {
    forall i: nat | Listed(files, i)
      ensures Succeeds(prefix, statements, nameOf, written, i)
    {
      var k :| 0 <= k < |files| && files[k].index == i;
      EmittedSucceeds(prefix, statements, nameOf, written, files[k]);
    }
  }

  lemma EmittedSucceeds(prefix: string, statements: seq<string>, nameOf: string -> string,
                        written: string -> bool, e: Emitted)
    requires IsEmitted(prefix, statements, nameOf, written, e)
    ensures Succeeds(prefix, statements, nameOf, written, e.index)
  {
  }

  /** Files of distinct statements have distinct names. */
  lemma EmittedNamesDistinct(prefix: string, statements: seq<string>, nameOf: string -> string,
                             written: string -> bool, files: seq<Emitted>)
    requires AllEmitted(prefix, statements, nameOf, written, files)
    requires forall k, l :: 0 <= k < l < |files| ==> files[k].index < files[l].index
    ensures forall k, l :: 0 <= k < l < |files| ==> files[k].filename != files[l].filename
  {
    forall k, l | 0 <= k < l < |files|
      ensures files[k].filename != files[l].filename
    {
      var nk := EmittedName(prefix, statements, nameOf, written, files[k]);
      var nl := EmittedName(prefix, statements, nameOf, written, files[l]);
      OutputFileNamesDistinct(prefix, files[k].index, nk, files[l].index, nl);
    }
  }

  /** The object-name part of an emitted file's name. */
  lemma EmittedName(prefix: string, statements: seq<string>, nameOf: string -> string,
                    written: string -> bool, e: Emitted) returns (name: string)
    requires IsEmitted(prefix, statements, nameOf, written, e)
    ensures e.filename == OutputFileName(prefix, e.index, name)
  {
    name := nameOf(statements[e.index - 1]);
  }

  /** Below 10000 statements every index is padded to exactly four digits. */
  lemma IndexWidth(prefix: string, index: nat, name: string)
    requires 1 <= index < 10000
    ensures |OutputFileName(prefix, index, name)| == |prefix| + |name| + 10
  {
    Pad4Width(index);
  }
}
