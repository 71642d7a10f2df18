/** `split_single_file` and `split_ddl`: normalise the dump, collect the statements
    the patterns find (or fall back to the semicolon split), and write one numbered
    file per statement; in folder mode do that for every DDL file found. */
module Splitter {
  import opened Wrappers
  import opened Chars
  import opened Text
  import opened Normalize
  import opened Fallback
  import opened Numbering
  import opened Paths

  /** The number of entries of `DDL_PATTERNS`. */
  const PatternCount: nat := 23

  /** `re.findall(DDL_PATTERNS[p], content, IGNORECASE | DOTALL)`. The patterns have
      no capturing groups, so each result is a whole matched text. */
  type Matcher = (nat, string) -> seq<string>

  /** The matches of the first `n` patterns, pattern by pattern (`all_statements.extend`). */
  function MatchesUpTo(findall: Matcher, content: string, n: nat): seq<string> {
    if n == 0 then [] else MatchesUpTo(findall, content, n - 1) + findall(n - 1, content)
  }

  /** Nothing is found exactly when no pattern matches. */
  lemma {:induction false} MatchesUpToEmpty(findall: Matcher, content: string, n: nat)
    ensures MatchesUpTo(findall, content, n) == [] <==> forall p: nat :: p < n ==> findall(p, content) == []
  {
    if n > 0 {
      MatchesUpToEmpty(findall, content, n - 1);
    }
  }

  /** A statement is collected exactly when some pattern matched it. */
  lemma {:induction false} MatchesUpToMember(findall: Matcher, content: string, n: nat, st: string)
    ensures st in MatchesUpTo(findall, content, n) <==> exists p: nat :: p < n && st in findall(p, content)
  {
    if n > 0 {
      MatchesUpToMember(findall, content, n - 1, st);
    }
  }

  /** The statements of a file: those of its normalised content. */
  function FindStatements(content: string, findall: Matcher): seq<string> {
    StatementsOf(NormalizeContent(content), findall)
  }

  /** The pattern matches on normalised content `c`, or the fallback split of `c`
      when there are none. */
  function StatementsOf(c: string, findall: Matcher): (r: seq<string>)
    ensures r == [] <==> (forall p: nat :: p < PatternCount ==> findall(p, c) == []) && FallbackSplit(c) == []
  {
    var m := MatchesUpTo(findall, c, PatternCount);
    MatchesUpToEmpty(findall, c, PatternCount);
    if |m| == 0 then FallbackSplit(c) else m
  }

  /** When no pattern matches, the statements are the fallback split, with what the
      fallback promises. */
  lemma StatementsFallback(c: string, findall: Matcher)
    requires forall p: nat :: p < PatternCount ==> findall(p, c) == []
    ensures StatementsOf(c, findall) == FallbackSplit(c)
    ensures |StatementsOf(c, findall)| <= Count(c, ';') + 1
    ensures forall k :: 0 <= k < |StatementsOf(c, findall)| ==> IsFallbackStatement(StatementsOf(c, findall)[k])
  {
    MatchesUpToEmpty(findall, c, PatternCount);
  }

  /** When some pattern matches, the statements are exactly the matched texts. */
  lemma StatementsMatched(c: string, findall: Matcher, st: string)
    requires exists p: nat :: p < PatternCount && findall(p, c) != []
    ensures st in StatementsOf(c, findall) <==> exists p: nat :: p < PatternCount && st in findall(p, c)
  {
    MatchesUpToEmpty(findall, c, PatternCount);
    MatchesUpToMember(findall, c, PatternCount, st);
  }

  /** What every pattern's match looks like: `CREATE` (any case), then text without a
      `;`, then the `;` that ends it. */
  predicate IsPatternMatch(st: string) {
    && |st| > 6
    && StartsWithKeyword(st, CreateKeyword)
    && st[|st| - 1] == ';'
    && (forall i :: 0 <= i < |st| - 1 ==> st[i] != ';')
  }

  predicate MatchesAreStatements(findall: Matcher, content: string) {
    forall p: nat, st :: p < PatternCount && st in findall(p, content) ==> IsPatternMatch(st)
  }

  /** When the matcher finds only pattern-shaped texts, every statement the file
      yields ends with its only `;` and none is blank, so the blank-statement skip of
      the numbering loop never fires and every index gets a file unless its write fails. */
  lemma StatementsNeverBlank(c: string, findall: Matcher, k: nat)
    requires MatchesAreStatements(findall, c)
    requires k < |StatementsOf(c, findall)|
    ensures var st := StatementsOf(c, findall)[k];
      && !Blank(st)
      && st[|st| - 1] == ';'
      && (forall i :: 0 <= i < |st| - 1 ==> st[i] != ';')
  {
    var st := StatementsOf(c, findall)[k];
    if |MatchesUpTo(findall, c, PatternCount)| == 0 {
      assert IsFallbackStatement(st);
    } else {
      assert st in MatchesUpTo(findall, c, PatternCount);
      MatchesUpToMember(findall, c, PatternCount, st);
      assert IsPatternMatch(st);
      assert !IsSpace(st[0]) by {
        assert ToUpper(st[0]) == 'C';
      }
    }
  }

  /** The object-name part of a statement's file name; `hash` stands for Python's
      `hash` of the statement text. */
  function NameOf(hash: string -> int): string -> string {
    st => ObjectFileStem(st, hash(st))
  }

  /** `split_single_file` on a file at `inputFile` whose text is `content`.
      `written(filename)` is the outcome of writing that file in the output
      directory. Returns `len(all_statements)`, `successful_splits` and the files
      written, in order. */
  method SplitSingleFile(inputFile: Path, content: string, findall: Matcher, hash: string -> int,
                         written: string -> bool)
    returns (total: nat, successes: nat, files: seq<Emitted>)
    ensures total == |FindStatements(content, findall)|
    ensures successes == |files| <= total
    ensures AllEmitted(Stem(Name(inputFile)), FindStatements(content, findall), NameOf(hash), written, files)
    ensures forall i: nat ::
      Succeeds(Stem(Name(inputFile)), FindStatements(content, findall), NameOf(hash), written, i) <==> Listed(files, i)
    ensures forall k, l :: 0 <= k < l < |files| ==> files[k].filename != files[l].filename
  {
    var statements := FindStatements(content, findall);
    total, successes, files := SplitStatements(Stem(Name(inputFile)), statements, NameOf(hash), written);
  }

  /** A written file's name: the input's stem, the statement's index and its
      sanitised object name. */
  lemma SplitFileName(prefix: string, statements: seq<string>, hash: string -> int,
                      written: string -> bool, e: Emitted)
    requires IsEmitted(prefix, statements, NameOf(hash), written, e)
    ensures var st := statements[e.index - 1];
      e.filename == OutputFileName(prefix, e.index, ObjectFileStem(st, hash(st)))
  {
    var st := statements[e.index - 1];
    var name := NameOf(hash)(st);
    assert name == ObjectFileStem(st, hash(st));
    assert e.filename == StatementFileName(prefix, e.index, st, NameOf(hash));
    assert StatementFileName(prefix, e.index, st, NameOf(hash)) == OutputFileName(prefix, e.index, name);
  }

  // ---------------------------------------------------------------------------
  // split_ddl

  /** The output directory of one file in folder mode: `output_dir / file.stem`. */
  function FileOutputDir(outputDir: Path, file: Path): Path {
    Child(outputDir, Stem(Name(file)))
  }

  /** Two files share an output directory exactly when their stems agree, so
      `a/x.sql` and `b/x.ddl` are split into the same directory. */
  lemma FileOutputDirByStem(outputDir: Path, f: Path, g: Path)
    ensures FileOutputDir(outputDir, f) == FileOutputDir(outputDir, g) <==> Stem(Name(f)) == Stem(Name(g))
  {
    if FileOutputDir(outputDir, f) == FileOutputDir(outputDir, g) {
      assert Name(FileOutputDir(outputDir, f)) == Name(FileOutputDir(outputDir, g));
    }
  }

  /** The counters of the folder loop. `split(file)` is the `successful_splits` of
      `split_single_file` on that file, or `None` when it raised; a file that raised
      is neither processed nor counted. */
  function FolderTotals(files: seq<Path>, split: Path -> Option<nat>): (r: (nat, nat))
    ensures r.0 <= |files|
  {
    if |files| == 0 then (0, 0)
    else
      var rest := FolderTotals(files[1..], split);
      match split(files[0])
      case None => rest
      case Some(s) => (rest.0 + 1, rest.1 + s)
  }

  /** Every file is processed exactly when no file raised. */
  lemma {:induction false} FolderTotalsAll(files: seq<Path>, split: Path -> Option<nat>)
    ensures FolderTotals(files, split).0 == |files| <==> forall k :: 0 <= k < |files| ==> split(files[k]).Some?
  {
    if |files| > 0 {
      FolderTotalsAll(files[1..], split);
      if split(files[0]).Some? {
        assert forall k :: 1 <= k < |files| ==> files[k] == files[1..][k - 1];
      }
    }
  }

  /** The statement total adds up the successes of the files that did not raise. */
  lemma {:induction false} FolderTotalsAppend(files: seq<Path>, f: Path, split: Path -> Option<nat>)
    ensures FolderTotals(files + [f], split) ==
      match split(f)
      case None => FolderTotals(files, split)
      case Some(s) => (FolderTotals(files, split).0 + 1, FolderTotals(files, split).1 + s)
  {
    if |files| > 0 {
      assert (files + [f])[1..] == files[1..] + [f];
      FolderTotalsAppend(files[1..], f, split);
    } else {
      assert (files + [f])[1..] == [];
    }
  }

  /** `split_ddl`. A single file yields `(1, successful_splits)`, and an error there
      propagates (`None`). A folder yields the processed-file count and the summed
      successes over the sorted DDL files found; `(0, 0)` when there are none. */
  function SplitDdl(isFile: bool, input: Path, entries: seq<Entry>, split: Path -> Option<nat>): (r: Option<(nat, nat)>)
    ensures isFile ==> (r.Some? <==> split(input).Some?)
    ensures isFile && r.Some? ==> r.value == (1, split(input).value)
    ensures !isFile ==> r.Some? && r.value.0 <= |FindDdlFiles(entries)|
    ensures !isFile && |FindDdlFiles(entries)| == 0 ==> r == Some((0, 0))
  {
    if isFile then
      match split(input)
      case None => None
      case Some(s) => Some((1, s))
    else
      Some(FolderTotals(FindDdlFiles(entries), split))
  }
}
