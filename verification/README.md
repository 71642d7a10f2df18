# DDL splitter and TPC-H seeding, modelled in Dafny

This project models two parts of the lakebridge lab resources:

- **The DDL splitter** (`utilities/ddl_splitter.py`). It reads a DDL dump and removes `--` line comments and `/* … */` block comments. It collapses every run of whitespace to one space. It collects the `CREATE …;` statements that the 23 `DDL_PATTERNS` find. If none are found, it falls back to splitting on `;` and keeping the pieces that start with `CREATE`. It then writes each non-blank statement to `<stem>_<i:04d>_<object name>.sql`. In folder mode it does this for every `.sql`/`.ddl`/`.SQL`/`.DDL` file found under the folder, in sorted order, and adds up the counters.
- **The TPC-H seeding notebook** (`seeding/tpch_tables_setup.py`). It builds the synthetic tables from `row_count`. Their keys and categorical columns are modular functions of each row's `id`. The model asks whether those generated keys satisfy the `PRIMARY KEY` and `FOREIGN KEY` constraints the notebook declares, and proves what each categorical column holds.

Modules, one per concern:

- Text helpers:
  - `Wrappers`: `Option`;
  - `Chars`: Python's `str.isspace` set, ASCII `\w`, ASCII case mapping;
  - `Text`: `strip`, `split`/`join` on one character, counting.
- The splitter's pipeline, in order:
  - `Normalize`: the three `re.sub` calls;
  - `Fallback`: the semicolon split;
  - `ObjectName`: `_extract_object_name`;
  - `Sanitize`: `_sanitize_filename`;
  - `Decimal`: `{i:04d}`;
  - `Numbering`: the write loop;
  - `Paths`: the `pathlib` parts used;
  - `Splitter`: `split_single_file` and `split_ddl`.
- The TPC-H seeding:
  - `TpchTables`: table sizes, Spark's `%`, the region and nation literals;
  - `TpchColumns`: the derived columns;
  - `TpchKeys`: the declared keys.

The things the splitter gets from outside are parameters of the model:

- `findall` stands for the regular-expression engine applied to each pattern.
- `hash` stands for Python's per-process `hash`.
- `written` stands for whether writing a given file succeeds.
- `split` stands for the outcome of `split_single_file` on a given file in folder mode.

## Model

| member | source | states |
|---|---|---|
| `Normalize.StripLineComments` | utilities/ddl_splitter.py:139 | the result holds no `--`; it is no longer than the input; it keeps the first character unless a comment starts there |
| `Normalize.StripLineCommentsIsLinewise` | utilities/ddl_splitter.py:139 | removing `--` comments equals cutting each line at its first `--` and joining the lines again (the `MULTILINE` `$` anchor) |
| `Normalize.StripLineCommentsKeepsLines` | utilities/ddl_splitter.py:139 | removing line comments never removes a newline: the line count is unchanged |
| `Normalize.FindClose` | utilities/ddl_splitter.py:140 | finds the first `*/` at or after a position, or reports that none exists (the non-greedy `.*?`) |
| `Normalize.StripBlockComments` | utilities/ddl_splitter.py:140 | removing block comments never lengthens the text and never introduces a character that was not in it |
| `Normalize.NoCommentOpenKept` | utilities/ddl_splitter.py:140 | text in which no `/*` occurs comes back unchanged |
| `Normalize.BlockCommentRemoved` | utilities/ddl_splitter.py:140 | text without `/*`, then a comment whose body holds no `*/`, then a rest: the comment vanishes, the leading text is kept and the rest is processed the same way |
| `Normalize.UnterminatedCommentKept` | utilities/ddl_splitter.py:140 | text with no `*/` at all comes back unchanged, since an unclosed `/*` never matches |
| `Normalize.CollapseWhitespace` | utilities/ddl_splitter.py:141 | the result has no two adjacent whitespace characters, and no whitespace other than a plain space; its first character is a space exactly when the input started with whitespace |
| `Normalize.CollapseSpaceRun` | utilities/ddl_splitter.py:141 | a whitespace run between visible text on its left and visible text on its right becomes exactly one space, and each side is collapsed on its own |
| `Normalize.CollapseKeepsVisible` | utilities/ddl_splitter.py:141 | collapsing whitespace keeps every non-whitespace character, in order |
| `Normalize.CollapseFixpoint` | utilities/ddl_splitter.py:141 | text is left unchanged exactly when it is already single-spaced |
| `Normalize.CollapseIdempotent` | utilities/ddl_splitter.py:141 | collapsing twice is collapsing once |
| `Normalize.NormalizeContent` | utilities/ddl_splitter.py:139-141 | normalised content is single-spaced and holds no newline |
| `Text.Split` | utilities/ddl_splitter.py:152 | `str.split(';')` gives one more piece than there are separators, and no piece holds the separator |
| `Text.JoinSplit` | utilities/ddl_splitter.py:152 | joining the pieces with the separator gives back the original text |
| `Text.SplitJoin` | utilities/ddl_splitter.py:152 | splitting a join of separator-free pieces gives back the pieces |
| `Text.StripShape` | utilities/ddl_splitter.py:153-154 | `strip()` leaves nothing, or text that starts and ends with non-whitespace; it leaves nothing exactly when the input is all whitespace |
| `Text.StripIdempotent` | utilities/ddl_splitter.py:153 | stripping twice is stripping once |
| `Text.StripKeepsAbsent` | utilities/ddl_splitter.py:153 | stripping introduces no character that was absent from the input |
| `Chars.StartsWithKeyword` | utilities/ddl_splitter.py:154 | a text starts with a keyword, ignoring case, exactly when the keyword fits and the upper-cased text begins with it (`upper().startswith`) |
| `Chars.LowerIdempotent` | utilities/ddl_splitter.py:104 | `lower()` leaves no upper-case letter, keeps word characters word characters, and lower-casing twice is lower-casing once |
| `Fallback.TerminatedShape` | utilities/ddl_splitter.py:153 | a `;`-free piece that starts with `CREATE` after stripping becomes a statement that starts with `CREATE` and ends with its only `;` |
| `Fallback.FilterMapFrom` | utilities/ddl_splitter.py:153-154 | each element of the comprehension's result is the image of some input piece the filter kept |
| `Fallback.FilterMapKeeps` | utilities/ddl_splitter.py:153-154 | the image of each input piece the filter keeps is in the comprehension's result |
| `Fallback.FilterMapAppend` | utilities/ddl_splitter.py:153-154 | the comprehension distributes over concatenation of its input |
| `Fallback.KeepCreatesShape` | utilities/ddl_splitter.py:153-154 | every statement kept from `;`-free pieces is a fallback statement |
| `Fallback.FallbackSplit` | utilities/ddl_splitter.py:152-154 | the fallback yields at most one statement per `;` plus one; each one starts with `CREATE` in any case and ends with its only `;` |
| `Fallback.FallbackFindsEveryCreate` | utilities/ddl_splitter.py:152-154 | every piece between semicolons that starts with `CREATE` yields a statement in the fallback's result |
| `Splitter.MatchesUpToEmpty` | utilities/ddl_splitter.py:144-149 | nothing is collected exactly when no pattern matches |
| `Splitter.MatchesUpToMember` | utilities/ddl_splitter.py:144-147 | a text is collected exactly when some pattern's `findall` returned it |
| `Splitter.StatementsOf` | utilities/ddl_splitter.py:143-154 | no statement is collected exactly when no pattern matches and the fallback split finds no `CREATE` piece either |
| `Splitter.StatementsFallback` | utilities/ddl_splitter.py:149-154 | when no pattern matches, the statements are the fallback split, with the fallback's count bound and shape |
| `Splitter.StatementsMatched` | utilities/ddl_splitter.py:144-149 | when some pattern matches, the statements are exactly the matched texts and the fallback is not used |
| `Splitter.StatementsNeverBlank` | utilities/ddl_splitter.py:29-53 | when every match has the shape `CREATE…[^;]+;` that the patterns force, no collected statement is blank, and each ends with its only `;` |
| `Splitter.SplitSingleFile` | utilities/ddl_splitter.py:117-186 | returns the number of statements found, the number written and the files written; an index is written exactly when its statement is non-blank and its write succeeds; file names are pairwise distinct |
| `Splitter.SplitFileName` | utilities/ddl_splitter.py:165-172 | a written file is named after the input's stem, the statement's index and the statement's sanitised object name |
| `Splitter.FileOutputDirByStem` | utilities/ddl_splitter.py:219 | two DDL files share an output subdirectory exactly when their stems agree |
| `Splitter.FolderTotals` | utilities/ddl_splitter.py:211-227 | the processed-file count never exceeds the number of files |
| `Splitter.FolderTotalsAll` | utilities/ddl_splitter.py:214-231 | every file is processed exactly when none of them raised |
| `Splitter.FolderTotalsAppend` | utilities/ddl_splitter.py:214-227 | one more file adds one to the file count and its successes to the statement total, or nothing when it raised |
| `Splitter.SplitDdl` | utilities/ddl_splitter.py:188-234 | single-file mode returns `(1, successful_splits)`, or raises when the split raises; folder mode returns at most the number of files found, and `(0, 0)` when none is found |
| `Numbering.SplitStatements` | utilities/ddl_splitter.py:159-186 | the loop's files are the successful writes, in increasing index order; an index is listed exactly when its statement is non-blank and written; names are pairwise distinct; the count of successes is the number of files |
| `Numbering.CollectedFiles` | utilities/ddl_splitter.py:159-183 | collecting the successful indices up to the statement count yields exactly the loop's postcondition |
| `Numbering.ListedSucceeds` | utilities/ddl_splitter.py:160-178 | every listed file records a statement that is non-blank and was written |
| `Numbering.EmittedNamesDistinct` | utilities/ddl_splitter.py:160-171 | files written for increasing indices have pairwise distinct names |
| `Numbering.EmittedName` | utilities/ddl_splitter.py:170-171 | every written file name has the `<prefix>_<index>_<name>.sql` form |
| `Numbering.IndexOfOutputFileName` | utilities/ddl_splitter.py:171 | the index can be read back from a file name whatever the prefix and object name are |
| `Numbering.OutputFileNamesDistinct` | utilities/ddl_splitter.py:171 | different indices give different file names, even when the object names collide |
| `Numbering.OutputFileName` | utilities/ddl_splitter.py:171 | a file name is the prefix, `_`, the zero-padded digits, `_`, the name and `.sql`, and its length is the sum of those parts |
| `Numbering.IndexWidth` | utilities/ddl_splitter.py:171 | for indices below 10000 the padded number takes exactly four characters |
| `Numbering.BlankIsStripEmpty` | utilities/ddl_splitter.py:161-162 | a statement is skipped exactly when it is all whitespace, that is when `strip()` leaves nothing |
| `Numbering.ObjectFileStem` | utilities/ddl_splitter.py:166-167 | the sanitised object name is at most 200 characters and holds none of the forbidden characters |
| `Decimal.Digits` | utilities/ddl_splitter.py:171 | the decimal digits of a number: non-empty, all digits, no leading zero, one digit exactly below 10 |
| `Decimal.ParseDigits` | utilities/ddl_splitter.py:171 | reading the digits of `n` back gives `n` |
| `Decimal.DigitsParse` | utilities/ddl_splitter.py:171 | printing the value of a canonical digit string gives the string back |
| `Decimal.DigitsInjective` | utilities/ddl_splitter.py:171 | different numbers have different digit strings |
| `Decimal.Pad4` | utilities/ddl_splitter.py:171 | `:04d` is all digits and as wide as the number's digits, but never narrower than four |
| `Decimal.Pad4Parse` | utilities/ddl_splitter.py:171 | zero padding does not change the value: reading `Pad4(n)` gives `n` |
| `Decimal.Pad4Width` | utilities/ddl_splitter.py:171 | the padded number is exactly four characters wide exactly when the number is below 10000 |
| `Decimal.DigitsLength` | utilities/ddl_splitter.py:171 | a number has at most four, three or two digits exactly when it is below 10000, 1000 or 100 |
| `ObjectName.CreatePrefixLength` | utilities/ddl_splitter.py:95 | a `CREATE\s+(OR\s+REPLACE\s+)?` match at the start is found exactly when one exists, and is at least seven characters long |
| `ObjectName.RemoveCreatePrefixes` | utilities/ddl_splitter.py:95 | removing the prefixes never lengthens the statement and never introduces a character that was not in it |
| `ObjectName.RemovedStatement` | utilities/ddl_splitter.py:95 | removing the prefixes from `CREATE [OR REPLACE] <kind> <token>…`, its keywords spelled in any mix of upper and lower case, leaves `<kind> <token>` followed by the rest with its own prefixes removed |
| `ObjectName.NoMatchKept` | utilities/ddl_splitter.py:95 | text in which no prefix match starts is kept verbatim by the substitution |
| `ObjectName.MatchHead` | utilities/ddl_splitter.py:98 | a match gives a non-empty word and a non-empty token free of whitespace and `(` |
| `ObjectName.HeadOf` | utilities/ddl_splitter.py:95-98 | a match on the cleaned, stripped statement gives a non-empty word and a non-empty token free of whitespace and `(`, together shorter than the statement |
| `ObjectName.HeadOfBody` | utilities/ddl_splitter.py:98 | `<kind> <token>` then a non-token character matches with exactly those two groups |
| `ObjectName.HeadOfConventional` | utilities/ddl_splitter.py:95-100 | for a conventional `CREATE [OR REPLACE] <kind> <token>` statement, its keywords in any case, the groups found are that kind and that token |
| `ObjectName.RemoveQuotes` | utilities/ddl_splitter.py:102 | removing quotes leaves no quote and introduces no new character |
| `ObjectName.RemoveQuotesAppend` | utilities/ddl_splitter.py:102 | quote removal distributes over concatenation |
| `ObjectName.RemoveQuotesChar` | utilities/ddl_splitter.py:102 | a single quote character is removed and any other single character is kept |
| `ObjectName.LastSegment` | utilities/ddl_splitter.py:103 | `split('.')[-1]` holds no dot |
| `ObjectName.LastSegmentIsSuffix` | utilities/ddl_splitter.py:103 | the part after the last `.` is the longest dot-free suffix of the name: either the whole name or preceded by a dot |
| `ObjectName.LastSegmentAfterDot` | utilities/ddl_splitter.py:103 | whatever stands before a dot does not affect the last segment |
| `ObjectName.CleanName` | utilities/ddl_splitter.py:102-103 | the cleaned name holds neither quotes nor dots, and every character in it comes from the token |
| `ObjectName.CleanNameQualified` | utilities/ddl_splitter.py:102-103 | a schema qualification `q.` in front of a name does not change the cleaned name |
| `ObjectName.CleanPlain` | utilities/ddl_splitter.py:102-103 | a name without quotes or dots comes through the cleanup unchanged |
| `ObjectName.ExtractObjectName` | utilities/ddl_splitter.py:92-106 | every object name is non-empty, starts with a word character that is not upper-case, holds a `_`, and has no whitespace, `(`, dot or quote |
| `ObjectName.ExtractFallback` | utilities/ddl_splitter.py:106 | a statement the match cannot read is named `object_` and one to four decimal digits whose value is the hash modulo 10000 |
| `ObjectName.ExtractConventional` | utilities/ddl_splitter.py:92-104 | a conventional statement `CREATE [OR REPLACE] <kind> <token>…`, its keywords in any case (so `create or replace` as well), is named `<kind lower-cased>_<token without quotes and schema>`, for a `\w+` kind that is not OR and a `[^\s(]+` token, neither ending in CREATE in any case |
| `ObjectName.SecondWordTaken` | utilities/ddl_splitter.py:95-104 | for every statement `CREATE [OR REPLACE] w1 w2 …`, its keywords in any case, where `w1` is a `\w+` word that is not OR in any case, `w2` is a `[^\s(]+` token followed by a space, and neither ends in CREATE in any case, the object name is `w1` lower-cased, `_`, and `w2` cleaned, whatever follows the space; a word ending in CREATE is excluded because the prefix removal would eat part of it |
| `ObjectName.MaterializedViewName` | utilities/ddl_splitter.py:95-104 | an illustration of `ObjectName.SecondWordTaken`: `CREATE MATERIALIZED VIEW mv …` is named `materialized_VIEW`, since the second word of a two-word kind is taken as the object name |
| `ObjectName.LowerCaseReplaceName` | utilities/ddl_splitter.py:95-104 | an illustration of `ObjectName.ExtractConventional`: the lower-case `create or replace table Orders (id INT);` is named `table_Orders`, since the prefix match ignores case |
| `Sanitize.SanitizeFilename` | utilities/ddl_splitter.py:108-115 | each of `<>:"/\` and the pipe, `?` and `*` becomes `_` and every other character is kept in place; the result is cut to 200 characters |
| `Sanitize.SanitizeIdentity` | utilities/ddl_splitter.py:108-115 | a name is left unchanged exactly when it is clean: at most 200 characters, none forbidden |
| `Sanitize.SanitizeIdempotent` | utilities/ddl_splitter.py:108-115 | sanitising twice is sanitising once |
| `Paths.Child` | utilities/ddl_splitter.py:68-70 | `p / name` has parent `p` and name `name` |
| `Paths.StemSuffix` | utilities/ddl_splitter.py:170 | stem followed by suffix is the whole name; a non-empty name has a non-empty stem; a suffix is empty or a proper extension |
| `Paths.SuffixIs` | utilities/ddl_splitter.py:78 | a name has a given extension as its suffix exactly when it ends with that extension and is longer than it |
| `Paths.DefaultOutputDir` | utilities/ddl_splitter.py:65-70 | the default output directory is a sibling of the input named after its stem (file) or name (folder) plus `_split`, and never the input itself |
| `Paths.IsDdlFile` | utilities/ddl_splitter.py:75-78 | an entry is a DDL file exactly when it is a file whose name ends with `.sql`, `.ddl`, `.SQL` or `.DDL` past a non-empty stem; mixed case such as `.Sql` is not |
| `Paths.KeepDdlFilesContents` | utilities/ddl_splitter.py:77-79 | the filter keeps each path as many times as it appears as a DDL entry |
| `Paths.FindDdlFiles` | utilities/ddl_splitter.py:72-81 | the files found are sorted and are a permutation of the DDL entries |
| `Paths.FindDdlFilesComplete` | utilities/ddl_splitter.py:72-81 | a path is found exactly when it is a DDL entry, as many times as it occurs |
| `Paths.SortPaths` | utilities/ddl_splitter.py:81 | `sorted` returns a sorted permutation of its input |
| `Paths.InsertSorted` | utilities/ddl_splitter.py:81 | inserting into a sorted list keeps it sorted |
| `Paths.PartsLeTotal` | utilities/ddl_splitter.py:81 | any two paths are comparable |
| `Paths.PartsLeTransitive` | utilities/ddl_splitter.py:81 | path order is transitive |
| `Paths.StrLeAntisymmetric` | utilities/ddl_splitter.py:81 | two path components each at most the other are equal |
| `Paths.SortedPairs` | utilities/ddl_splitter.py:81 | in a sorted list every earlier path is at most every later one |
| `TpchTables.SizesOrdered` | seeding/tpch_tables_setup.py:433-601 | for a positive `row_count`: suppliers ≤ parts < customers < orders < line items, and there are twice as many line items as orders |
| `TpchTables.SizesNonEmpty` | seeding/tpch_tables_setup.py:433-601 | customers, orders and line items exist exactly for positive `row_count`; parts from 5 on; suppliers from 10 on |
| `TpchTables.SparkMod` | seeding/tpch_tables_setup.py:603-605 | Spark's `%` is NULL exactly for a zero divisor; otherwise it is below the divisor's magnitude |
| `TpchTables.RegionKeys` | seeding/tpch_tables_setup.py:358-364 | the region keys are exactly 0 to 4, each in its own row |
| `TpchTables.NationKeys` | seeding/tpch_tables_setup.py:384-410 | the nation keys are exactly 0 to 24, each in its own row |
| `TpchTables.NationRegionsExist` | seeding/tpch_tables_setup.py:110-114 | every nation's region key is a region key, so `FOREIGN KEY (n_regionkey)` holds |
| `TpchKeys.NationKeysValid` | seeding/tpch_tables_setup.py:438 | `id % 25` is always a nation key, so the customer and supplier nation foreign keys hold; for an id that is a nation key it is the id itself |
| `TpchKeys.OrdersCustomerKeys` | seeding/tpch_tables_setup.py:563-566 | every order's customer key names a customer, for every `row_count` |
| `TpchKeys.OrdersPerCustomer` | seeding/tpch_tables_setup.py:563-566 | each customer `c` has exactly the orders `c` and `c + row_count` |
| `TpchKeys.LineitemOrderKeys` | seeding/tpch_tables_setup.py:601-603 | every line item's order key names an order, for every `row_count` |
| `TpchKeys.LineitemPartKeys` | seeding/tpch_tables_setup.py:604 | every line item's part key is non-NULL and names a part exactly when `row_count` is at most 0 or at least 5 |
| `TpchKeys.LineitemSupplierKeys` | seeding/tpch_tables_setup.py:605 | every line item's supplier key is non-NULL and names a supplier exactly when `row_count` is at most 0 or at least 10 |
| `TpchKeys.LineitemKeyUniqueness` | seeding/tpch_tables_setup.py:601-606 | the declared key `(l_orderkey, l_linenumber)` is unique exactly when `row_count` is at most 0 or not a multiple of 7 |
| `TpchKeys.KeyCollision` | seeding/tpch_tables_setup.py:603-606 | for a positive multiple of 7, line items 0 and `2 * row_count` share their key |
| `TpchKeys.DistinctKeys` | seeding/tpch_tables_setup.py:603-606 | otherwise any two line items have different keys |
| `TpchColumns.CascadeLookup` | seeding/tpch_tables_setup.py:441-445 | a `when` chain on consecutive remainders selects the branch at that remainder, or the `otherwise` value past the last branch |
| `TpchColumns.MktSegmentHousehold` | seeding/tpch_tables_setup.py:441-445 | the segment is `HOUSEHOLD` exactly when `id % 5 == 4`; otherwise it is the listed segment at that remainder |
| `TpchColumns.MfgrBrandNumbers` | seeding/tpch_tables_setup.py:496-510 | the manufacturer is `Manufacturer#` followed by `id % 5 + 1`; the brand is `Brand#` followed by `10 + id % 10` |
| `TpchColumns.PartTypeCycle` | seeding/tpch_tables_setup.py:511-535 | the part type cycles through six names by `(id % 25) % 6`, so the `otherwise` at 24 restarts the cycle |
| `TpchColumns.CategoricalLookups` | seeding/tpch_tables_setup.py:537-622 | container, order status, return flag, line status and ship instruction are their listed values at `id % 6`, `% 3`, `% 3`, `% 2` and `% 4` |
| `TpchColumns.OrderPriorityNumbered` | seeding/tpch_tables_setup.py:572-578 | the priority name's leading digit is the ship priority of the same order |
| `TpchColumns.ShipModeByLine` | seeding/tpch_tables_setup.py:606-629 | the ship mode is determined by the line number: the mode at `l_linenumber - 1` |
| `TpchColumns.BoundedColumns` | seeding/tpch_tables_setup.py:536-606 | part size lies in 1..50, ship priority in 1..5 and line number in 1..7, each counting up from 1 for small ids |
| `TpchColumns.MissingTimestampCount` | seeding/tpch_tables_setup.py:581-582 | among the first `n` orders, `(n + 6) / 7` have a NULL timestamp |

## Left out

- `ObjectName.ExtractConventional` (and `ObjectName.SecondWordTaken`, `ObjectName.HeadOfConventional`, `ObjectName.RemovedStatement`): the statement is built with one space after each keyword and between kind and token. `ObjectName.ExtractObjectName` itself follows the `\s+` runs of the pattern, but these lemmas do not cover runs of several whitespace characters, to keep the prefix proof to fixed offsets.
- Console output (`print`), the command-line entry point, `input()`/`sys.argv` handling and `print_help`: these are I/O with no effect on what is split.
- The regular-expression engine: `re.findall` on the 23 patterns is the `findall` parameter. What its matches look like is stated as the requirement of `Splitter.StatementsNeverBlank`, not derived from the patterns.
- Python's `hash`: it is salted per process, so it is the `hash` parameter.
- File system effects: `mkdir`, `open`/`write`, `is_file` and `rglob`. The outcome of each write is the `written` parameter. The directory walk is a list of entries. A raising `split_single_file` is the `split` parameter returning `None`.
- `_read_file_chunks`: no caller in the file uses it.
- Absolute paths and the root: a path is a list of components relative to `.`.
- Unicode: `\w` is modelled as ASCII letters, digits and `_`, and `upper()`/`lower()` as ASCII case mapping. Non-ASCII letters in object names are outside the model. The whitespace set is CPython's full `str.isspace` set.
- `utilities/lakebridge_reconcile_notebook.py` is not part of this model.
- The Spark side of the seeding: table creation, writes to Unity Catalog and Hive Metastore, and `dbutils` widgets. Only the arithmetic over `id` and `row_count` is modelled.
- Random and time-based columns: account balances, prices, quantities, discounts, taxes, dates and the non-NULL timestamps. Only whether a timestamp is present is modelled.
- The text columns built by `concat` (names, addresses, phones, comments) and the nation and region comments.
- The `r_regionkey`/`n_nationkey`/`c_custkey`/… primary keys equal to `id`: they are unique by construction and are not restated.
- 64-bit overflow of `id` and Spark's ANSI mode: integers are unbounded, and a zero divisor gives NULL (non-ANSI behaviour).
- `TpchTables.References`: a NULL key counts as naming no row, which is stricter than SQL, where a NULL foreign key satisfies the constraint. The key lemmas therefore state "non-NULL and names a row". Under Spark's ANSI mode the `id % 0` that produces those NULLs would raise instead.
- `Paths.PartsLe`: path components are compared as POSIX `pathlib` does, by code point. On Windows `pathlib` compares the lower-cased components, so `sorted` may order mixed-case names differently there.
- `TpchTables.NationRegionsExist` does not prove that each region has exactly five nations. The notebook declares no constraint that needs it.
