/** `DDLSplitter._extract_object_name`: derive `<type>_<name>` from a DDL statement.

    The three regular expressions are written out as scanners:
    - `re.sub(r'CREATE\s+(?:OR\s+REPLACE\s+)?', '', stmt, flags=re.IGNORECASE)`
      removes every such prefix, wherever it occurs;
    - `re.match(r'(\w+)\s+([^\s(]+)', clean.strip())` reads a word, whitespace and a
      token running up to whitespace or `(`;
    - the token loses its quotes and everything up to its last `.`. */
module ObjectName {
  import opened Wrappers
  import opened Chars
  import opened Text
  import opened Decimal

  /** Length of the whitespace run at the start of `s`. */
  function SpaceRun(s: string): (k: nat)
    ensures k <= |s|
    ensures forall i :: 0 <= i < k ==> IsSpace(s[i])
    ensures k < |s| ==> !IsSpace(s[k])
  {
    if |s| > 0 && IsSpace(s[0]) then 1 + SpaceRun(s[1..]) else 0
  }

  /** Length of the run of word characters at the start of `s`. */
  function WordRun(s: string): (k: nat)
    ensures k <= |s|
    ensures IsWord(s[..k])
    ensures k < |s| ==> !IsWordChar(s[k])
  {
    if |s| > 0 && IsWordChar(s[0]) then 1 + WordRun(s[1..]) else 0
  }

  predicate IsTokenChar(c: char) {
    !IsSpace(c) && c != '('
  }

  /** Length of the run of `[^\s(]` characters at the start of `s`. */
  function TokenRun(s: string): (k: nat)
    ensures k <= |s|
    ensures forall i :: 0 <= i < k ==> IsTokenChar(s[i])
    ensures k < |s| ==> !IsTokenChar(s[k])
  {
    if |s| > 0 && IsTokenChar(s[0]) then 1 + TokenRun(s[1..]) else 0
  }

  /** Length of the match of `OR\s+REPLACE\s+` at the start of `s`, or 0. */
  function OrReplaceLength(s: string): nat {
    if !StartsWithKeyword(s, "OR") then 0
    else
      var w2 := SpaceRun(s[2..]);
      if w2 == 0 || !StartsWithKeyword(s[2 + w2..], "REPLACE") then 0
      else
        var w3 := SpaceRun(s[2 + w2 + 7..]);
        if w3 == 0 then 0 else 2 + w2 + 7 + w3
  }

  /** Length of the match of `CREATE\s+(?:OR\s+REPLACE\s+)?` at the start of `s`,
      or 0 when there is none. The whitespace runs are greedy and the optional
      group is taken whenever it matches. */
  function CreatePrefixLength(s: string): (k: nat)
    ensures k <= |s|
    ensures k > 0 <==> CreateStarts(s)
    ensures k > 0 ==> k >= 7
  {
    if !CreateStarts(s) then 0
    else
      var w1 := SpaceRun(s[6..]);
      assert s[6..][0] == s[6];
      6 + w1 + OrReplaceLength(s[6 + w1..])
  }

  /** `CREATE\s` (any case) at the start of `s`: exactly when a prefix matches. */
  predicate CreateStarts(s: string) {
    |s| > 6 && StartsWithKeyword(s, "CREATE") && IsSpace(s[6])
  }

  /** `re.sub` of the CREATE prefix: every non-overlapping match, scanning left to
      right, is deleted. */
  function RemoveCreatePrefixes(s: string): (r: string)
    ensures |r| <= |s|
    ensures forall c :: c !in s ==> c !in r
    decreases |s|
  {
    if |s| == 0 then []
    else
      if CreateStarts(s) then RemoveCreatePrefixes(s[CreatePrefixLength(s)..])
      else [s[0]] + RemoveCreatePrefixes(s[1..])
  }

  /** `re.match(r'(\w+)\s+([^\s(]+)', s)`: the object-type word and the name token. */
  function MatchHead(s: string): (r: Option<(string, string)>)
    ensures r.Some? ==> |r.value.0| > 0 && IsWord(r.value.0)
    ensures r.Some? ==> |r.value.1| > 0 && forall i :: 0 <= i < |r.value.1| ==> IsTokenChar(r.value.1[i])
    ensures r.Some? ==> |r.value.0| + |r.value.1| < |s| && s[..|r.value.0|] == r.value.0
  {
    var w := WordRun(s);
    if w == 0 then None
    else
      var sp := SpaceRun(s[w..]);
      if sp == 0 then None
      else
        var n := TokenRun(s[w + sp..]);
        if n == 0 then None
        else
          assert s[w + sp..][..n] == s[w + sp..w + sp + n];
          Some((s[..w], s[w + sp..w + sp + n]))
  }

  predicate IsQuote(c: char) {
    c == '"' || c == '\''
  }

  /** `re.sub(r'["\']', '', token)`. */
  function RemoveQuotes(s: string): (r: string)
    ensures forall i :: 0 <= i < |r| ==> !IsQuote(r[i])
    ensures forall c :: c !in s ==> c !in r
  {
    if |s| == 0 then []
    else (if IsQuote(s[0]) then [] else [s[0]]) + RemoveQuotes(s[1..])
  }

  /** Quote removal works character by character: it distributes over `+`, drops a
      single quote and keeps any other character. */
  lemma {:induction false} RemoveQuotesAppend(a: string, b: string)
    ensures RemoveQuotes(a + b) == RemoveQuotes(a) + RemoveQuotes(b)
    decreases |a|
  {
    if |a| == 0 {
      assert a + b == b;
    } else {
      assert (a + b)[0] == a[0];
      assert (a + b)[1..] == a[1..] + b;
      RemoveQuotesAppend(a[1..], b);
      AppendAssoc(if IsQuote(a[0]) then [] else [a[0]], RemoveQuotes(a[1..]), RemoveQuotes(b));
    }
  }

  lemma RemoveQuotesChar(c: char)
    ensures IsQuote(c) ==> RemoveQuotes([c]) == []
    ensures !IsQuote(c) ==> RemoveQuotes([c]) == [c]
  {
    assert [c][1..] == [];
  }

  /** `token.split('.')[-1]`. */
  function LastSegment(s: string): (r: string)
    ensures '.' !in r
  {
    var parts := Split(s, '.');
    parts[|parts| - 1]
  }

  /** The name token without quotes and without its schema qualification. */
  function CleanName(token: string): (r: string)
    ensures '.' !in r
    ensures forall i :: 0 <= i < |r| ==> !IsQuote(r[i])
    ensures forall i :: 0 <= i < |r| ==> r[i] in token
  {
    var unquoted := RemoveQuotes(token);
    var r := LastSegment(unquoted);
    LastSegmentIsSuffix(unquoted);
    assert forall i :: 0 <= i < |r| ==> r[i] == unquoted[|unquoted| - |r| + i];
    r
  }

  /** The last segment is the longest dot-free suffix: it is the whole text, or a
      dot stands just before it. */
  lemma {:induction false} LastSegmentIsSuffix(s: string)
    ensures |LastSegment(s)| <= |s|
    ensures LastSegment(s) == s[|s| - |LastSegment(s)|..]
    ensures |LastSegment(s)| == |s| || s[|s| - |LastSegment(s)| - 1] == '.'
  {
    if |s| > 0 {
      var rest := Split(s[1..], '.');
      if s[0] != '.' && |rest| == 1 {
        assert rest[0] == s[1..] by {
          JoinSplit(s[1..], '.');
        }
        assert LastSegment(s) == [s[0]] + s[1..];
        assert [s[0]] + s[1..] == s[0..];
      } else {
        assert LastSegment(s) == LastSegment(s[1..]) by {
          assert Split(s, '.')[|Split(s, '.')| - 1] == rest[|rest| - 1];
        }
        LastSegmentIsSuffix(s[1..]);
        var n := |LastSegment(s)|;
        SuffixOfTail(s, n);
        if n == |s| - 1 {
          assert LastSegment(s) == s[1..];
          CountAbsent(s[1..], '.');
          assert s[0] == '.';
        } else {
          assert s[1..][|s| - 1 - n - 1] == s[|s| - n - 1];
        }
      }
    }
  }

  /** Past a dot in the tail, the first character does not change the last segment. */
  lemma LastSegmentTail(s: string)
    requires |s| > 0 && (s[0] == '.' || Count(s[1..], '.') > 0)
    ensures LastSegment(s) == LastSegment(s[1..])
  {
    var rest := Split(s[1..], '.');
    assert Split(s, '.')[|Split(s, '.')| - 1] == rest[|rest| - 1];
  }

  /** Whatever precedes a dot is no part of the last segment. */
  lemma {:induction false} LastSegmentAfterDot(x: string, y: string)
    ensures LastSegment(x + "." + y) == LastSegment(y)
    decreases |x|
  {
    var s := x + "." + y;
    if |x| == 0 {
      assert s == "." + y && s[1..] == y;
      LastSegmentTail(s);
    } else {
      assert s[1..] == x[1..] + "." + y;
      CountAppend(x[1..] + ".", y, '.');
      CountAppend(x[1..], ".", '.');
      assert Count(".", '.') == 1;
      LastSegmentTail(s);
      LastSegmentAfterDot(x[1..], y);
    }
  }

  /** A schema qualification does not change the clean name. */
  lemma CleanNameQualified(qualifier: string, name: string)
    ensures CleanName(qualifier + "." + name) == CleanName(name)
  {
    RemoveQuotesAppend(qualifier + ".", name);
    RemoveQuotesAppend(qualifier, ".");
    RemoveQuotesChar('.');
    LastSegmentAfterDot(RemoveQuotes(qualifier), RemoveQuotes(name));
  }

  /** A suffix of the tail is a suffix of the whole. */
  lemma SuffixOfTail(s: string, n: nat)
    requires n < |s|
    ensures s[1..][|s| - 1 - n..] == s[|s| - n..]
  {
  }

  /** The statement with its CREATE prefixes removed and stripped, matched. */
  function HeadOf(statement: string): (r: Option<(string, string)>)
    ensures r.Some? ==> |r.value.0| > 0 && IsWord(r.value.0)
    ensures r.Some? ==> |r.value.1| > 0 && forall i :: 0 <= i < |r.value.1| ==> IsTokenChar(r.value.1[i])
    ensures r.Some? ==> |r.value.0| + |r.value.1| < |statement|
  {
    var t := Strip(RemoveCreatePrefixes(statement));
    StripShape(RemoveCreatePrefixes(statement));
    MatchHead(t)
  }

  /** Python's `hash(...) % 10000` is non-negative for a positive modulus. */
  function FallbackName(hash: int): string {
    "object_" + Digits(hash % 10000)
  }

  /** The object name of a statement. `hash` stands for `hash(statement)`, which
      Python randomises per process. */
  function ExtractObjectName(statement: string, hash: int): (r: string)
    ensures |r| > 0 && IsWordChar(r[0]) && !IsUpper(r[0]) && '_' in r
    ensures forall i :: 0 <= i < |r| ==> NameChar(r[i])
  {
    match HeadOf(statement)
    case None =>
      FallbackChars(hash);
      FallbackName(hash)
    case Some(head) =>
      TypedNameChars(head.0, head.1);
      LowerStr(head.0) + "_" + CleanName(head.1)
  }

  /** A character an object name may hold: no whitespace, no `(`, no dot and no quote. */
  predicate NameChar(c: char) {
    !IsSpace(c) && c != '(' && c != '.' && !IsQuote(c)
  }

  lemma TypedNameChars(kind: string, token: string)
    requires |kind| > 0 && IsWord(kind)
    requires forall i :: 0 <= i < |token| ==> IsTokenChar(token[i])
    ensures var r := LowerStr(kind) + "_" + CleanName(token);
      && |r| > 0 && IsWordChar(r[0]) && !IsUpper(r[0]) && '_' in r
      && forall i :: 0 <= i < |r| ==> NameChar(r[i])
  {
    var k := LowerStr(kind);
    var c := CleanName(token);
    LowerNameChars(kind);
    CleanNameChars(token);
    NameCharsJoin(k, c);
  }

  lemma LowerNameChars(kind: string)
    requires IsWord(kind)
    ensures forall i :: 0 <= i < |kind| ==> NameChar(LowerStr(kind)[i]) && IsWordChar(LowerStr(kind)[i])
    ensures forall i :: 0 <= i < |kind| ==> !IsUpper(LowerStr(kind)[i])
  {
  }

  lemma CleanNameChars(token: string)
    requires forall i :: 0 <= i < |token| ==> IsTokenChar(token[i])
    ensures forall i :: 0 <= i < |CleanName(token)| ==> NameChar(CleanName(token)[i])
  {
    var c := CleanName(token);
    forall i | 0 <= i < |c|
      ensures NameChar(c[i])
    {
      assert c[i] in token;
    }
  }

  lemma NameCharsJoin(k: string, c: string)
    requires |k| > 0 && IsWordChar(k[0]) && !IsUpper(k[0])
    requires forall i :: 0 <= i < |k| ==> NameChar(k[i])
    requires forall i :: 0 <= i < |c| ==> NameChar(c[i])
    ensures var r := k + "_" + c;
      && |r| > 0 && IsWordChar(r[0]) && !IsUpper(r[0]) && '_' in r
      && forall i :: 0 <= i < |r| ==> NameChar(r[i])
  {
    var r := k + "_" + c;
    assert r[|k|] == '_';
    forall i | 0 <= i < |r|
      ensures NameChar(r[i])
    {
      if i < |k| {
        assert r[i] == k[i];
      } else if i > |k| {
        assert r[i] == c[i - |k| - 1];
      }
    }
  }

  lemma FallbackChars(hash: int)
    ensures var r := FallbackName(hash);
      && |r| > 0 && IsWordChar(r[0]) && !IsUpper(r[0]) && '_' in r
      && forall i :: 0 <= i < |r| ==> NameChar(r[i])
  {
    var d := Digits(hash % 10000);
    var r := FallbackName(hash);
    assert r[6] == '_';
    forall i | 0 <= i < |r|
      ensures NameChar(r[i])
    {
      if i >= 7 {
        assert r[i] == d[i - 7];
      }
    }
  }

  /** A statement the match cannot read is named `object_` and the hash modulo
      10000 in one to four decimal digits. */
  lemma ExtractFallback(statement: string, hash: int)
    requires HeadOf(statement).None?
    ensures var r := ExtractObjectName(statement, hash);
      && 8 <= |r| <= 11 && r[..7] == "object_"
      && AllDigits(r[7..]) && Parse(r[7..]) == hash % 10000
  {
    var n := hash % 10000;
    var r := ExtractObjectName(statement, hash);
    assert r == "object_" + Digits(n);
    assert r[7..] == Digits(n);
    ParseDigits(n);
    DigitsLength(n);
  }

  // ---------------------------------------------------------------------------
  // The name read from a conventional statement

  /** How a statement spells its leading keywords: `CREATE` and, optionally, the
      pair `OR REPLACE`. The match ignores case, so any spelling is allowed. */
  datatype Keywords = Keywords(create: string, orReplace: Option<(string, string)>)

  /** The words read as CREATE, OR and REPLACE once upper-cased. */
  predicate Spelled(k: Keywords) {
    && UpperStr(k.create) == "CREATE"
    && (k.orReplace.Some? ==>
          UpperStr(k.orReplace.value.0) == "OR" && UpperStr(k.orReplace.value.1) == "REPLACE")
  }

  /** The keywords with one space after each. */
  function Prefix(k: Keywords): string {
    k.create + " " + (match k.orReplace case None => "" case Some(w) => w.0 + " " + w.1 + " ")
  }

  /** `CREATE [OR REPLACE ]<kind> <token>`, in any case, the shape of a statement
      in a DDL dump. */
  function CreateStatement(k: Keywords, kind: string, token: string): string {
    Prefix(k) + kind + " " + token
  }

  predicate EndsWithCreate(s: string) {
    |s| >= 6 && StartsWithKeyword(s[|s| - 6..], "CREATE")
  }

  /** On a conventional statement the name is the lower-cased kind word, `_`, and
      the unqualified, unquoted token, however the keywords are cased. The kind may
      not be the word OR and neither kind nor token may end in CREATE, since the
      prefix removal would then eat part of them. */
  lemma ExtractConventional(k: Keywords, kind: string, token: string, tail: string, hash: int)
    requires Spelled(k)
    requires |kind| > 0 && IsWord(kind) && UpperStr(kind) != "OR"
    requires |token| > 0 && forall i :: 0 <= i < |token| ==> IsTokenChar(token[i])
    requires !EndsWithCreate(kind) && !EndsWithCreate(token)
    requires tail == [] || !IsTokenChar(tail[0])
    ensures ExtractObjectName(CreateStatement(k, kind, token) + tail, hash)
         == LowerStr(kind) + "_" + CleanName(token)
  {
    HeadOfConventional(k, kind, token, tail);
  }

  /** The match on a conventional statement reads its kind word and its name token. */
  lemma HeadOfConventional(k: Keywords, kind: string, token: string, tail: string)
    requires Spelled(k)
    requires |kind| > 0 && IsWord(kind) && UpperStr(kind) != "OR"
    requires |token| > 0 && forall i :: 0 <= i < |token| ==> IsTokenChar(token[i])
    requires !EndsWithCreate(kind) && !EndsWithCreate(token)
    requires tail == [] || !IsTokenChar(tail[0])
    ensures HeadOf(CreateStatement(k, kind, token) + tail) == Some((kind, token))
  {
    var rest := StrippedStatement(k, kind, token, tail);
    HeadOfBody(kind, token, rest);
  }

  /** What the match sees of a conventional statement: `kind token` and the
      stripped remains of the tail. */
  lemma StrippedStatement(k: Keywords, kind: string, token: string, tail: string)
    returns (rest: string)
    requires Spelled(k)
    requires |kind| > 0 && IsWord(kind) && UpperStr(kind) != "OR"
    requires |token| > 0 && forall i :: 0 <= i < |token| ==> IsTokenChar(token[i])
    requires !EndsWithCreate(kind) && !EndsWithCreate(token)
    requires tail == [] || !IsTokenChar(tail[0])
    ensures Strip(RemoveCreatePrefixes(CreateStatement(k, kind, token) + tail))
         == kind + " " + token + rest
    ensures rest == [] || !IsTokenChar(rest[0])
  {
    RemovedStatement(k, kind, token, tail);
    rest := StrippedBody(kind, token, tail);
  }

  lemma StrippedBody(kind: string, token: string, tail: string) returns (rest: string)
    requires |kind| > 0 && IsWord(kind)
    requires |token| > 0 && forall i :: 0 <= i < |token| ==> IsTokenChar(token[i])
    requires tail == [] || !IsTokenChar(tail[0])
    ensures Strip(kind + " " + token + RemoveCreatePrefixes(tail)) == kind + " " + token + rest
    ensures rest == [] || !IsTokenChar(rest[0])
  {
    var body := kind + " " + token;
    var rt := RemoveCreatePrefixes(tail);
    TailStart(tail);
    assert body[|body| - 1] == token[|token| - 1];
    StripBody(body, rt);
    rest := DropTrailing(rt);
    assert rest == [] || rest[0] == rt[0];
  }

  /** The prefix removal deletes the leading keywords, in whatever case, and
      nothing else up to the tail. */
  lemma RemovedStatement(k: Keywords, kind: string, token: string, tail: string)
    requires Spelled(k)
    requires |kind| > 0 && IsWord(kind) && UpperStr(kind) != "OR"
    requires |token| > 0 && forall i :: 0 <= i < |token| ==> IsTokenChar(token[i])
    requires !EndsWithCreate(kind) && !EndsWithCreate(token)
    requires tail == [] || !IsTokenChar(tail[0])
    ensures RemoveCreatePrefixes(CreateStatement(k, kind, token) + tail)
         == kind + " " + token + RemoveCreatePrefixes(tail)
  {
    var body := kind + " " + token;
    StatementParts(k, kind, token, tail);
    LeadingPrefixRemoved(k, kind, body + tail);
    BodyHasNoCreate(kind, token, tail);
    NoMatchKept(body, tail);
  }

  lemma StatementParts(k: Keywords, kind: string, token: string, tail: string)
    ensures var body := kind + " " + token;
      && CreateStatement(k, kind, token) + tail == Prefix(k) + (body + tail)
      && |body + tail| > |kind|
      && (body + tail)[..|kind|] == kind
      && (body + tail)[|kind|] == ' '
  {
    var body := kind + " " + token;
    assert (body + tail)[..|kind|] == kind;
  }

  /** The leading `CREATE [OR REPLACE ]` of a statement is removed in one match. */
  lemma LeadingPrefixRemoved(k: Keywords, kind: string, rest: string)
    requires Spelled(k)
    requires |kind| > 0 && IsWord(kind) && UpperStr(kind) != "OR"
    requires |rest| > |kind| && rest[..|kind|] == kind && rest[|kind|] == ' '
    ensures RemoveCreatePrefixes(Prefix(k) + rest) == RemoveCreatePrefixes(rest)
  {
    var pre := Prefix(k);
    var s := pre + rest;
    PrefixRemoved(k, kind, rest);
    PrefixStep(s);
    assert s[|pre|..] == rest;
  }

  /** One step of the scan where a prefix matches: the prefix is dropped. */
  lemma PrefixStep(s: string)
    requires CreateStarts(s)
    ensures RemoveCreatePrefixes(s) == RemoveCreatePrefixes(s[CreatePrefixLength(s)..])
  {
  }

  lemma PrefixRemoved(k: Keywords, kind: string, rest: string)
    requires Spelled(k)
    requires |kind| > 0 && IsWord(kind) && UpperStr(kind) != "OR"
    requires |rest| > |kind| && rest[..|kind|] == kind && rest[|kind|] == ' '
    ensures var s := Prefix(k) + rest;
      CreatePrefixLength(s) == |s| - |rest| > 0
  {
    assert rest[0] == kind[0];
    var c := k.create;
    match k.orReplace
    case None =>
      assert Prefix(k) == c + " " by {
        assert c + " " + "" == c + " ";
      }
      PlainPrefix(c, kind, rest);
    case Some(w) =>
      var o, p := w.0, w.1;
      assert Prefix(k) + rest == c + " " + (o + " " + p + " " + rest) by {
        AppendAssoc(c + " ", o + " " + p + " ", rest);
      }
      OrReplacePrefix(c, o, p, rest);
  }

  lemma OrReplacePrefix(c: string, o: string, p: string, rest: string)
    requires UpperStr(c) == "CREATE" && UpperStr(o) == "OR" && UpperStr(p) == "REPLACE"
    requires |rest| > 0 && !IsSpace(rest[0])
    ensures CreatePrefixLength(c + " " + (o + " " + p + " " + rest)) == 18
  {
    var t := o + " " + p + " " + rest;
    assert t[0] == o[0];
    assert ToUpper(o[0]) == 'O';
    CreateThen(c, t);
    OrReplaceMatched(o, p, rest);
  }

  lemma PlainPrefix(c: string, kind: string, rest: string)
    requires UpperStr(c) == "CREATE"
    requires |kind| > 0 && IsWord(kind) && UpperStr(kind) != "OR"
    requires |rest| > |kind| && rest[..|kind|] == kind && rest[|kind|] == ' '
    ensures CreatePrefixLength(c + " " + rest) == 7
  {
    assert rest[0] == kind[0];
    CreateThen(c, rest);
    NotOrReplace(kind, rest);
  }

  /** `CREATE`, in any case, and one space, followed by a non-space: the optional
      `OR REPLACE` decides the rest of the prefix. */
  lemma CreateThen(c: string, t: string)
    requires UpperStr(c) == "CREATE"
    requires |t| > 0 && !IsSpace(t[0])
    ensures CreatePrefixLength(c + " " + t) == 7 + OrReplaceLength(t)
  {
    var s := c + " " + t;
    assert s[..|c|] == c;
    SpelledKeyword(s, c, "CREATE");
    assert s[6] == ' ';
    assert SpaceRun(s[6..]) == 1 by {
      assert s[6..][1..] == s[7..];
      assert s[7] == t[0];
    }
    DropPastPrefix(c + " ", t, 0);
  }

  /** `OR REPLACE`, in any case, with one space after each word and a non-space
      after that: the optional group matches eleven characters. */
  lemma OrReplaceMatched(o: string, p: string, rest: string)
    requires UpperStr(o) == "OR" && UpperStr(p) == "REPLACE"
    requires |rest| > 0 && !IsSpace(rest[0])
    ensures OrReplaceLength(o + " " + p + " " + rest) == 11
  {
    var t := o + " " + p + " " + rest;
    assert t[..2] == o;
    SpelledKeyword(t, o, "OR");
    assert t[3] == p[0];
    assert ToUpper(p[0]) == 'R';
    assert SpaceRun(t[2..]) == 1 by {
      assert t[2..][1..] == t[3..];
    }
    assert t[3..][..7] == p;
    SpelledKeyword(t[3..], p, "REPLACE");
    assert SpaceRun(t[10..]) == 1 by {
      assert t[10..][1..] == t[11..];
      assert t[11] == rest[0];
    }
  }

  lemma NotOrReplace(kind: string, rest: string)
    requires |kind| > 0 && IsWord(kind) && UpperStr(kind) != "OR"
    requires |rest| > |kind| && rest[..|kind|] == kind && rest[|kind|] == ' '
    ensures OrReplaceLength(rest) == 0
  {
    if |kind| == 1 {
      assert rest[1] == ' ';
      assert !StartsWithKeyword(rest, "OR");
    } else if |kind| == 2 {
      assert rest[0] == kind[0] && rest[1] == kind[1];
      assert !StartsWithKeyword(rest, "OR") by {
        assert UpperStr(kind) != "OR";
        assert !(ToUpper(kind[0]) == 'O' && ToUpper(kind[1]) == 'R');
      }
    } else {
      assert rest[2] == kind[2];
      assert IsWordChar(rest[2]);
      assert rest[2..][0] == rest[2];
      assert SpaceRun(rest[2..]) == 0;
    }
  }

  /** A run of non-space characters, not ending in CREATE, followed by `next` (a
      character that is not a letter, or nothing) holds no CREATE prefix. */
  lemma NoCreateInRun(run: string, next: string, p: nat)
    requires forall i :: 0 <= i < |run| ==> !IsSpace(run[i])
    requires !EndsWithCreate(run)
    requires |next| <= 1
    requires next == [] || (ToUpper(next[0]) == next[0] && !IsUpper(next[0]))
    requires p < |run|
    ensures !CreateStarts((run + next)[p..])
  {
    var z := (run + next)[p..];
    if p + 6 < |run| {
      assert z[6] == run[p + 6];
    } else if p + 6 == |run| {
      assert forall i :: 0 <= i < 6 ==> run[|run| - 6..][i] == z[i];
      assert StartsWithKeyword(z, "CREATE") == EndsWithCreate(run);
    } else if next == [] {
      assert |z| < 6;
    } else {
      var i := |run| - p;
      assert z[i] == next[0];
      assert ToUpper(z[i]) != "CREATE"[i];
    }
  }

  /** Whether a CREATE prefix starts is decided by the first seven characters. */
  lemma CreateStartsPrefix(a: string, b: string)
    requires |a| >= 7
    ensures CreateStarts(a + b) == CreateStarts(a)
  {
    assert forall i :: 0 <= i < 7 ==> (a + b)[i] == a[i];
  }

  /** No CREATE prefix starts anywhere inside `kind token`, even looking into the tail. */
  lemma BodyHasNoCreate(kind: string, token: string, tail: string)
    requires |kind| > 0 && IsWord(kind)
    requires |token| > 0 && forall i :: 0 <= i < |token| ==> IsTokenChar(token[i])
    requires !EndsWithCreate(kind) && !EndsWithCreate(token)
    requires tail == [] || !IsTokenChar(tail[0])
    ensures forall p :: 0 <= p < |kind + " " + token| ==> !CreateStarts((kind + " " + token)[p..] + tail)
  {
    var body := kind + " " + token;
    var s := body + tail;
    assert s == kind + (" " + (token + tail)) by {
      AppendAssoc(kind, " ", token + tail);
      AppendAssoc(kind + " ", token, tail);
    }
    forall p | 0 <= p < |body|
      ensures !CreateStarts(body[p..] + tail)
    {
      DropOfAppend(body, tail, p);
      if p < |kind| {
        NoCreateInKind(kind, token + tail, p);
      } else if p == |kind| {
        assert s[p..][0] == ' ';
      } else {
        NoCreateInToken(token, tail, p - |kind| - 1);
        DropPastPrefix(kind + " ", token + tail, p - |kind| - 1);
      }
    }
  }

  lemma NoCreateInKind(kind: string, rest: string, p: nat)
    requires |kind| > 0 && IsWord(kind) && !EndsWithCreate(kind)
    requires p < |kind|
    ensures !CreateStarts((kind + (" " + rest))[p..])
  {
    NoCreateInRun(kind, " ", p);
    var z := (kind + " ")[p..];
    var w := (kind + (" " + rest))[p..];
    assert w == z + rest;
    if |z| >= 7 {
      CreateStartsPrefix(z, rest);
    } else {
      assert z[|z| - 1] == ' ' == w[|z| - 1];
      assert forall i :: 0 <= i < |z| ==> w[i] == z[i];
      if |z| <= 6 {
        assert ToUpper(w[|z| - 1]) != "CREATE"[|z| - 1];
      }
    }
  }

  lemma NoCreateInToken(token: string, tail: string, q: nat)
    requires |token| > 0 && forall i :: 0 <= i < |token| ==> IsTokenChar(token[i])
    requires !EndsWithCreate(token)
    requires tail == [] || !IsTokenChar(tail[0])
    requires q < |token|
    ensures !CreateStarts((token + tail)[q..])
  {
    var first := if tail == [] then [] else [tail[0]];
    var more := if tail == [] then [] else tail[1..];
    assert tail == first + more;
    NoCreateInRun(token, first, q);
    var z := (token + first)[q..];
    var w := (token + tail)[q..];
    assert w == z + more;
    if |z| >= 7 {
      CreateStartsPrefix(z, more);
    } else if tail != [] {
      assert z[|z| - 1] == tail[0] == w[|z| - 1];
      assert ToUpper(w[|z| - 1]) != "CREATE"[|z| - 1];
    } else {
      assert w == z;
    }
  }

  /** One step of the scan where no prefix matches: the character is copied. */
  lemma RemoveStep(s: string)
    requires |s| > 0 && !CreateStarts(s)
    ensures RemoveCreatePrefixes(s) == [s[0]] + RemoveCreatePrefixes(s[1..])
  {
  }

  /** Text at whose positions no prefix matches is copied unchanged. */
  lemma {:induction false} NoMatchKept(x: string, y: string)
    requires forall p :: 0 <= p < |x| ==> !CreateStarts(x[p..] + y)
    ensures RemoveCreatePrefixes(x + y) == x + RemoveCreatePrefixes(y)
    decreases |x|
  {
    if |x| == 0 {
      assert x + y == y;
    } else {
      var s := x + y;
      assert x[0..] == x;
      RemoveStep(s);
      assert s[1..] == x[1..] + y;
      forall p | 0 <= p < |x[1..]|
        ensures !CreateStarts(x[1..][p..] + y)
      {
        assert x[1..][p..] == x[p + 1..];
      }
      NoMatchKept(x[1..], y);
      assert s[0] == x[0];
      AppendAssoc([x[0]], x[1..], RemoveCreatePrefixes(y));
      assert [x[0]] + x[1..] == x;
    }
  }

  /** A tail that starts with whitespace or `(` still does so after the removal. */
  lemma TailStart(tail: string)
    requires tail == [] || !IsTokenChar(tail[0])
    ensures var r := RemoveCreatePrefixes(tail); r == [] || r[0] == tail[0]
  {
  }

  lemma StripBody(body: string, rest: string)
    requires |body| > 0 && !IsSpace(body[0]) && !IsSpace(body[|body| - 1])
    ensures Strip(body + rest) == body + DropTrailing(rest)
  {
    assert DropLeading(body + rest) == body + rest;
    DropTrailingAfter(body, rest);
  }

  lemma {:induction false} DropTrailingAfter(body: string, rest: string)
    requires |body| > 0 && !IsSpace(body[|body| - 1])
    ensures DropTrailing(body + rest) == body + DropTrailing(rest)
    decreases |rest|
  {
    if |rest| == 0 {
      assert body + rest == body;
    } else if IsSpace(rest[|rest| - 1]) {
      assert (body + rest)[..|body + rest| - 1] == body + rest[..|rest| - 1];
      DropTrailingAfter(body, rest[..|rest| - 1]);
    }
  }

  lemma HeadOfBody(kind: string, token: string, rest: string)
    requires |kind| > 0 && IsWord(kind)
    requires |token| > 0 && forall i :: 0 <= i < |token| ==> IsTokenChar(token[i])
    requires rest == [] || !IsTokenChar(rest[0])
    ensures MatchHead(kind + " " + token + rest) == Some((kind, token))
  {
    var s := kind + " " + token + rest;
    var k := |kind|;
    BodyRuns(kind, token, rest);
    assert s[..k] == kind;
    assert s[k + 1..k + 1 + |token|] == token;
    MatchHeadParts(s, k, 1, |token|);
  }

  /** The three runs `MatchHead` reads in `kind token rest`. */
  lemma BodyRuns(kind: string, token: string, rest: string)
    requires |kind| > 0 && IsWord(kind)
    requires |token| > 0 && forall i :: 0 <= i < |token| ==> IsTokenChar(token[i])
    requires rest == [] || !IsTokenChar(rest[0])
    ensures var s := kind + " " + token + rest;
      && WordRun(s) == |kind|
      && SpaceRun(s[|kind|..]) == 1
      && TokenRun(s[|kind| + 1..]) == |token|
  {
    var s := kind + " " + token + rest;
    var k := |kind|;
    assert s == kind + (" " + token + rest);
    WordRunOf(kind, " " + token + rest);
    assert s[k..] == " " + (token + rest);
    assert s[k..][1..] == token + rest;
    assert s[k + 1..] == token + rest;
    TokenRunOf(token, rest);
  }

  /** `MatchHead` as the three runs it reads. */
  lemma MatchHeadParts(s: string, w: nat, sp: nat, n: nat)
    requires 0 < w <= |s| && WordRun(s) == w
    requires 0 < sp && w + sp <= |s| && SpaceRun(s[w..]) == sp
    requires 0 < n && TokenRun(s[w + sp..]) == n
    ensures MatchHead(s) == Some((s[..w], s[w + sp..w + sp + n]))
  {
    var t := s[w + sp..];
    assert t[..n] == s[w + sp..w + sp + n];
    assert MatchHead(s).value.0 == s[..w];
    assert MatchHead(s).value.1 == t[..n];
  }

  lemma {:induction false} WordRunOf(a: string, b: string)
    requires IsWord(a)
    requires b == [] || !IsWordChar(b[0])
    ensures WordRun(a + b) == |a|
    decreases |a|
  {
    if |a| == 0 {
      assert a + b == b;
    } else {
      assert (a + b)[1..] == a[1..] + b;
      WordRunOf(a[1..], b);
    }
  }

  lemma {:induction false} TokenRunOf(a: string, b: string)
    requires forall i :: 0 <= i < |a| ==> IsTokenChar(a[i])
    requires b == [] || !IsTokenChar(b[0])
    ensures TokenRun(a + b) == |a|
    decreases |a|
  {
    if |a| == 0 {
      assert a + b == b;
    } else {
      assert (a + b)[1..] == a[1..] + b;
      TokenRunOf(a[1..], b);
    }
  }

  /** A token with neither quotes nor dots is its own clean name. */
  lemma CleanPlain(token: string)
    requires forall i :: 0 <= i < |token| ==> !IsQuote(token[i])
    requires '.' !in token
    ensures CleanName(token) == token
  {
    RemoveQuotesNone(token);
    SplitNoSeparator(token, '.');
  }

  lemma {:induction false} RemoveQuotesNone(s: string)
    requires forall i :: 0 <= i < |s| ==> !IsQuote(s[i])
    ensures RemoveQuotes(s) == s
  {
    if |s| > 0 {
      RemoveQuotesNone(s[1..]);
      assert [s[0]] + s[1..] == s;
    }
  }

  /** Any statement `CREATE w1 w2 ...`, its keywords in any case, is named after its
      first two words, whatever follows the space after `w2`: the type is `w1` and
      the name is `w2`. As for `ExtractConventional`, `w1` may not be the word OR
      and neither word may end in CREATE, since the prefix removal would then eat
      part of it. */
  lemma SecondWordTaken(k: Keywords, first: string, second: string, name: string, rest: string, hash: int)
    requires Spelled(k)
    requires |first| > 0 && IsWord(first) && UpperStr(first) != "OR"
    requires |second| > 0 && forall i :: 0 <= i < |second| ==> IsTokenChar(second[i])
    requires !EndsWithCreate(first) && !EndsWithCreate(second)
    ensures ExtractObjectName(Prefix(k) + first + " " + second + " " + name + rest, hash)
         == LowerStr(first) + "_" + CleanName(second)
  {
    var tail := " " + name + rest;
    assert tail[0] == ' ';
    SecondWordText(k, first, second, name, rest);
    ExtractConventional(k, first, second, tail, hash);
  }

  lemma SecondWordText(k: Keywords, first: string, second: string, name: string, rest: string)
    ensures CreateStatement(k, first, second) + (" " + name + rest)
         == Prefix(k) + first + " " + second + " " + name + rest
  {
    var head := Prefix(k) + first + " " + second;
    AppendAssoc(head, " " + name, rest);
    AppendAssoc(head, " ", name);
  }

  /** A dump that writes its keywords in lower case is read like any other:
      `create or replace table Orders (...)` is named `table_Orders`. */
  lemma LowerCaseReplaceName(statement: string, hash: int)
    requires statement == "create or replace table Orders (id INT);"
    ensures ExtractObjectName(statement, hash) == "table_Orders"
  {
    var k := Keywords("create", Some(("or", "replace")));
    LowerKeywords();
    ReplaceText();
    TableWords();
    ExtractConventional(k, "table", "Orders", " (id INT);", hash);
    TableName("table", "Orders");
  }

  lemma LowerKeywords()
    ensures Spelled(Keywords("create", Some(("or", "replace"))))
  {
    LowerKeyword("create", "CREATE");
    LowerKeyword("or", "OR");
    LowerKeyword("replace", "REPLACE");
  }

  lemma LowerKeyword(w: string, kw: string)
    requires |w| == |kw|
    requires forall i :: 0 <= i < |w| ==> IsLower(w[i]) && w[i] as int - 32 == kw[i] as int
    ensures UpperStr(w) == kw
  {
  }

  lemma ReplaceText()
    ensures "create or replace table Orders (id INT);"
         == CreateStatement(Keywords("create", Some(("or", "replace"))), "table", "Orders") + " (id INT);"
  {
    assert Prefix(Keywords("create", Some(("or", "replace")))) == "create " + ("or" + " " + "replace" + " ");
    ReplaceWords();
  }

  lemma ReplaceWords()
    ensures "create " + ("or" + " " + "replace" + " ") + "table" + " " + "Orders" + " (id INT);"
         == "create or replace table Orders (id INT);"
  {
  }

  lemma TableWords()
    ensures var kind, token := "table", "Orders";
      && IsWord(kind) && UpperStr(kind) != "OR" && !EndsWithCreate(kind)
      && (forall i :: 0 <= i < |token| ==> IsTokenChar(token[i]) && !IsQuote(token[i]))
      && '.' !in token && !EndsWithCreate(token)
      && !IsTokenChar(" (id INT);"[0])
  {
    TableKind();
    OrdersToken();
  }

  lemma TableKind()
    ensures var kind := "table";
      IsWord(kind) && UpperStr(kind) != "OR" && !EndsWithCreate(kind)
  {
    assert |UpperStr("table")| == 5;
  }

  lemma OrdersToken()
    ensures var token := "Orders";
      && (forall i :: 0 <= i < |token| ==> IsTokenChar(token[i]) && !IsQuote(token[i]))
      && '.' !in token && !EndsWithCreate(token)
  {
    var token := "Orders";
    assert token[|token| - 6..][0] == 'O';
    assert ToUpper('O') != 'C';
  }

  lemma TableName(kind: string, token: string)
    requires kind == "table" && token == "Orders"
    ensures LowerStr(kind) + "_" + CleanName(token) == "table_Orders"
  {
    OrdersToken();
    CleanPlain(token);
    LowerTable();
    TableOrdersText(LowerStr(kind), CleanName(token));
  }

  lemma TableOrdersText(l: string, c: string)
    requires l == "table" && c == "Orders"
    ensures l + "_" + c == "table_Orders"
  {
  }

  lemma LowerTable()
    ensures LowerStr("table") == "table"
  {
    var s := "table";
    forall i | 0 <= i < |s|
      ensures LowerStr(s)[i] == s[i]
    {
      assert !IsUpper(s[i]);
    }
  }

  /** A materialised view is named after its first two words: the kind word is
      MATERIALIZED and the name token is VIEW. */
  lemma MaterializedViewName(statement: string, hash: int)
    requires statement == "CREATE MATERIALIZED VIEW mv AS SELECT 1;"
    ensures ExtractObjectName(statement, hash) == "materialized_VIEW"
  {
    var kind, token, tail := MaterializedParts(statement);
    UpperCreate();
    ExtractConventional(Keywords("CREATE", None), kind, token, tail, hash);
    MaterializedName(kind, token);
  }

  lemma MaterializedName(kind: string, token: string)
    requires kind == "MATERIALIZED" && token == "VIEW"
    ensures LowerStr(kind) + "_" + CleanName(token) == "materialized_VIEW"
  {
    assert '.' !in token;
    CleanPlain(token);
    LowerMaterialized();
  }

  /** The example statement read as a conventional one. */
  lemma MaterializedParts(statement: string) returns (kind: string, token: string, tail: string)
    requires statement == "CREATE MATERIALIZED VIEW mv AS SELECT 1;"
    ensures kind == "MATERIALIZED" && token == "VIEW"
    ensures statement == CreateStatement(Keywords("CREATE", None), kind, token) + tail
    ensures |kind| > 0 && IsWord(kind) && UpperStr(kind) != "OR"
    ensures |token| > 0 && forall i :: 0 <= i < |token| ==> IsTokenChar(token[i])
    ensures !EndsWithCreate(kind) && !EndsWithCreate(token)
    ensures tail == [] || !IsTokenChar(tail[0])
    ensures forall i :: 0 <= i < |token| ==> !IsQuote(token[i])
    ensures '.' !in token
  {
    kind, token, tail := "MATERIALIZED", "VIEW", " mv AS SELECT 1;";
    MaterializedText();
    MaterializedKind();
    MaterializedToken();
  }

  lemma MaterializedText()
    ensures "CREATE MATERIALIZED VIEW mv AS SELECT 1;"
         == CreateStatement(Keywords("CREATE", None), "MATERIALIZED", "VIEW") + " mv AS SELECT 1;"
  {
    PlainStatement("MATERIALIZED", "VIEW");
    MaterializedWords();
  }

  lemma MaterializedWords()
    ensures "CREATE " + "MATERIALIZED" + " " + "VIEW" + " mv AS SELECT 1;"
         == "CREATE MATERIALIZED VIEW mv AS SELECT 1;"
  {
  }

  /** Without `OR REPLACE` the keywords are `CREATE` and its space. */
  lemma PlainStatement(kind: string, token: string)
    ensures CreateStatement(Keywords("CREATE", None), kind, token) == "CREATE " + kind + " " + token
  {
    assert Prefix(Keywords("CREATE", None)) == "CREATE " + "";
  }

  lemma UpperCreate()
    ensures Spelled(Keywords("CREATE", None))
  {
    var c := "CREATE";
    forall i | 0 <= i < |c|
      ensures UpperStr(c)[i] == c[i]
    {
      assert !IsLower(c[i]);
    }
  }

  lemma MaterializedKind()
    ensures var kind := "MATERIALIZED";
      IsWord(kind) && UpperStr(kind) != "OR" && !EndsWithCreate(kind)
  {
    var kind := "MATERIALIZED";
    assert |UpperStr(kind)| == 12;
    assert kind[|kind| - 6..][0] == kind[6];
    assert ToUpper(kind[6]) != 'C';
  }

  lemma MaterializedToken()
    ensures var token := "VIEW";
      && (forall i :: 0 <= i < |token| ==> IsTokenChar(token[i]) && !IsQuote(token[i]))
      && '.' !in token && !EndsWithCreate(token)
  {
  }

  lemma LowerMaterialized()
    ensures LowerStr("MATERIALIZED") == "materialized"
  {
    var s := "MATERIALIZED";
    forall i | 0 <= i < |s|
      ensures LowerStr(s)[i] == "materialized"[i]
    {
      assert IsUpper(s[i]);
    }
  }
}
