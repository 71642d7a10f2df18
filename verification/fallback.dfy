/** The fallback `split_single_file` uses when no statement pattern matches:
    `content.split(';')`, keeping the pieces whose stripped text starts with
    `CREATE` (any case), each stripped and given back its `;`. */
module Fallback {
  import opened Chars
  import opened Text

  const CreateKeyword: string := "CREATE"

  /** The filter of the list comprehension: `stmt.strip().upper().startswith('CREATE')`. */
  predicate IsCreatePiece(piece: string) {
    StartsWithKeyword(Strip(piece), CreateKeyword)
  }

  /** A statement as the fallback emits it: it ends with its only `;`, starts with
      `CREATE` (any case) and so has no leading whitespace. */
  predicate IsFallbackStatement(st: string) {
    && |st| >= 1
    && st[|st| - 1] == ';'
    && (forall i :: 0 <= i < |st| - 1 ==> st[i] != ';')
    && !IsSpace(st[0])
    && StartsWithKeyword(st, CreateKeyword)
  }

  /** The statement built from one kept piece. */
  function Terminated(piece: string): string {
    Strip(piece) + ";"
  }

  lemma TerminatedShape(piece: string)
    requires ';' !in piece
    requires IsCreatePiece(piece)
    ensures IsFallbackStatement(Terminated(piece))
  {
    StripKeepsAbsent(piece, ';');
    TerminatedHead(Strip(piece));
  }

  /** A `;`-free text that starts with `CREATE` becomes a fallback statement once its
      `;` is put back. */
  lemma TerminatedHead(head: string)
    requires ';' !in head
    requires StartsWithKeyword(head, CreateKeyword)
    ensures IsFallbackStatement(head + ";")
  {
    var st := head + ";";
    assert forall i :: 0 <= i < |st| - 1 ==> st[i] != ';' by {
      forall i | 0 <= i < |st| - 1
        ensures st[i] != ';'
      {
        assert st[i] == head[i];
      }
    }
    assert StartsWithKeyword(st, CreateKeyword) by {
      forall i | 0 <= i < |CreateKeyword|
        ensures ToUpper(st[i]) == CreateKeyword[i]
      {
        assert st[i] == head[i];
      }
    }
    assert !IsSpace(st[0]) by {
      assert ToUpper(st[0]) == 'C';
    }
    assert st[|st| - 1] == ';';
  }

  /** The list comprehension `[f(p) for p in pieces if keep(p)]`. */
  function FilterMap(keep: string -> bool, f: string -> string, pieces: seq<string>): (r: seq<string>)
    ensures |r| <= |pieces|
  {
    if |pieces| == 0 then []
    else if keep(pieces[0]) then [f(pieces[0])] + FilterMap(keep, f, pieces[1..])
    else FilterMap(keep, f, pieces[1..])
  }

  /** The comprehension of the fallback: the CREATE pieces, stripped and terminated. */
  function KeepCreates(pieces: seq<string>): (r: seq<string>)
    ensures |r| <= |pieces|
  {
    FilterMap(IsCreatePiece, Terminated, pieces)
  }

  /** Each element of the comprehension comes from a kept piece. */
  lemma {:induction false} FilterMapFrom(keep: string -> bool, f: string -> string, pieces: seq<string>, k: nat)
    returns (j: nat)
    requires k < |FilterMap(keep, f, pieces)|
    ensures j < |pieces| && keep(pieces[j])
    ensures FilterMap(keep, f, pieces)[k] == f(pieces[j])
  {
    var rest := FilterMap(keep, f, pieces[1..]);
    if keep(pieces[0]) && k == 0 {
      j := 0;
    } else {
      var k' := if keep(pieces[0]) then k - 1 else k;
      assert FilterMap(keep, f, pieces)[k] == rest[k'];
      var j' := FilterMapFrom(keep, f, pieces[1..], k');
      j := j' + 1;
      assert pieces[1..][j'] == pieces[j];
    }
  }

  /** The comprehension works piece by piece and keeps source order: on a
      concatenation it is the concatenation of the parts. */
  lemma {:induction false} FilterMapAppend(keep: string -> bool, f: string -> string, a: seq<string>, b: seq<string>)
    ensures FilterMap(keep, f, a + b) == FilterMap(keep, f, a) + FilterMap(keep, f, b)
  {
    if |a| == 0 {
      assert a + b == b;
    } else {
      assert (a + b)[1..] == a[1..] + b;
      FilterMapAppend(keep, f, a[1..], b);
    }
  }

  /** Every kept piece contributes its image. */
  lemma FilterMapKeeps(keep: string -> bool, f: string -> string, pieces: seq<string>, j: nat)
    requires j < |pieces| && keep(pieces[j])
    ensures f(pieces[j]) in FilterMap(keep, f, pieces)
  {
    var front := pieces[..j];
    var back := pieces[j + 1..];
    assert pieces == (front + [pieces[j]]) + back;
    FilterMapAppend(keep, f, front + [pieces[j]], back);
    FilterMapAppend(keep, f, front, [pieces[j]]);
    assert FilterMap(keep, f, [pieces[j]]) == [f(pieces[j])] by {
      assert [pieces[j]][1..] == [];
    }
    var kept := FilterMap(keep, f, pieces);
    assert kept[|FilterMap(keep, f, front)|] == f(pieces[j]);
  }

  /** Every kept statement has the fallback shape. */
  lemma KeepCreatesShape(pieces: seq<string>)
    requires forall k :: 0 <= k < |pieces| ==> ';' !in pieces[k]
    ensures forall k :: 0 <= k < |KeepCreates(pieces)| ==> IsFallbackStatement(KeepCreates(pieces)[k])
  {
    forall k | 0 <= k < |KeepCreates(pieces)|
      ensures IsFallbackStatement(KeepCreates(pieces)[k])
    {
      var j := FilterMapFrom(IsCreatePiece, Terminated, pieces, k);
      TerminatedShape(pieces[j]);
    }
  }

  /** The fallback split. There are at most one more statements than semicolons. */
  function FallbackSplit(content: string): (r: seq<string>)
    ensures |r| <= Count(content, ';') + 1
    ensures forall k :: 0 <= k < |r| ==> IsFallbackStatement(r[k])
  {
    KeepCreatesShape(Split(content, ';'));
    KeepCreates(Split(content, ';'))
  }

  /** Every `CREATE` piece between semicolons is found by the fallback. */
  lemma FallbackFindsEveryCreate(content: string, j: nat)
    requires j < |Split(content, ';')|
    requires IsCreatePiece(Split(content, ';')[j])
    ensures Terminated(Split(content, ';')[j]) in FallbackSplit(content)
  {
    FilterMapKeeps(IsCreatePiece, Terminated, Split(content, ';'), j);
  }
}
