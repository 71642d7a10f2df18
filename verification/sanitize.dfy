/** `DDLSplitter._sanitize_filename`: make an object name usable as a file name. */
module Sanitize {

  /** The characters most file systems refuse in a file name. */
  const Forbidden: string := "<>:\"/\\|?*"

  /** Names longer than this are cut. */
  const MaxLength: nat := 200

  predicate IsForbidden(c: char) {
    c in Forbidden
  }

  /** The character that replaces `c` in a sanitized name. */
  function Replacement(c: char): char {
    if IsForbidden(c) then '_' else c
  }

  /** Replace each forbidden character by `_`, then keep at most 200 characters. */
  function SanitizeFilename(name: string): (r: string)
    ensures |r| <= MaxLength
    ensures |r| == if |name| <= MaxLength then |name| else MaxLength
    ensures forall i :: 0 <= i < |r| ==> !IsForbidden(r[i])
    ensures forall i :: 0 <= i < |r| ==> (IsForbidden(name[i]) ==> r[i] == '_')
    ensures forall i :: 0 <= i < |r| ==> (!IsForbidden(name[i]) ==> r[i] == name[i])
  {
    var replaced := seq(|name|, i requires 0 <= i < |name| => Replacement(name[i]));
    if |replaced| > MaxLength then replaced[..MaxLength] else replaced
  }

  predicate IsClean(name: string) {
    |name| <= MaxLength && forall i :: 0 <= i < |name| ==> !IsForbidden(name[i])
  }

  /** Sanitizing leaves a name unchanged exactly when it is already short and clean. */
  lemma SanitizeIdentity(name: string)
    ensures SanitizeFilename(name) == name <==> IsClean(name)
  {
    var r := SanitizeFilename(name);
    if IsClean(name) {
      assert forall i :: 0 <= i < |r| ==> r[i] == name[i];
    }
  }

  /** A sanitized name is clean, so sanitizing twice is the same as once. */
  lemma SanitizeIdempotent(name: string)
    ensures SanitizeFilename(SanitizeFilename(name)) == SanitizeFilename(name)
  {
    SanitizeIdentity(SanitizeFilename(name));
  }
}
