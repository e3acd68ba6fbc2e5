/** Go strings as the exporter uses them: immutable sequences of bytes, with
    the one library search the core relies on, strings.Contains. */
module GoStrings {

  type byte = b: int | 0 <= b < 256

  /** A Go string: a sequence of bytes (no encoding is assumed). */
  type Str = seq<byte>

  datatype Option<+T> = None | Some(value: T)

  datatype Result<+T, +E> = Success(value: T) | Failure(error: E)

  /** The bytes of an ASCII literal. */
  function Lit(s: string): (r: Str)
    requires forall i :: 0 <= i < |s| ==> s[i] as int < 128
    ensures |r| == |s|
    ensures forall i :: 0 <= i < |s| ==> r[i] == s[i] as int
  {
    seq(|s|, i requires 0 <= i < |s| => s[i] as int)
  }

  /** `sub` occurs in `s` starting at offset `i`. */
  ghost predicate OccursAt(s: Str, sub: Str, i: int)
  {
    0 <= i && i + |sub| <= |s| && s[i..i + |sub|] == sub
  }

  /** strings.Contains: whether `sub` is a substring of `s`. */
  function Contains(s: Str, sub: Str): (b: bool)
    ensures b <==> exists i :: OccursAt(s, sub, i)
    decreases |s|
  {
    if |sub| > |s| then
      false
    else if s[..|sub|] == sub then
      assert OccursAt(s, sub, 0);
      true
    else
      var rest := Contains(s[1..], sub);
      OccursShift(s, sub);
      rest
  }

  /** Occurrences in `s` at offsets other than 0 are exactly the occurrences in `s[1..]`, shifted. */
  lemma OccursShift(s: Str, sub: Str)
    requires |s| > 0 && !OccursAt(s, sub, 0)
    ensures (exists i :: OccursAt(s, sub, i)) <==> (exists j :: OccursAt(s[1..], sub, j))
  {
    if i :| OccursAt(s, sub, i) {
      assert i > 0;
      assert s[1..][i - 1..i - 1 + |sub|] == s[i..i + |sub|];
      assert OccursAt(s[1..], sub, i - 1);
    }
    if j :| OccursAt(s[1..], sub, j) {
      assert s[j + 1..j + 1 + |sub|] == s[1..][j..j + |sub|];
      assert OccursAt(s, sub, j + 1);
    }
  }

  /** The stop-word test of readUntil: some word of `words` occurs in `s`. */
  function ContainsAny(s: Str, words: seq<Str>): (b: bool)
    ensures b <==> exists k :: 0 <= k < |words| && Contains(s, words[k])
  {
    if words == [] then false
    else Contains(s, words[0]) || ContainsAny(s, words[1..])
  }
}
