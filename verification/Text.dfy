/** What the models share: options, a minimum, distinctness, ASCII lowercasing, and substring
    search with the laws the other modules need. */
module Text {

  datatype Option<+T> = None | Some(value: T)

  function Min(a: int, b: int): int {
    if a <= b then a else b
  }

  ghost predicate Distinct<T>(s: seq<T>) {
    forall i, j :: 0 <= i < j < |s| ==> s[i] != s[j]
  }

  /** `String.prototype.toLowerCase` on the ASCII letters; other characters are kept. */
  function LowerChar(c: char): char {
    if 'A' <= c <= 'Z' then ((c as int) + 32) as char else c
  }

  function Lower(s: string): (r: string)
    ensures |r| == |s|
    ensures forall i :: 0 <= i < |s| ==> r[i] == LowerChar(s[i])
  {
    seq(|s|, i requires 0 <= i < |s| => LowerChar(s[i]))
  }

  /** `pat` stands in `s` at index `i`. */
  predicate At(s: string, pat: string, i: nat) {
    i + |pat| <= |s| && forall k :: 0 <= k < |pat| ==> s[i + k] == pat[k]
  }

  /** `s.includes(pat)` */
  predicate Includes(s: string, pat: string) {
    exists i :: 0 <= i <= |s| && At(s, pat, i)
  }

  lemma IncludesSelf(s: string)
    ensures Includes(s, s)
  {
    assert At(s, s, 0);
  }

  /** A substring of one part of a concatenation is a substring of the whole. */
  lemma IncludesInConcat(a: string, b: string, c: string, pat: string)
    requires Includes(b, pat)
    ensures Includes(a + b + c, pat)
  {
    var i :| 0 <= i <= |b| && At(b, pat, i);
    var whole := a + b + c;
    assert whole[|a| + i..|a| + i + |pat|] == b[i..i + |pat|];
    assert At(whole, pat, |a| + i);
  }

  lemma IncludesLower(s: string, pat: string)
    requires Includes(s, pat)
    ensures Includes(Lower(s), Lower(pat))
  {
    var i :| 0 <= i <= |s| && At(s, pat, i);
    var part := s[i..i + |pat|];
    assert forall j :: 0 <= j < |pat| ==> part[j] == s[i + j];
    assert Lower(s)[i..i + |pat|] == Lower(pat);
    assert At(Lower(s), Lower(pat), i);
  }
}
