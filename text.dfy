/** Strings and the whitespace trimming that the store applies to titles and
    filter-button labels (ECMAScript `String.prototype.trim`). */
module Text {

  /** The characters `trim` removes: ECMAScript WhiteSpace (tab, vertical tab,
      form feed, space, no-break space, byte-order mark and the other
      space separators) and LineTerminator (LF, CR, LS, PS). */
  predicate IsWhitespace(c: char)
  {
    || c == '\t' || c == '\U{B}' || c == '\U{C}' || c == ' ' || c == '\U{A0}'
    || c == '\U{FEFF}' || c == '\U{1680}' || ('\U{2000}' <= c <= '\U{200A}')
    || c == '\U{202F}' || c == '\U{205F}' || c == '\U{3000}'
    || c == '\n' || c == '\r' || c == '\U{2028}' || c == '\U{2029}'
  }

  predicate AllWhitespace(s: string)
  {
    forall i :: 0 <= i < |s| ==> IsWhitespace(s[i])
  }

  /** The index of the first character of `s` that is not whitespace
      (`|s|` when there is none). */
  function LeadingEnd(s: string): (i: nat)
    ensures i <= |s|
    ensures forall k :: 0 <= k < i ==> IsWhitespace(s[k])
    ensures i < |s| ==> !IsWhitespace(s[i])
  {
    if |s| == 0 || !IsWhitespace(s[0]) then 0
    else 1 + LeadingEnd(s[1..])
  }

  /** The index just past the last character of `s` that is not whitespace
      (0 when there is none). */
  function TrailingStart(s: string): (j: nat)
    ensures j <= |s|
    ensures forall k :: j <= k < |s| ==> IsWhitespace(s[k])
    ensures j > 0 ==> !IsWhitespace(s[j - 1])
  {
    if |s| == 0 || !IsWhitespace(s[|s| - 1]) then |s|
    else TrailingStart(s[..|s| - 1])
  }

  /** `s` with its leading and trailing whitespace removed: a slice `s[i..j]`
      such that everything before `i` and from `j` on is whitespace, and the
      slice neither starts nor ends with whitespace. */
  function Trim(s: string): (r: string)
    ensures |r| <= |s|
    ensures r == [] || (!IsWhitespace(r[0]) && !IsWhitespace(r[|r| - 1]))
    ensures exists i, j :: 0 <= i <= j <= |s| && r == s[i..j] && TrimmedAt(s, i, j)
  {
    var i := LeadingEnd(s);
    var rest := s[i..];
    var j := TrailingStart(rest);
    assert rest[..j] == s[i..i + j];
    assert TrimmedAt(s, i, i + j) by {
      forall k | i + j <= k < |s| ensures IsWhitespace(s[k]) {
        assert s[k] == rest[k - i];
      }
    }
    rest[..j]
  }

  /** Everything in `s` before `i` and from `j` on is whitespace. */
  predicate TrimmedAt(s: string, i: nat, j: nat)
    requires i <= j <= |s|
  {
    && (forall k :: 0 <= k < i ==> IsWhitespace(s[k]))
    && (forall k :: j <= k < |s| ==> IsWhitespace(s[k]))
  }

  /** The slice described by Trim's contract is unique: any whitespace-free
      core of `s` with only whitespace around it is Trim(s). */
  lemma TrimUnique(s: string, i: nat, j: nat)
    requires i <= j <= |s| && TrimmedAt(s, i, j)
    requires i < j ==> !IsWhitespace(s[i]) && !IsWhitespace(s[j - 1])
    ensures Trim(s) == s[i..j]
  {
  }

  /** A trimmed string is its own trim. */
  lemma TrimIdempotent(s: string)
    ensures Trim(Trim(s)) == Trim(s)
  {
  }

  /** A string that neither starts nor ends with whitespace is its own trim. */
  lemma TrimBare(s: string)
    requires s != [] && !IsWhitespace(s[0]) && !IsWhitespace(s[|s| - 1])
    ensures Trim(s) == s
  {
  }

  /** The trim of a string is empty exactly when the string is all whitespace. */
  lemma TrimEmptyIff(s: string)
    ensures Trim(s) == [] <==> AllWhitespace(s)
  {
  }

  /** Padding a string with whitespace on either side does not change its trim. */
  lemma TrimPadded(a: string, s: string, b: string)
    requires AllWhitespace(a) && AllWhitespace(b)
    ensures Trim(a + s + b) == Trim(s)
  {
    var i, j := TrimCore(s);
    PaddedAt(a, s, b, i, j);
    TrimUnique(a + s + b, |a| + i, |a| + j);
  }

  lemma TrimCore(s: string) returns (i: nat, j: nat)
    ensures i <= j <= |s| && Trim(s) == s[i..j] && TrimmedAt(s, i, j)
  {
    i, j :| 0 <= i <= j <= |s| && Trim(s) == s[i..j] && TrimmedAt(s, i, j);
  }

  /** Where the whitespace-free core of `s` lies once `s` is padded. */
  lemma PaddedAt(a: string, s: string, b: string, i: nat, j: nat)
    requires AllWhitespace(a) && AllWhitespace(b)
    requires i <= j <= |s| && TrimmedAt(s, i, j)
    ensures TrimmedAt(a + s + b, |a| + i, |a| + j)
    ensures (a + s + b)[|a| + i..|a| + j] == s[i..j]
    ensures i < j ==> (a + s + b)[|a| + i] == s[i] && (a + s + b)[|a| + j - 1] == s[j - 1]
  {
  }
}
