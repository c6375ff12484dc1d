/** The JavaScript string operations the report parser and the viewer lean on:
    `String.prototype.trim`, `split` with a string separator, `join`, `indexOf` and
    `includes`, and the character classes `\s`, `\d` and `\w` of a regular expression
    without the `u` flag. Strings are sequences of code points. */
module JsText {
  import opened Wrappers

  /** ECMAScript LineTerminator: what `.` does not match. */
  predicate IsLineTerminator(c: char) {
    c == '\n' || c == '\r' || c == '\U{2028}' || c == '\U{2029}'
  }

  /** ECMAScript WhiteSpace and LineTerminator: the class `\s`, and what `trim` strips. */
  predicate IsSpace(c: char) {
    || c == '\t' || c == '\U{000B}' || c == '\U{000C}' || c == ' ' || c == '\U{00A0}' || c == '\U{FEFF}'
    || c == '\U{1680}' || ('\U{2000}' <= c <= '\U{200A}') || c == '\U{202F}' || c == '\U{205F}' || c == '\U{3000}'
    || IsLineTerminator(c)
  }

  predicate IsDigit(c: char) {
    '0' <= c <= '9'
  }

  /** The class `\w`. */
  predicate IsWordChar(c: char) {
    ('a' <= c <= 'z') || ('A' <= c <= 'Z') || IsDigit(c) || c == '_'
  }

  /** No code point of `s` is a line terminator. */
  predicate NoTerminator(s: string) {
    forall k :: 0 <= k < |s| ==> !IsLineTerminator(s[k])
  }

  predicate AllSpaces(s: string) {
    forall k :: 0 <= k < |s| ==> IsSpace(s[k])
  }

  /** Neither end of `t` is white space. */
  predicate Trimmed(t: string) {
    t == [] || (!IsSpace(t[0]) && !IsSpace(t[|t| - 1]))
  }

  // ----- trim -----

  /** Where the white space that starts at `i` ends. */
  function LeadEnd(s: string, i: nat): (r: nat)
    requires i <= |s|
    ensures i <= r <= |s|
    decreases |s| - i
  {
    if i < |s| && IsSpace(s[i]) then LeadEnd(s, i + 1) else i
  }

  /** Where the white space that ends at `j` starts, going back no further than `lo`. */
  function TrailStart(s: string, lo: nat, j: nat): (r: nat)
    requires lo <= j <= |s|
    ensures lo <= r <= j
    decreases j
  {
    if j > lo && IsSpace(s[j - 1]) then TrailStart(s, lo, j - 1) else j
  }

  /** `LeadEnd` stops at the first character that is not white space. */
  lemma {:induction false} LeadEndStops(s: string, i: nat)
    requires i <= |s|
    ensures forall k :: i <= k < LeadEnd(s, i) ==> IsSpace(s[k])
    ensures LeadEnd(s, i) == |s| || !IsSpace(s[LeadEnd(s, i)])
    decreases |s| - i
  {
    if i < |s| && IsSpace(s[i]) {
      LeadEndStops(s, i + 1);
    }
  }

  /** `TrailStart` stops at the last character that is not white space. */
  lemma {:induction false} TrailStartStops(s: string, lo: nat, j: nat)
    requires lo <= j <= |s|
    ensures forall k :: TrailStart(s, lo, j) <= k < j ==> IsSpace(s[k])
    ensures TrailStart(s, lo, j) == lo || !IsSpace(s[TrailStart(s, lo, j) - 1])
    decreases j
  {
    if j > lo && IsSpace(s[j - 1]) {
      TrailStartStops(s, lo, j - 1);
    }
  }

  /** `s.trim()`: white space is cut from the front, then from the back of what is left. */
  function Trim(s: string): string {
    var a := LeadEnd(s, 0);
    s[a..TrailStart(s, a, |s|)]
  }

  lemma {:induction false} LeadEndIs(s: string, i: nat, n: nat)
    requires i <= n <= |s| && (forall k :: i <= k < n ==> IsSpace(s[k])) && (n == |s| || !IsSpace(s[n]))
    ensures LeadEnd(s, i) == n
    decreases n - i
  {
    if i < n {
      LeadEndIs(s, i + 1, n);
    }
  }

  lemma {:induction false} TrailStartIs(s: string, lo: nat, j: nat, n: nat)
    requires lo <= n <= j <= |s| && (forall k :: n <= k < j ==> IsSpace(s[k])) && (n == lo || !IsSpace(s[n - 1]))
    ensures TrailStart(s, lo, j) == n
    decreases j
  {
    if n < j {
      TrailStartIs(s, lo, j - 1, n);
    }
  }

  /** `trim` removes exactly the white space around a trimmed core: it is the inverse of
      padding with white space. */
  lemma TrimOfPadded(u: string, t: string, v: string)
    requires AllSpaces(u) && AllSpaces(v) && Trimmed(t)
    ensures Trim(u + t + v) == t
  {
    var s := u + t + v;
    if t == [] {
      assert forall k :: 0 <= k < |s| ==> IsSpace(s[k]) by {
        forall k | 0 <= k < |s| ensures IsSpace(s[k]) {
          if k < |u| { assert s[k] == u[k]; } else { assert s[k] == v[k - |u|]; }
        }
      }
      LeadEndIs(s, 0, |s|);
      TrailStartIs(s, |s|, |s|, |s|);
    } else {
      assert forall k :: 0 <= k < |u| ==> s[k] == u[k];
      assert s[|u|] == t[0];
      LeadEndIs(s, 0, |u|);
      var b := |u| + |t|;
      assert forall k :: b <= k < |s| ==> s[k] == v[k - b];
      assert s[b - 1] == t[|t| - 1];
      TrailStartIs(s, |u|, |s|, b);
      assert s[|u|..b] == t;
    }
  }

  /** What `trim` returns is trimmed, lies inside `s`, and only white space was cut. */
  lemma TrimShape(s: string)
    ensures Trimmed(Trim(s))
    ensures exists a ::
      0 <= a <= a + |Trim(s)| <= |s| && Trim(s) == s[a..a + |Trim(s)|] &&
      AllSpaces(s[..a]) && AllSpaces(s[a + |Trim(s)|..])
  {
    var a := LeadEnd(s, 0);
    var b := TrailStart(s, a, |s|);
    LeadEndStops(s, 0);
    TrailStartStops(s, a, |s|);
    var t := s[a..b];
    assert t == s[a..a + |t|];
    if t != [] {
      assert t[0] == s[a] && t[|t| - 1] == s[b - 1];
    }
    assert forall k :: 0 <= k < a ==> s[..a][k] == s[k];
    assert forall k :: 0 <= k < |s| - b ==> s[b..][k] == s[b + k];
  }

  lemma TrimIdempotent(s: string)
    ensures Trim(Trim(s)) == Trim(s)
  {
    TrimShape(s);
    var t := Trim(s);
    assert [] + t + [] == t;
    TrimOfPadded([], t, []);
  }

  // ----- searching -----

  /** `sep` occurs in `s` at `q`. */
  predicate OccursAt(s: string, sep: string, q: int) {
    0 <= q && q + |sep| <= |s| && s[q..q + |sep|] == sep
  }

  /** `sep` occurs nowhere in `t`. */
  predicate Free(t: string, sep: string) {
    forall q :: 0 <= q <= |t| - |sep| ==> !OccursAt(t, sep, q)
  }

  /** The first occurrence of `sep` in `s` at or after `from`. */
  function FindFrom(s: string, sep: string, from: nat): (r: Option<nat>)
    ensures r.Some? ==> from <= r.value && OccursAt(s, sep, r.value)
    ensures forall q :: from <= q && (r.None? || q < r.value) ==> !OccursAt(s, sep, q)
    decreases |s| - from
  {
    if from + |sep| > |s| then None
    else if s[from..from + |sep|] == sep then Some(from)
    else FindFrom(s, sep, from + 1)
  }

  /** `s.indexOf(c)`: the first position of `c`, or -1. */
  function IndexOf(s: string, c: char): (r: int)
    ensures -1 <= r < |s|
    ensures r >= 0 ==> s[r] == c && forall k :: 0 <= k < r ==> s[k] != c
    ensures r == -1 <==> forall k :: 0 <= k < |s| ==> s[k] != c
  {
    if s == [] then -1
    else if s[0] == c then 0
    else
      var rest := IndexOf(s[1..], c);
      if rest == -1 then -1 else rest + 1
  }

  // ----- split and join -----

  /** `s.split(sep)` for a non-empty separator: the pieces between the occurrences found
      scanning from the left, each occurrence consumed whole. */
  function Split(s: string, sep: string): (parts: seq<string>)
    requires |sep| > 0
    ensures |parts| >= 1
    decreases |s|
  {
    match FindFrom(s, sep, 0)
    case None => [s]
    case Some(q) => [s[..q]] + Split(s[q + |sep|..], sep)
  }

  /** `parts.join(sep)`. */
  function Join(parts: seq<string>, sep: string): string
    decreases |parts|
  {
    if parts == [] then ""
    else if |parts| == 1 then parts[0]
    else parts[0] + sep + Join(parts[1..], sep)
  }

  /** Joining the pieces with the separator gives the string back. */
  lemma {:induction false} JoinSplit(s: string, sep: string)
    requires |sep| > 0
    ensures Join(Split(s, sep), sep) == s
    decreases |s|
  {
    match FindFrom(s, sep, 0)
    case None =>
    case Some(q) =>
      var rest := s[q + |sep|..];
      var pieces := Split(rest, sep);
      JoinSplit(rest, sep);
      assert Split(s, sep) == [s[..q]] + pieces;
      assert ([s[..q]] + pieces)[1..] == pieces;
      assert Join(Split(s, sep), sep) == s[..q] + sep + Join(pieces, sep);
      assert s == s[..q] + s[q..q + |sep|] + rest;
  }

  /** No piece contains the separator. */
  lemma {:induction false} SplitPiecesAreFree(s: string, sep: string)
    requires |sep| > 0
    ensures forall i :: 0 <= i < |Split(s, sep)| ==> Free(Split(s, sep)[i], sep)
    decreases |s|
  {
    match FindFrom(s, sep, 0)
    case None =>
      assert Split(s, sep) == [s];
    case Some(q) =>
      var rest := s[q + |sep|..];
      SplitPiecesAreFree(rest, sep);
      var head := s[..q];
      forall k | 0 <= k <= |head| - |sep|
        ensures !OccursAt(head, sep, k)
      {
        assert !OccursAt(s, sep, k);
        assert head[k..k + |sep|] == s[k..k + |sep|];
      }
      assert Split(s, sep) == [head] + Split(rest, sep);
  }
}
