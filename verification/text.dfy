/**
 * The string primitives the services rely on: substring search
 * (`String.prototype.includes`), lower-casing (`toLowerCase`, ASCII letters
 * only), whitespace trimming (`trim`) and splitting on the separator class
 * `[,;]` (`split(/[,;]/)`).
 */
module Text {

  // ---------------------------------------------------------------------------
  // Substring search
  // ---------------------------------------------------------------------------

  predicate StartsWith(s: string, p: string) {
    |p| <= |s| && s[..|p|] == p
  }

  /** `s.includes(p)`: `p` occurs somewhere in `s`. */
  predicate Contains(s: string, p: string)
    decreases |s|
  {
    StartsWith(s, p) || (|s| > 0 && Contains(s[1..], p))
  }

  /** `p` occurs in `s` starting at index `i`. */
  ghost predicate OccursAt(s: string, p: string, i: int) {
    0 <= i && i + |p| <= |s| && s[i..i + |p|] == p
  }

  /** The recursive search agrees with the positional definition of a substring. */
  lemma {:induction false} ContainsIff(s: string, p: string)
    ensures Contains(s, p) <==> exists i :: OccursAt(s, p, i)
    decreases |s|
  {
    if StartsWith(s, p) {
      assert OccursAt(s, p, 0);
    }
    if |s| > 0 {
      ContainsIff(s[1..], p);
      if Contains(s[1..], p) {
        var j :| OccursAt(s[1..], p, j);
        assert s[1..][j..j + |p|] == s[j + 1..j + 1 + |p|];
        assert OccursAt(s, p, j + 1);
      }
      if i :| OccursAt(s, p, i) {
        if i > 0 {
          assert s[1..][i - 1..i - 1 + |p|] == s[i..i + |p|];
          assert OccursAt(s[1..], p, i - 1);
        } else {
          assert StartsWith(s, p);
        }
      }
    } else {
      if i :| OccursAt(s, p, i) {
        assert StartsWith(s, p);
      }
    }
  }

  /** Substring containment is transitive. */
  lemma ContainsTransitive(s: string, p: string, q: string)
    requires Contains(s, p) && Contains(p, q)
    ensures Contains(s, q)
  {
    ContainsIff(s, p);
    ContainsIff(p, q);
    var i :| OccursAt(s, p, i);
    var j :| OccursAt(p, q, j);
    forall k | 0 <= k < |q| ensures s[i + j + k] == q[k] {
      assert p[j + k] == s[i..i + |p|][j + k];
      assert q[k] == p[j..j + |q|][k];
    }
    assert s[i + j..i + j + |q|] == q;
    assert OccursAt(s, q, i + j);
    ContainsIff(s, q);
  }

  /** A non-empty pattern whose first character never appears in `s` is not found in it. */
  lemma {:induction false} MissingFirstChar(s: string, p: string)
    requires |p| > 0 && p[0] !in s
    ensures !Contains(s, p)
    decreases |s|
  {
    if |s| > 0 {
      assert s == [s[0]] + s[1..];
      MissingFirstChar(s[1..], p);
    }
  }

  // ---------------------------------------------------------------------------
  // Lower-casing
  // ---------------------------------------------------------------------------

  predicate IsUpper(c: char) {
    'A' <= c <= 'Z'
  }

  function LowerChar(c: char): char {
    if IsUpper(c) then (c as int + 32) as char else c
  }

  /** `s.toLowerCase()` restricted to ASCII letters. */
  function Lower(s: string): (r: string)
    ensures |r| == |s|
    ensures forall i :: 0 <= i < |r| ==> !IsUpper(r[i])
    ensures forall i :: 0 <= i < |s| && !IsUpper(s[i]) ==> r[i] == s[i]
    ensures forall i :: 0 <= i < |s| && IsUpper(s[i]) ==> r[i] as int == s[i] as int + 32
  {
    seq(|s|, i requires 0 <= i < |s| => LowerChar(s[i]))
  }

  /** A string with no upper-case letter is its own lower-case form. */
  lemma LowerOfLower(s: string)
    requires forall i :: 0 <= i < |s| ==> !IsUpper(s[i])
    ensures Lower(s) == s
  {
  }

  /** Lower-casing is idempotent. */
  lemma LowerIdempotent(s: string)
    ensures Lower(Lower(s)) == Lower(s)
  {
    LowerOfLower(Lower(s));
  }

  /** A lower-case pattern found in `s` is still found once `s` is lower-cased. */
  lemma ContainsSurvivesLower(s: string, p: string)
    requires Contains(s, p)
    requires forall i :: 0 <= i < |p| ==> !IsUpper(p[i])
    ensures Contains(Lower(s), p)
  {
    ContainsIff(s, p);
    var i :| OccursAt(s, p, i);
    assert Lower(s)[i..i + |p|] == Lower(s[i..i + |p|]);
    LowerOfLower(p);
    assert OccursAt(Lower(s), p, i);
    ContainsIff(Lower(s), p);
  }

  // ---------------------------------------------------------------------------
  // Trimming
  // ---------------------------------------------------------------------------

  /**
   * The characters `trim` removes: the WhiteSpace and LineTerminator
   * productions of ECMAScript (section 12.2 and 12.3 of ECMA-262), with the
   * space separators of Unicode category Zs listed out.
   */
  predicate IsWhitespace(c: char) {
    || c == '\t' || c == '\n' || c == '\U{000B}' || c == '\U{000C}' || c == '\r'
    || c == ' ' || c == '\U{00A0}' || c == '\U{1680}'
    || ('\U{2000}' <= c <= '\U{200A}')
    || c == '\U{2028}' || c == '\U{2029}' || c == '\U{202F}' || c == '\U{205F}'
    || c == '\U{3000}' || c == '\U{FEFF}'
  }

  /** Number of whitespace characters at the start of `s`. */
  function LeadingWhitespace(s: string): (n: nat)
    ensures n <= |s|
    ensures forall i :: 0 <= i < n ==> IsWhitespace(s[i])
    ensures n < |s| ==> !IsWhitespace(s[n])
    decreases |s|
  {
    if |s| > 0 && IsWhitespace(s[0]) then 1 + LeadingWhitespace(s[1..]) else 0
  }

  /** Number of whitespace characters at the end of `s`. */
  function TrailingWhitespace(s: string): (n: nat)
    ensures n <= |s|
    ensures forall i :: |s| - n <= i < |s| ==> IsWhitespace(s[i])
    ensures n < |s| ==> !IsWhitespace(s[|s| - 1 - n])
    decreases |s|
  {
    if |s| > 0 && IsWhitespace(s[|s| - 1]) then 1 + TrailingWhitespace(s[..|s| - 1]) else 0
  }

  /** Neither end of `t` is whitespace. */
  predicate IsTrimmed(t: string) {
    t == [] || (!IsWhitespace(t[0]) && !IsWhitespace(t[|t| - 1]))
  }

  /** `t` is `s[i..j]`, everything cut away is whitespace, and `t` itself is trimmed. */
  ghost predicate IsTrimOf(t: string, s: string) {
    IsTrimmed(t) &&
    exists i, j :: TrimsTo(s, i, j) && t == s[i..j]
  }

  ghost predicate TrimsTo(s: string, i: int, j: int) {
    && 0 <= i <= j <= |s|
    && (forall k :: 0 <= k < i ==> IsWhitespace(s[k]))
    && (forall k :: j <= k < |s| ==> IsWhitespace(s[k]))
  }

  /** `s.trim()`. */
  function Trim(s: string): (t: string)
    ensures IsTrimOf(t, s)
  {
    var i := LeadingWhitespace(s);
    var rest := s[i..];
    var n := TrailingWhitespace(rest);
    assert TrimsTo(s, i, |s| - n) by {
      forall k | |s| - n <= k < |s| ensures IsWhitespace(s[k]) {
        assert s[k] == rest[k - i];
      }
    }
    assert IsTrimmed(s[i..|s| - n]) by {
      if i < |s| - n {
        assert s[i] == rest[0];
        assert s[|s| - n - 1] == rest[|rest| - 1 - n];
      }
    }
    s[i..|s| - n]
  }

  /** The trimmed form is unique: `Trim` is the only string meeting its contract. */
  lemma TrimUnique(s: string, t: string)
    requires IsTrimOf(t, s)
    ensures t == Trim(s)
  {
    var u := Trim(s);
    var i, j :| TrimsTo(s, i, j) && t == s[i..j];
    var i', j' :| TrimsTo(s, i', j') && u == s[i'..j'];
    if t != [] {
      assert t[0] == s[i] && t[|t| - 1] == s[j - 1];
    }
    if u != [] {
      assert u[0] == s[i'] && u[|u| - 1] == s[j' - 1];
    }
  }

  /** Trimming keeps only characters of the original, so a separator-free string stays separator-free. */
  lemma TrimKeepsNoSeparator(s: string)
    ensures HasNoSeparator(s) ==> HasNoSeparator(Trim(s))
  {
    assert IsTrimOf(Trim(s), s);
    var i, j :| TrimsTo(s, i, j) && Trim(s) == s[i..j];
    assert forall k :: 0 <= k < |Trim(s)| ==> Trim(s)[k] == s[i + k];
  }

  // ---------------------------------------------------------------------------
  // Splitting on `[,;]`
  // ---------------------------------------------------------------------------

  predicate IsSeparator(c: char) {
    c == ',' || c == ';'
  }

  predicate HasNoSeparator(s: string) {
    forall i :: 0 <= i < |s| ==> !IsSeparator(s[i])
  }

  /** `s.split(/[,;]/)`: the maximal separator-free runs of `s`, empty ones included. */
  function Split(s: string): (parts: seq<string>)
    ensures |parts| >= 1
    ensures forall i :: 0 <= i < |parts| ==> HasNoSeparator(parts[i])
    decreases |s|
  {
    if |s| == 0 then
      [""]
    else
      var rest := Split(s[1..]);
      if IsSeparator(s[0]) then [""] + rest
      else [[s[0]] + rest[0]] + rest[1..]
  }

  /** A separator-free string is not split at all. */
  lemma {:induction false} SplitPlain(s: string)
    requires HasNoSeparator(s)
    ensures Split(s) == [s]
    decreases |s|
  {
    if |s| > 0 {
      SplitPlain(s[1..]);
      assert [s[0]] + s[1..] == s;
    }
  }

  /** Splitting distributes over a separator: the pieces of `a` come first, then those of `b`. */
  lemma {:induction false} SplitAtSeparator(a: string, c: char, b: string)
    requires IsSeparator(c)
    ensures Split(a + [c] + b) == Split(a) + Split(b)
    decreases |a|
  {
    var s := a + [c] + b;
    if |a| == 0 {
      assert s[1..] == b;
    } else {
      assert s[1..] == a[1..] + [c] + b;
      SplitAtSeparator(a[1..], c, b);
    }
  }
}
