/**
 * The string operations the pipeline applies to category labels: Python's
 * code-point ordering of strings (used by every sort on `commodity` or
 * `state`), and the strip-then-title-case normalisation of labels, restricted to
 * ASCII.
 */
module Text {

  /** Python's whitespace among the ASCII characters (str.isspace). */
  predicate IsSpace(c: char) {
    // space, tab to carriage return (9-13), and the separators 28-31
    c == ' ' || (9 <= c as int <= 13) || (28 <= c as int <= 31)
  }

  predicate IsUpper(c: char) { 'A' <= c <= 'Z' }
  predicate IsLower(c: char) { 'a' <= c <= 'z' }

  /** A cased character: title-casing starts a new word after any other. */
  predicate IsCased(c: char) { IsUpper(c) || IsLower(c) }

  function ToUpper(c: char): (r: char)
    ensures IsCased(r) <==> IsCased(c)
    ensures !IsLower(r)
  {
    if IsLower(c) then (c as int - 32) as char else c
  }

  function ToLower(c: char): (r: char)
    ensures IsCased(r) <==> IsCased(c)
    ensures !IsUpper(r)
  {
    if IsUpper(c) then (c as int + 32) as char else c
  }

  // ---------------------------------------------------------------------
  // Ordering

  /** Python's `<` on str: lexicographic on code points, a proper prefix first. */
  predicate Less(a: string, b: string) {
    if |a| == 0 then |b| > 0
    else if |b| == 0 then false
    else if a[0] != b[0] then a[0] < b[0]
    else Less(a[1..], b[1..])
  }

  predicate LessEq(a: string, b: string) {
    a == b || Less(a, b)
  }

  lemma {:induction false} LessIrreflexive(a: string)
    ensures !Less(a, a)
  {
    if |a| > 0 {
      LessIrreflexive(a[1..]);
    }
  }

  lemma {:induction false} LessTrichotomy(a: string, b: string)
    ensures a == b || Less(a, b) || Less(b, a)
  {
    if |a| > 0 && |b| > 0 && a[0] == b[0] {
      LessTrichotomy(a[1..], b[1..]);
      if a[1..] == b[1..] {
        assert a == [a[0]] + a[1..] && b == [b[0]] + b[1..];
      }
    }
  }

  lemma {:induction false} LessTransitive(a: string, b: string, c: string)
    requires Less(a, b) && Less(b, c)
    ensures Less(a, c)
  {
    if |a| > 0 && a[0] == b[0] && b[0] == c[0] {
      LessTransitive(a[1..], b[1..], c[1..]);
    }
  }

  lemma LessAsymmetric(a: string, b: string)
    requires Less(a, b)
    ensures !Less(b, a)
  {
    if Less(b, a) {
      LessTransitive(a, b, a);
      LessIrreflexive(a);
    }
  }

  // ---------------------------------------------------------------------
  // str.strip()

  /** Number of leading whitespace characters. */
  function LeadingSpaces(s: string): (n: nat)
    ensures n <= |s|
    ensures forall i :: 0 <= i < n ==> IsSpace(s[i])
    ensures n < |s| ==> !IsSpace(s[n])
  {
    if |s| == 0 || !IsSpace(s[0]) then 0 else 1 + LeadingSpaces(s[1..])
  }

  /** Number of trailing whitespace characters. */
  function TrailingSpaces(s: string): (n: nat)
    ensures n <= |s|
    ensures forall i :: |s| - n <= i < |s| ==> IsSpace(s[i])
    ensures n < |s| ==> !IsSpace(s[|s| - n - 1])
  {
    if |s| == 0 || !IsSpace(s[|s| - 1]) then 0 else 1 + TrailingSpaces(s[..|s| - 1])
  }

  /** No whitespace at either end. */
  predicate IsStripped(s: string) {
    |s| == 0 || (!IsSpace(s[0]) && !IsSpace(s[|s| - 1]))
  }

  /**
   * Python's strip: the result is a slice of `s`, what was cut off on either
   * side is all whitespace, and nothing more can be cut.
   */
  function Strip(s: string): (r: string)
    ensures IsStripped(r)
    ensures exists i, j ::
      && 0 <= i <= j <= |s| && r == s[i..j]
      && (forall k :: 0 <= k < i ==> IsSpace(s[k]))
      && (forall k :: j <= k < |s| ==> IsSpace(s[k]))
  {
    var i := LeadingSpaces(s);
    var n := TrailingSpaces(s[i..]);
    TrailingOfSuffix(s, i, n);
    var j := |s| - n;
    StrippedBetween(s, i, j);
    assert 0 <= i <= j <= |s| && s[i..j] == s[i..j];
    s[i..j]
  }

  /** The trailing whitespace of s[i..], seen as positions of `s`. */
  lemma TrailingOfSuffix(s: string, i: nat, n: nat)
    requires i <= |s| && n == TrailingSpaces(s[i..])
    ensures n <= |s| - i
    ensures forall k :: |s| - n <= k < |s| ==> IsSpace(s[k])
    ensures n < |s| - i ==> !IsSpace(s[|s| - n - 1])
  {
    var t := s[i..];
    forall k | |s| - n <= k < |s|
      ensures IsSpace(s[k])
    {
      assert s[k] == t[k - i];
    }
    if n < |t| {
      assert s[|s| - n - 1] == t[|t| - n - 1];
    }
  }

  /** A slice whose end characters are not whitespace is stripped. */
  lemma StrippedBetween(s: string, i: nat, j: nat)
    requires i <= j <= |s|
    requires i < j ==> !IsSpace(s[i]) && !IsSpace(s[j - 1])
    ensures IsStripped(s[i..j])
  {
    if i < j {
      assert s[i..j][0] == s[i] && s[i..j][j - i - 1] == s[j - 1];
    }
  }

  // ---------------------------------------------------------------------
  // str.title()

  /**
   * Title-cases `s` given whether the character before it is cased: a
   * cased character right after another cased one is lowered, any other is
   * raised; uncased characters are copied.
   */
  function TitleFrom(s: string, afterCased: bool): (r: string)
    ensures |r| == |s|
    ensures forall i :: 0 <= i < |s| ==> (IsCased(r[i]) <==> IsCased(s[i]))
    ensures forall i :: 0 <= i < |s| && !IsCased(s[i]) ==> r[i] == s[i]
  {
    if |s| == 0 then []
    else
      var c := if afterCased then ToLower(s[0]) else ToUpper(s[0]);
      [c] + TitleFrom(s[1..], IsCased(s[0]))
  }

  /**
   * Python's title-casing: a cased character is lowered when the character before it
   * is cased and raised otherwise (so at the start of every word).
   */
  function Title(s: string): (r: string)
    ensures |r| == |s|
    ensures forall i :: 0 <= i < |s| ==>
      r[i] == (if i > 0 && IsCased(s[i - 1]) then ToLower(s[i]) else ToUpper(s[i]))
  {
    var r := TitleFrom(s, false);
    forall i | 0 <= i < |s|
      ensures r[i] == (if i > 0 && IsCased(s[i - 1]) then ToLower(s[i]) else ToUpper(s[i]))
    {
      TitleAt(s, false, i);
    }
    r
  }

  /** Title-casing stated character by character. */
  lemma {:induction false} TitleAt(s: string, afterCased: bool, i: int)
    requires 0 <= i < |s|
    ensures TitleFrom(s, afterCased)[i]
         == (if (if i == 0 then afterCased else IsCased(s[i - 1])) then ToLower(s[i]) else ToUpper(s[i]))
  {
    if i > 0 {
      TitleAt(s[1..], IsCased(s[0]), i - 1);
    }
  }

  lemma {:induction false} TitleFromIdempotent(s: string, afterCased: bool)
    ensures TitleFrom(TitleFrom(s, afterCased), afterCased) == TitleFrom(s, afterCased)
  {
    if |s| > 0 {
      var t := TitleFrom(s, afterCased);
      assert t[1..] == TitleFrom(s[1..], IsCased(s[0]));
      TitleFromIdempotent(s[1..], IsCased(s[0]));
      assert IsCased(t[0]) == IsCased(s[0]);
    }
  }

  /** The normalisation applied to `state` and `commodity`: strip, then title-case. */
  function Normalize(s: string): (r: string)
    ensures |r| <= |s|
    ensures IsStripped(r)
  {
    var t := Strip(s);
    var r := Title(t);
    assert |t| > 0 ==> !IsCased(t[0]) ==> r[0] == t[0];
    assert |t| > 0 ==> !IsCased(t[|t| - 1]) ==> r[|t| - 1] == t[|t| - 1];
    r
  }

  lemma StripOfStripped(s: string)
    requires IsStripped(s)
    ensures Strip(s) == s
  {
    assert LeadingSpaces(s) == 0;
    assert TrailingSpaces(s) == 0;
  }

  /** Normalising twice gives the same string as normalising once. */
  lemma NormalizeIdempotent(s: string)
    ensures Normalize(Normalize(s)) == Normalize(s)
  {
    var n := Normalize(s);
    StripOfStripped(n);
    TitleFromIdempotent(Strip(s), false);
  }
}
