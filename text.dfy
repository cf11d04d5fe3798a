/**
 * The few Swift string operations the daemon and its menu-bar client rely on,
 * stated over `seq<char>` (one `char` per Unicode scalar):
 * `String.contains`, `hasPrefix`, `split(separator:)` with its default of
 * omitting empty pieces, `trimmingCharacters(in: .whitespacesAndNewlines)`
 * and the decimal rendering `String(UInt32)`.
 */
module Text {
  import opened Wrappers

  // ---------------------------------------------------------------------------
  // Substrings and prefixes
  // ---------------------------------------------------------------------------

  /** `sub` occurs in `s` starting at position `i`. */
  ghost predicate OccursAt(s: string, sub: string, i: int)
  {
    0 <= i && i + |sub| <= |s| && s[i..i + |sub|] == sub
  }

  /** Swift's `s.contains(sub)`: `sub` is a contiguous piece of `s`. */
  predicate HasInfix(s: string, sub: string)
    decreases |s|
  {
    |sub| <= |s| && (s[..|sub|] == sub || (|s| > 0 && HasInfix(s[1..], sub)))
  }

  /** The scan above finds `sub` exactly when it occurs somewhere in `s`. */
  lemma {:induction false} HasInfixIff(s: string, sub: string)
    ensures HasInfix(s, sub) <==> exists i :: OccursAt(s, sub, i)
    decreases |s|
  {
    if HasInfix(s, sub) {
      if s[..|sub|] == sub {
        assert OccursAt(s, sub, 0);
      } else {
        HasInfixIff(s[1..], sub);
        var j :| OccursAt(s[1..], sub, j);
        assert s[1..][j..j + |sub|] == s[j + 1..j + 1 + |sub|];
        assert OccursAt(s, sub, j + 1);
      }
    }
    if exists i :: OccursAt(s, sub, i) {
      var i :| OccursAt(s, sub, i);
      if i == 0 {
        assert s[..|sub|] == sub;
      } else {
        assert s[1..][i - 1..i - 1 + |sub|] == s[i..i + |sub|];
        assert OccursAt(s[1..], sub, i - 1);
        HasInfixIff(s[1..], sub);
      }
    }
  }

  /** Swift's `s.hasPrefix(p)`. */
  predicate HasPrefix(s: string, p: string)
  {
    |p| <= |s| && s[..|p|] == p
  }

  /** `hasPrefix` holds exactly when `s` is `p` followed by something. */
  lemma HasPrefixIff(s: string, p: string)
    ensures HasPrefix(s, p) <==> exists rest :: s == p + rest
  {
    if HasPrefix(s, p) {
      assert s == p + s[|p|..];
    }
  }

  // ---------------------------------------------------------------------------
  // Splitting on one separator character, empty pieces omitted
  // ---------------------------------------------------------------------------

  /** Length of the longest prefix of `s` free of `sep`. */
  function RunLength(s: string, sep: char): (n: nat)
    ensures n <= |s|
    ensures forall i :: 0 <= i < n ==> s[i] != sep
    ensures n < |s| ==> s[n] == sep
  {
    if s == [] || s[0] == sep then 0 else 1 + RunLength(s[1..], sep)
  }

  /**
   * Swift's `s.split(separator: sep)`: the maximal runs of characters other
   * than `sep`, in order; empty runs (between two adjacent separators, or at
   * either end) are dropped.
   */
  function Split(s: string, sep: char): (pieces: seq<string>)
    ensures |pieces| <= |s|
    ensures forall k :: 0 <= k < |pieces| ==> pieces[k] != [] && sep !in pieces[k]
    decreases |s|
  {
    if s == [] then []
    else if s[0] == sep then Split(s[1..], sep)
    else
      var n := RunLength(s, sep);
      [s[..n]] + Split(s[n..], sep)
  }

  /** The pieces joined back with one separator between neighbours. */
  function Join(pieces: seq<string>, sep: char): string
  {
    if |pieces| == 0 then []
    else if |pieces| == 1 then pieces[0]
    else pieces[0] + [sep] + Join(pieces[1..], sep)
  }

  /** Every piece is separator-free and non-empty: the shape `Split` produces. */
  ghost predicate ProperPieces(pieces: seq<string>, sep: char)
  {
    forall k :: 0 <= k < |pieces| ==> pieces[k] != [] && sep !in pieces[k]
  }

  /** A separator-free run followed by a separator (or the end) is one piece. */
  lemma SplitRun(p: string, rest: string, sep: char)
    requires p != [] && sep !in p
    requires rest == [] || rest[0] == sep
    ensures Split(p + rest, sep) == [p] + Split(rest, sep)
  {
    var s := p + rest;
    var n := RunLength(s, sep);
    assert forall i :: 0 <= i < |p| ==> s[i] == p[i];
    assert rest != [] ==> s[|p|] == rest[0];
    assert n == |p|;
    assert s[..n] == p && s[n..] == rest;
  }

  /** A leading separator is dropped. */
  lemma SplitSkipsSeparator(rest: string, sep: char)
    ensures Split([sep] + rest, sep) == Split(rest, sep)
  {
    assert ([sep] + rest)[1..] == rest;
  }

  /** Splitting undoes joining, for pieces of the shape `Split` produces. */
  lemma {:induction false} SplitJoin(pieces: seq<string>, sep: char)
    requires ProperPieces(pieces, sep)
    ensures Split(Join(pieces, sep), sep) == pieces
    decreases |pieces|
  {
    if |pieces| == 0 {
    } else if |pieces| == 1 {
      SplitRun(pieces[0], [], sep);
      assert pieces[0] + [] == pieces[0];
    } else {
      var rest := Join(pieces[1..], sep);
      assert pieces[0] + [sep] + rest == pieces[0] + ([sep] + rest);
      SplitRun(pieces[0], [sep] + rest, sep);
      SplitSkipsSeparator(rest, sep);
      SplitJoin(pieces[1..], sep);
      assert [pieces[0]] + pieces[1..] == pieces;
    }
  }

  /** No piece holds a character the input lacks. */
  lemma {:induction false} SplitExcludes(s: string, sep: char, c: char)
    requires c !in s
    ensures forall k :: 0 <= k < |Split(s, sep)| ==> c !in Split(s, sep)[k]
    decreases |s|
  {
    if s == [] {
    } else if s[0] == sep {
      assert forall x :: x in s[1..] ==> x in s;
      SplitExcludes(s[1..], sep, c);
    } else {
      var n := RunLength(s, sep);
      assert forall x :: x in s[..n] ==> x in s;
      assert forall x :: x in s[n..] ==> x in s;
      SplitExcludes(s[n..], sep, c);
      var pieces := Split(s, sep);
      assert pieces == [s[..n]] + Split(s[n..], sep);
      forall k | 0 <= k < |pieces|
        ensures c !in pieces[k]
      {
        if k > 0 {
          assert pieces[k] == Split(s[n..], sep)[k - 1];
        }
      }
    }
  }

  // ---------------------------------------------------------------------------
  // Trimming whitespace and newlines
  // ---------------------------------------------------------------------------

  /**
   * Membership in Foundation's `CharacterSet.whitespacesAndNewlines`: the
   * Unicode space separators (U+0020, U+00A0, U+1680, U+2000..U+200A, U+202F,
   * U+205F, U+3000), the line and paragraph separators U+2028 and U+2029,
   * and the controls U+0009..U+000D and U+0085.
   */
  predicate IsSpace(c: char)
  {
    || c == ' '
    || ('\t' <= c <= '\r')
    || c == '\U{0085}'
    || c == '\U{00A0}'
    || c == '\U{1680}'
    || ('\U{2000}' <= c <= '\U{200A}')
    || c == '\U{2028}'
    || c == '\U{2029}'
    || c == '\U{202F}'
    || c == '\U{205F}'
    || c == '\U{3000}'
  }

  ghost predicate AllSpace(s: string)
  {
    forall i :: 0 <= i < |s| ==> IsSpace(s[i])
  }

  /** No whitespace at either end. */
  ghost predicate Trimmed(s: string)
  {
    s == [] || (!IsSpace(s[0]) && !IsSpace(s[|s| - 1]))
  }

  /** The number of whitespace characters `s` starts with. */
  function LeadingSpaces(s: string): (n: nat)
    ensures n <= |s|
    ensures forall i :: 0 <= i < n ==> IsSpace(s[i])
    ensures n < |s| ==> !IsSpace(s[n])
  {
    if s != [] && IsSpace(s[0]) then 1 + LeadingSpaces(s[1..]) else 0
  }

  /** The number of whitespace characters `s` ends with. */
  function TrailingSpaces(s: string): (n: nat)
    ensures n <= |s|
    ensures forall i :: |s| - n <= i < |s| ==> IsSpace(s[i])
    ensures n < |s| ==> !IsSpace(s[|s| - 1 - n])
  {
    if s != [] && IsSpace(s[|s| - 1]) then 1 + TrailingSpaces(s[..|s| - 1]) else 0
  }

  /** Swift's `s.trimmingCharacters(in: .whitespacesAndNewlines)`. */
  function Trim(s: string): (r: string)
    ensures Trimmed(r)
  {
    var t := s[LeadingSpaces(s)..];
    t[..|t| - TrailingSpaces(t)]
  }

  /** Trimming keeps a contiguous piece of `s` and removes only whitespace around it. */
  lemma TrimShape(s: string) returns (i: nat)
    ensures i + |Trim(s)| <= |s| && s[i..i + |Trim(s)|] == Trim(s)
    ensures AllSpace(s[..i]) && AllSpace(s[i + |Trim(s)|..])
  {
    i := LeadingSpaces(s);
    var t := s[i..];
    var r := Trim(s);
    assert r == t[..|t| - TrailingSpaces(t)];
    assert s[i..i + |r|] == r;
    assert forall j :: i + |r| <= j < |s| ==> s[j] == t[j - i];
  }

  /** Whitespace in front of a string that does not start with whitespace is exactly what is trimmed. */
  lemma LeadingSpacesPadded(a: string, t: string)
    requires AllSpace(a)
    requires t == [] || !IsSpace(t[0])
    ensures LeadingSpaces(a + t) == |a|
  {
    assert forall i :: 0 <= i < |a| ==> (a + t)[i] == a[i];
    assert t != [] ==> (a + t)[|a|] == t[0];
  }

  /** Whitespace after a string that does not end with whitespace is exactly what is trimmed. */
  lemma TrailingSpacesPadded(t: string, b: string)
    requires AllSpace(b)
    requires t == [] || !IsSpace(t[|t| - 1])
    ensures TrailingSpaces(t + b) == |b|
  {
    var s := t + b;
    assert forall i :: 0 <= i < |b| ==> s[|t| + i] == b[i];
    assert t != [] ==> s[|t| - 1] == t[|t| - 1];
  }

  /** Trimming removes exactly the surrounding whitespace. */
  lemma TrimPadded(a: string, t: string, b: string)
    requires AllSpace(a) && AllSpace(b) && Trimmed(t)
    ensures Trim(a + t + b) == t
  {
    var s := a + t + b;
    if t == [] {
      assert AllSpace(a + b) by {
        assert forall i :: 0 <= i < |a + b| ==> (a + b)[i] == if i < |a| then a[i] else b[i - |a|];
      }
      assert s == (a + b) + t;
      LeadingSpacesPadded(a + b, t);
    } else {
      assert s == a + (t + b);
      LeadingSpacesPadded(a, t + b);
      assert s[|a|..] == t + b;
      TrailingSpacesPadded(t, b);
    }
  }

  // ---------------------------------------------------------------------------
  // Decimal numerals
  // ---------------------------------------------------------------------------

  predicate IsDigit(c: char)
  {
    '0' <= c <= '9'
  }

  ghost predicate AllDigits(s: string)
  {
    forall i :: 0 <= i < |s| ==> IsDigit(s[i])
  }

  function DigitChar(d: nat): (c: char)
    requires d < 10
    ensures IsDigit(c) && c as int == '0' as int + d
  {
    ('0' as int + d) as char
  }

  function DigitValue(c: char): (d: nat)
    requires IsDigit(c)
    ensures d < 10 && DigitChar(d) == c
  {
    c as int - '0' as int
  }

  /** Swift's `String(n)` for an unsigned integer: base ten, no sign, no leading zeros. */
  function Decimal(n: nat): (s: string)
    ensures |s| >= 1 && AllDigits(s)
    ensures (s[0] == '0') <==> n == 0
  {
    if n < 10 then [DigitChar(n)] else Decimal(n / 10) + [DigitChar(n % 10)]
  }

  /** The number a non-empty digit string denotes. */
  function DecimalValue(s: string): nat
    requires AllDigits(s)
  {
    if s == [] then 0 else 10 * DecimalValue(s[..|s| - 1]) + DigitValue(s[|s| - 1])
  }

  /** Reading a decimal numeral back; `None` for an empty or non-numeric string. */
  function ParseDecimal(s: string): (r: Option<nat>)
    ensures r.Some? <==> s != [] && AllDigits(s)
  {
    if s != [] && forall i | 0 <= i < |s| :: IsDigit(s[i]) then Some(DecimalValue(s)) else None
  }

  /** `Decimal` is undone by `ParseDecimal`, so distinct numbers render distinctly. */
  lemma {:induction false} DecimalRoundTrip(n: nat)
    ensures ParseDecimal(Decimal(n)) == Some(n)
    decreases n
  {
    var s := Decimal(n);
    if n < 10 {
      assert s == [DigitChar(n)] && s[..0] == [];
      assert DecimalValue(s) == 10 * DecimalValue([]) + DigitValue(DigitChar(n));
    } else {
      DecimalRoundTrip(n / 10);
      assert s[..|s| - 1] == Decimal(n / 10);
      assert s[|s| - 1] == DigitChar(n % 10);
    }
  }
}
