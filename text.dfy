/**
 * The few pieces of Rust's text formatting the exports rely on: decimal rendering of
 * integers (`Display for u64/i32`), `str::lines` and `join`.
 */
module Text {

  function DigitChar(d: nat): (c: char)
    requires d < 10
    ensures '0' <= c <= '9'
  {
    ['0', '1', '2', '3', '4', '5', '6', '7', '8', '9'][d]
  }

  /** Decimal digits of n, most significant first, no leading zeros. */
  function NatToString(n: nat): (s: string)
    ensures |s| > 0
    ensures forall i :: 0 <= i < |s| ==> '0' <= s[i] <= '9'
    decreases n
  {
    if n < 10 then [DigitChar(n)] else NatToString(n / 10) + [DigitChar(n % 10)]
  }

  /** Different numbers are written differently. */
  lemma {:induction false} NatToStringInjective(m: nat, n: nat)
    requires NatToString(m) == NatToString(n)
    ensures m == n
    decreases m
  {
    var s := NatToString(m);
    if m >= 10 && n >= 10 {
      assert s[..|s| - 1] == NatToString(m / 10) == NatToString(n / 10);
      NatToStringInjective(m / 10, n / 10);
      DigitCharInjective(m % 10, n % 10);
    } else if m < 10 && n < 10 {
      DigitCharInjective(m, n);
    }
  }

  lemma DigitCharInjective(a: nat, b: nat)
    requires a < 10 && b < 10 && DigitChar(a) == DigitChar(b)
    ensures a == b
  {
  }

  /** Text made of decimal digits only. */
  predicate AllDigits(s: string)
  {
    forall i :: 0 <= i < |s| ==> '0' <= s[i] <= '9'
  }

  /**
   * Two texts that each start with digits followed by the same non-digit separator
   * agree on the digits and on what follows the separator.
   */
  lemma DigitsThen(x: string, y: string, x2: string, y2: string, sep: char)
    requires AllDigits(x) && AllDigits(x2) && !('0' <= sep <= '9')
    requires x + [sep] + y == x2 + [sep] + y2
    ensures x == x2 && y == y2
  {
    var s := x + [sep] + y;
    var s2 := x2 + [sep] + y2;
    DigitsBefore(x, y, sep);
    DigitsBefore(x2, y2, sep);
    assert |x| == |x2|;
    assert x == s[..|x|] && x2 == s2[..|x|];
    assert y == s[|x| + 1..] && y2 == s2[|x| + 1..];
  }

  /** In digits followed by a non-digit, the first non-digit is the separator. */
  lemma DigitsBefore(x: string, y: string, sep: char)
    requires AllDigits(x) && !('0' <= sep <= '9')
    ensures forall i :: 0 <= i < |x| ==> '0' <= (x + [sep] + y)[i] <= '9'
    ensures (x + [sep] + y)[|x|] == sep
  {
  }

  /** The parts joined with the separator between neighbours. */
  function Join(parts: seq<string>, sep: string): string
  {
    if |parts| == 0 then ""
    else if |parts| == 1 then parts[0]
    else parts[0] + sep + Join(parts[1..], sep)
  }

  /**
   * `str::lines` for text without carriage returns: the pieces between line feeds,
   * where a final line feed does not start another (empty) line.
   */
  function Lines(s: string): seq<string>
  {
    if s == "" then [] else SplitLines(s, "")
  }

  function SplitLines(s: string, current: string): seq<string>
    decreases |s|
  {
    if s == "" then [current]
    else if s[0] == '\n' then
      if |s| == 1 then [current] else [current] + SplitLines(s[1..], "")
    else SplitLines(s[1..], current + [s[0]])
  }
  /**
   * The derived order of `String`: lexicographic by character, a proper prefix before
   * any longer string that extends it.  Comparing UTF-8 bytes, as Rust does, orders
   * strings the same way as comparing their characters' code points.
   */
  predicate LexLess(a: string, b: string)
  {
    b != [] && (a == [] || a[0] < b[0] || (a[0] == b[0] && LexLess(a[1..], b[1..])))
  }

  /**
   * a and b agree on their first k characters, and there a ends while b goes on, or a's
   * character is the smaller: the textbook definition of a coming first.
   */
  ghost predicate DiffersAt(a: string, b: string, k: nat)
  {
    k <= |a| && k < |b| && a[..k] == b[..k] && (k == |a| || a[k] < b[k])
  }

  /** LexLess is the textbook lexicographic order: a comes first at the first place they differ. */
  lemma {:induction false} LexLessIff(a: string, b: string)
    ensures LexLess(a, b) <==> exists k: nat :: DiffersAt(a, b, k)
  {
    if LexLess(a, b) {
      if a == [] || a[0] < b[0] {
        assert DiffersAt(a, b, 0);
      } else {
        LexLessIff(a[1..], b[1..]);
        var k: nat :| DiffersAt(a[1..], b[1..], k);
        assert a[..k + 1] == [a[0]] + a[1..][..k];
        assert b[..k + 1] == [b[0]] + b[1..][..k];
        assert DiffersAt(a, b, k + 1);
      }
    }
    if k: nat :| DiffersAt(a, b, k) {
      if k > 0 {
        assert a[0] == a[..k][0] == b[..k][0] == b[0];
        assert a[1..][..k - 1] == a[..k][1..] && b[1..][..k - 1] == b[..k][1..];
        assert DiffersAt(a[1..], b[1..], k - 1);
        LexLessIff(a[1..], b[1..]);
      }
    }
  }

  lemma {:induction false} LexIrreflexive(a: string)
    ensures !LexLess(a, a)
  {
    if a != [] {
      LexIrreflexive(a[1..]);
    }
  }

  lemma {:induction false} LexTransitive(a: string, b: string, c: string)
    requires LexLess(a, b) && LexLess(b, c)
    ensures LexLess(a, c)
  {
    if a != [] && a[0] == b[0] && b[0] == c[0] {
      LexTransitive(a[1..], b[1..], c[1..]);
    }
  }

  /** Any two different strings are ordered one way or the other, and not both. */
  lemma {:induction false} LexTotal(a: string, b: string)
    ensures a == b || LexLess(a, b) || LexLess(b, a)
    ensures !(LexLess(a, b) && LexLess(b, a))
  {
    if a != [] && b != [] && a[0] == b[0] {
      LexTotal(a[1..], b[1..]);
      if a[1..] == b[1..] {
        assert a == [a[0]] + a[1..] && b == [b[0]] + b[1..];
      }
    }
  }
}
