/**
  The order in which unit labels are sorted on a floor. The renderer compares
  labels with `localeCompare(..., { numeric: true })`; this module stands in for
  it with a simplified numeric-aware order: labels made only of decimal digits
  compare by their value and come before every other label, and all other
  labels compare by code point, character by character.
 */
module Labels {

  predicate IsDigit(c: char) {
    '0' <= c <= '9'
  }

  /** A non-empty label made only of decimal digits, such as "12". */
  predicate IsNumeral(s: string) {
    |s| > 0 && forall i :: 0 <= i < |s| ==> IsDigit(s[i])
  }

  function DigitsValue(s: string): nat
    requires forall i :: 0 <= i < |s| ==> IsDigit(s[i])
  {
    if s == [] then 0
    else
      assert IsDigit(s[|s| - 1]);
      10 * DigitsValue(s[..|s| - 1]) + (s[|s| - 1] as int - '0' as int)
  }

  /** Code-point lexicographic order: a prefix comes first. */
  predicate LexLe(a: string, b: string) {
    a == [] || (b != [] && (a[0] < b[0] || (a[0] == b[0] && LexLe(a[1..], b[1..]))))
  }

  /** Label `a` may be placed before label `b`. */
  predicate LabelLe(a: string, b: string) {
    if IsNumeral(a) && IsNumeral(b) then DigitsValue(a) <= DigitsValue(b)
    else if IsNumeral(a) || IsNumeral(b) then IsNumeral(a)
    else LexLe(a, b)
  }

  lemma {:induction false} LexLeTotal(a: string, b: string)
    ensures LexLe(a, b) || LexLe(b, a)
  {
    if a != [] && b != [] && a[0] == b[0] {
      LexLeTotal(a[1..], b[1..]);
    }
  }

  lemma {:induction false} LexLeTransitive(a: string, b: string, c: string)
    requires LexLe(a, b) && LexLe(b, c)
    ensures LexLe(a, c)
  {
    if a != [] && a[0] == b[0] && b[0] == c[0] {
      LexLeTransitive(a[1..], b[1..], c[1..]);
    }
  }

  /** Any two labels are comparable. */
  lemma LabelLeTotal(a: string, b: string)
    ensures LabelLe(a, b) || LabelLe(b, a)
  {
    LexLeTotal(a, b);
  }

  /** The label order never contradicts itself. */
  lemma LabelLeTransitive(a: string, b: string, c: string)
    requires LabelLe(a, b) && LabelLe(b, c)
    ensures LabelLe(a, c)
  {
    if !IsNumeral(a) && !IsNumeral(b) && !IsNumeral(c) {
      LexLeTransitive(a, b, c);
    }
  }

  /** Two illustrative instances of the numeric-aware order: numbered units
      sort by number, not by text ("2" before "10"), and a plain number comes
      before a label with letters. */
  lemma NumericAware()
    ensures LabelLe("2", "10") && !LabelLe("10", "2")
    ensures LabelLe("9", "A1") && !LabelLe("A1", "9")
  {
    assert IsNumeral("2") && IsNumeral("10") && IsNumeral("9");
    assert DigitsValue("1") == 1;
    assert DigitsValue("10") == 10;
    assert !IsNumeral("A1") by { assert !IsDigit("A1"[0]); }
  }
}
