/** String helpers the insight templates need: the decimal rendering of a
    number (what JavaScript's implicit number-to-string conversion produces
    for a non-negative integer) and `String.prototype.replace` with a string
    pattern, which replaces the FIRST occurrence only. */
module Text {

  datatype Option<T> = None | Some(value: T)

  predicate IsDigit(c: char) {
    '0' <= c <= '9'
  }

  predicate AllDigits(s: string) {
    forall i | 0 <= i < |s| :: IsDigit(s[i])
  }

  function DigitChar(d: int): (c: char)
    requires 0 <= d < 10
    ensures IsDigit(c)
  {
    (('0' as int) + d) as char
  }

  function DigitValue(c: char): (d: int)
    requires IsDigit(c)
    ensures 0 <= d < 10
  {
    (c as int) - ('0' as int)
  }

  /** Decimal rendering of `n`, most significant digit first, no leading zero. */
  function Decimal(n: nat): (s: string)
    ensures 1 <= |s|
    ensures AllDigits(s)
    ensures |s| > 1 ==> s[0] != '0'
  {
    if n < 10 then [DigitChar(n)] else Decimal(n / 10) + [DigitChar(n % 10)]
  }

  /** Reads a string of decimal digits back as a number. */
  function ParseDecimal(s: string): nat
    requires AllDigits(s)
  {
    if |s| == 0 then 0
    else ParseDecimal(s[..|s| - 1]) * 10 + DigitValue(s[|s| - 1])
  }

  /** Rendering then reading a number gives the number back, so distinct
      totals are rendered as distinct strings. */
  lemma {:induction false} DecimalRoundTrip(n: nat)
    ensures ParseDecimal(Decimal(n)) == n
  {
    var s := Decimal(n);
    if n >= 10 {
      DecimalRoundTrip(n / 10);
      assert s[..|s| - 1] == Decimal(n / 10);
    }
  }

  /** `p` occurs in `s` starting at index `i`. */
  predicate OccursAt(s: string, p: string, i: int) {
    0 <= i && i + |p| <= |s| && s[i..i + |p|] == p
  }

  predicate Contains(s: string, p: string) {
    exists i | 0 <= i <= |s| :: OccursAt(s, p, i)
  }

  /** The first index at or after `from` where `p` occurs in `s`. */
  function FirstOccurrence(s: string, p: string, from: nat): (r: Option<nat>)
    ensures r.Some? ==> from <= r.value && OccursAt(s, p, r.value)
    ensures r.Some? ==> forall j :: from <= j < r.value ==> !OccursAt(s, p, j)
    ensures r.None? ==> forall j :: from <= j ==> !OccursAt(s, p, j)
    decreases |s| - from
  {
    if from + |p| > |s| then None
    else if s[from..from + |p|] == p then Some(from)
    else FirstOccurrence(s, p, from + 1)
  }

  /** `s.replace(p, rep)`: the first occurrence of `p`, if any, is replaced by
      `rep`; a string without `p` is returned unchanged. */
  function ReplaceFirst(s: string, p: string, rep: string): (r: string)
    ensures !Contains(s, p) ==> r == s
    ensures Contains(s, p) ==> exists i ::
      OccursAt(s, p, i) && (forall j | 0 <= j < i :: !OccursAt(s, p, j))
      && r == s[..i] + rep + s[i + |p|..]
  {
    match FirstOccurrence(s, p, 0)
    case None => s
    case Some(i) => s[..i] + rep + s[i + |p|..]
  }

  /** A string `pre + p + post` whose prefix lacks the first character of `p`
      has its first occurrence of `p` right after the prefix, so replacing it
      yields `pre + rep + post`. */
  lemma ReplaceAfterPlainPrefix(pre: string, p: string, post: string, rep: string)
    requires |p| > 0 && p[0] !in pre
    ensures ReplaceFirst(pre + p + post, p, rep) == pre + rep + post
  {
    var s := pre + p + post;
    assert OccursAt(s, p, |pre|);
    var r := FirstOccurrence(s, p, 0);
    if r.value < |pre| {
      assert false;
    }
    assert s[..|pre|] == pre;
    assert s[|pre| + |p|..] == post;
  }

  /** A string that lacks some character of `p` cannot contain `p`. */
  lemma MissingCharExcludes(s: string, p: string, k: nat)
    requires k < |p| && p[k] !in s
    ensures !Contains(s, p)
  {
    forall i | 0 <= i && i + |p| <= |s| ensures !OccursAt(s, p, i) {
      assert s[i..i + |p|][k] == s[i + k];
      assert s[i + k] in s;
    }
  }
}
