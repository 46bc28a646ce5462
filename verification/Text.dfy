/** The Python string operations the quiz engine relies on. */
module Text {

  /** Whitespace in the sense of `str.strip`. */
  predicate IsSpace(c: char) {
    var code := c as int;
    || 0x09 <= code <= 0x0D || 0x1C <= code <= 0x20 || code == 0x85 || code == 0xA0 || code == 0x1680
    || 0x2000 <= code <= 0x200A || code == 0x2028 || code == 0x2029 || code == 0x202F || code == 0x205F
    || code == 0x3000
  }

  /** The first position from `i` on that holds no space. */
  function Leading(s: string, i: nat): (first: nat)
    requires i <= |s|
    ensures i <= first <= |s|
    decreases |s| - i
  {
    if i < |s| && IsSpace(s[i]) then Leading(s, i + 1) else i
  }

  /** The end of `s[lo..hi]` without its trailing spaces. */
  function Trailing(s: string, lo: nat, hi: nat): (end: nat)
    requires lo <= hi <= |s|
    ensures lo <= end <= hi
  {
    if lo < hi && IsSpace(s[hi - 1]) then Trailing(s, lo, hi - 1) else hi
  }

  function Strip(s: string): string {
    var lo := Leading(s, 0);
    s[lo..Trailing(s, lo, |s|)]
  }

  /** The first `n` characters, as the slice `s[:n]` takes them. */
  function Truncate(s: string, n: nat): string {
    if |s| <= n then s else s[..n]
  }

  predicate Stripped(s: string) {
    s == "" || (!IsSpace(s[0]) && !IsSpace(s[|s| - 1]))
  }

  lemma {:induction false} LeadingStops(s: string, i: nat)
    requires i <= |s|
    ensures Leading(s, i) < |s| ==> !IsSpace(s[Leading(s, i)])
    decreases |s| - i
  {
    if i < |s| && IsSpace(s[i]) {
      LeadingStops(s, i + 1);
    }
  }

  lemma {:induction false} TrailingStops(s: string, lo: nat, hi: nat)
    requires lo <= hi <= |s|
    ensures lo < Trailing(s, lo, hi) ==> !IsSpace(s[Trailing(s, lo, hi) - 1])
    ensures lo < hi && !IsSpace(s[lo]) ==> lo < Trailing(s, lo, hi)
    decreases hi
  {
    if lo < hi && IsSpace(s[hi - 1]) {
      TrailingStops(s, lo, hi - 1);
    }
  }

  /** Stripping leaves no space at either end, and changes nothing exactly when there was none. */
  lemma StripStrips(s: string)
    ensures Stripped(Strip(s))
    ensures Strip(s) == s <==> Stripped(s)
  {
    var lo := Leading(s, 0);
    LeadingStops(s, 0);
    TrailingStops(s, lo, |s|);
    if Stripped(s) && s != "" {
      assert lo == 0 && Trailing(s, 0, |s|) == |s|;
    }
  }

  predicate AllSpaces(s: string) {
    forall i :: 0 <= i < |s| ==> IsSpace(s[i])
  }

  lemma {:induction false} LeadingSkipsSpaces(s: string, i: nat)
    requires i <= |s|
    ensures forall k :: i <= k < Leading(s, i) ==> IsSpace(s[k])
    decreases |s| - i
  {
    if i < |s| && IsSpace(s[i]) {
      LeadingSkipsSpaces(s, i + 1);
    }
  }

  lemma {:induction false} TrailingSkipsSpaces(s: string, lo: nat, hi: nat)
    requires lo <= hi <= |s|
    ensures forall k :: Trailing(s, lo, hi) <= k < hi ==> IsSpace(s[k])
    decreases hi
  {
    if lo < hi && IsSpace(s[hi - 1]) {
      TrailingSkipsSpaces(s, lo, hi - 1);
    }
  }

  /** Stripping takes spaces away from both ends and nothing else. */
  lemma StripTakesOnlySpaces(s: string)
    ensures exists before, after :: s == before + Strip(s) + after && AllSpaces(before) && AllSpaces(after)
  {
    var lo := Leading(s, 0);
    var hi := Trailing(s, lo, |s|);
    LeadingSkipsSpaces(s, 0);
    TrailingSkipsSpaces(s, lo, |s|);
    assert s == s[..lo] + Strip(s) + s[hi..] && AllSpaces(s[..lo]) && AllSpaces(s[hi..]);
  }

  lemma StripTwice(s: string)
    ensures Strip(Strip(s)) == Strip(s)
  {
    StripStrips(s);
    StripStrips(Strip(s));
  }

  function Digit(d: nat): char
    requires d < 10
  {
    "0123456789"[d]
  }

  /** The number that a text of digits stands for. */
  function NumberOf(digits: string): nat
    requires forall i :: 0 <= i < |digits| ==> '0' <= digits[i] <= '9'
  {
    if digits == "" then 0
    else 10 * NumberOf(digits[..|digits| - 1]) + (digits[|digits| - 1] as int - '0' as int)
  }

  lemma DigitReads(d: nat)
    requires d < 10
    ensures '0' <= Digit(d) <= '9' && Digit(d) as int - '0' as int == d
  {
  }

  /** Decimal notation can be read back, so different numbers are written differently. */
  lemma {:induction false} DecimalReadsBack(n: nat)
    ensures NumberOf(Decimal(n)) == n
    decreases n
  {
    DigitReads(n % 10);
    var s := Decimal(n);
    if n < 10 {
      assert s[..0] == "";
    } else {
      DecimalReadsBack(n / 10);
      assert s[..|s| - 1] == Decimal(n / 10);
    }
  }

  function Decimal(n: nat): (s: string)
    ensures s != "" && forall i :: 0 <= i < |s| ==> '0' <= s[i] <= '9'
  {
    if n < 10 then [Digit(n)] else Decimal(n / 10) + [Digit(n % 10)]
  }
}
