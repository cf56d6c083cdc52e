/**
 * The string built-ins of JavaScript that the core relies on, written out over ASCII:
 * `trim`, the regex classes `\s` and `[0-9]`, `Number.prototype.toString()` on a
 * non-negative integer, `slice(-k)` and `split(' ')`.
 */
module Text {

  /** ASCII members of the regex class `\s` (also what `trim` removes). */
  predicate IsSpace(c: char) {
    c == ' ' || c == '\t' || c == '\n' || c == '\r' || c == 11 as char || c == 12 as char
  }

  predicate IsDigit(c: char) {
    '0' <= c <= '9'
  }

  /** Every character is white space: `s.trim()` is falsy. */
  predicate IsBlank(s: string) {
    forall i :: 0 <= i < |s| ==> IsSpace(s[i])
  }

  predicate AllDigits(s: string) {
    forall i :: 0 <= i < |s| ==> IsDigit(s[i])
  }

  /** The regex `/^[0-9]{n}$/`: exactly `n` ASCII digits and nothing else. */
  predicate DigitsOfLength(s: string, n: nat) {
    |s| == n && AllDigits(s)
  }

  // ---------------------------------------------------------------------------
  // trim

  /** Past a leading space, a string is blank exactly when its rest is. */
  lemma BlankTail(s: string)
    requires s != "" && IsSpace(s[0])
    ensures IsBlank(s) <==> IsBlank(s[1..])
  {
    if IsBlank(s[1..]) {
      forall i | 0 < i < |s|
        ensures IsSpace(s[i])
      {
        assert s[i] == s[1..][i - 1];
      }
    }
  }

  /** Before a trailing space, a string is blank exactly when its front is. */
  lemma BlankFront(s: string)
    requires s != "" && IsSpace(s[|s| - 1])
    ensures IsBlank(s) <==> IsBlank(s[..|s| - 1])
  {
    if IsBlank(s[..|s| - 1]) {
      forall i | 0 <= i < |s| - 1
        ensures IsSpace(s[i])
      {
        assert s[i] == s[..|s| - 1][i];
      }
    }
  }

  /** `s.trimStart()`: the leading white space removed. */
  function TrimStart(s: string): (r: string)
    ensures r == "" <==> IsBlank(s)
    ensures r != "" ==> !IsSpace(r[0]) && r[|r| - 1] == s[|s| - 1]
  {
    if s != "" && IsSpace(s[0]) then
      BlankTail(s);
      TrimStart(s[1..])
    else s
  }

  /** `s.trimEnd()`: the trailing white space removed. */
  function TrimEnd(s: string): (r: string)
    ensures r == "" <==> IsBlank(s)
    ensures r != "" ==> !IsSpace(r[|r| - 1]) && r[0] == s[0]
  {
    if s != "" && IsSpace(s[|s| - 1]) then
      BlankFront(s);
      TrimEnd(s[..|s| - 1])
    else s
  }

  /** `s.trim()`: `s` without its leading and trailing white space. */
  function Trim(s: string): (r: string)
    ensures r != "" ==> !IsSpace(r[0]) && !IsSpace(r[|r| - 1])
    ensures r == "" <==> IsBlank(s)
  {
    var t := TrimStart(s);
    var r := TrimEnd(t);
    assert r != "" ==> r[0] == t[0];
    r
  }

  // ---------------------------------------------------------------------------
  // `length`: UTF-16 code units

  /** How many UTF-16 code units encode `c`: two for a character outside the Basic Multilingual Plane. */
  function CodeUnits(c: char): nat {
    if c as int > 0xFFFF then 2 else 1
  }

  /** JavaScript's `s.length`, which counts UTF-16 code units rather than characters. */
  function JsLength(s: string): (n: nat)
    ensures |s| <= n <= 2 * |s|
  {
    if s == "" then 0 else CodeUnits(s[0]) + JsLength(s[1..])
  }

  /** On text inside the Basic Multilingual Plane, `length` is the number of characters. */
  lemma {:induction false} JsLengthBmp(s: string)
    requires forall i :: 0 <= i < |s| ==> s[i] as int <= 0xFFFF
    ensures JsLength(s) == |s|
  {
    if s != "" {
      JsLengthBmp(s[1..]);
    }
  }

  /** Three mathematical script letters have a `length` of six, though they are three characters. */
  lemma AstralLength()
    ensures JsLength("\U{1D49C}\U{1D49C}\U{1D49C}") == 6
  {
  }

  // ---------------------------------------------------------------------------
  // Decimal notation of a non-negative integer

  function Pow10(k: nat): (p: nat)
    ensures p >= 1
  {
    if k == 0 then 1 else 10 * Pow10(k - 1)
  }

  function DigitChar(d: nat): (c: char)
    requires d < 10
    ensures IsDigit(c)
  {
    ('0' as int + d) as char
  }

  /** `n.toString()` for a non-negative integer: its decimal digits, without leading zeros. */
  function Decimal(n: nat): (r: string)
    ensures |r| >= 1 && AllDigits(r)
    decreases n
  {
    if n < 10 then [DigitChar(n)] else Decimal(n / 10) + [DigitChar(n % 10)]
  }

  /** The number a string of decimal digits denotes (leading zeros allowed). */
  function DigitsValue(s: string): int {
    if s == "" then 0 else DigitsValue(s[..|s| - 1]) * 10 + (s[|s| - 1] as int - '0' as int)
  }

  /** `s.slice(-k)` for `k > 0`: the last `k` characters, or all of `s` when it is shorter. */
  function LastChars(s: string, k: nat): (r: string)
    ensures |r| == if |s| < k then |s| else k
  {
    if |s| < k then s else s[|s| - k..]
  }

  lemma MulSmall(d: int, x: int)
    requires d > 0 && -d < d * x < d
    ensures x == 0
  {
  }

  /** Quotient and remainder are unique: `n == d * q + r` with `0 <= r < d` fixes `n % d`. */
  lemma ModUnique(n: int, d: int, q: int, r: int)
    requires d > 0 && 0 <= r < d && n == d * q + r
    ensures n % d == r
  {
    var q2, r2 := n / d, n % d;
    assert d * (q - q2) == r2 - r;
    MulSmall(d, q - q2);
  }

  lemma ModStep(n: nat, m: nat)
    requires m >= 1
    ensures ((n / 10) % m) * 10 + n % 10 == n % (10 * m)
  {
    var q, r := n / 10, n % 10;
    var a, b := q / m, q % m;
    assert n == 10 * q + r;
    assert q == m * a + b;
    assert n == (10 * m) * a + (10 * b + r);
    ModUnique(n, 10 * m, a, 10 * b + r);
  }

  lemma DigitsValueSnoc(t: string, c: char)
    requires AllDigits(t) && IsDigit(c)
    ensures AllDigits(t + [c])
    ensures DigitsValue(t + [c]) == DigitsValue(t) * 10 + (c as int - '0' as int)
  {
    assert (t + [c])[..|t|] == t;
  }

  lemma LastCharsSnoc(p: string, c: char, k: nat)
    requires k >= 1
    ensures LastChars(p + [c], k) == LastChars(p, k - 1) + [c]
  {
    if |p| + 1 >= k {
      assert (p + [c])[|p| + 1 - k..] == p[|p| - (k - 1)..] + [c];
    }
  }

  /** The last `k` decimal digits of `n`, as a number. */
  function LowDigits(n: nat, k: nat): nat {
    if k == 0 then 0 else LowDigits(n / 10, k - 1) * 10 + n % 10
  }

  /** `LowDigits` is the remainder modulo `10^k`. */
  lemma {:induction false} LowDigitsIsMod(n: nat, k: nat)
    ensures LowDigits(n, k) == n % Pow10(k)
  {
    if k > 0 {
      LowDigitsIsMod(n / 10, k - 1);
      ModStep(n, Pow10(k - 1));
    }
  }

  /** The last digit of `n.toString()` is `n % 10`, after the digits of `n / 10`. */
  lemma DecimalSnoc(n: nat)
    requires n >= 10
    ensures Decimal(n) == Decimal(n / 10) + [DigitChar(n % 10)]
  {
  }

  lemma DigitCharValue(d: nat)
    requires d < 10
    ensures DigitChar(d) as int - '0' as int == d
  {
  }

  /** A suffix of a digit string is a digit string. */
  lemma LastCharsDigits(s: string, k: nat)
    requires AllDigits(s)
    ensures AllDigits(LastChars(s, k))
  {
    if |s| >= k {
      var r := s[|s| - k..];
      forall i | 0 <= i < |r|
        ensures IsDigit(r[i])
      {
        assert r[i] == s[|s| - k + i];
      }
    }
  }

  lemma LowDigitsSnoc(n: nat, k: nat)
    requires k >= 1
    ensures LowDigits(n, k) == LowDigits(n / 10, k - 1) * 10 + n % 10
  {
  }

  lemma SuffixStep(n: nat, k: nat)
    requires n >= 10 && k >= 1
    requires DigitsValue(LastChars(Decimal(n / 10), k - 1)) == LowDigits(n / 10, k - 1)
    ensures DigitsValue(LastChars(Decimal(n), k)) == LowDigits(n, k)
  {
    var p, c := Decimal(n / 10), DigitChar(n % 10);
    var t := LastChars(p, k - 1);
    DecimalSnoc(n);
    LastCharsSnoc(p, c, k);
    LastCharsDigits(p, k - 1);
    DigitsValueSnoc(t, c);
    DigitCharValue(n % 10);
    LowDigitsSnoc(n, k);
  }

  /** A one-digit number is its own only digit. */
  lemma SingleDigit(n: nat)
    requires n < 10
    ensures Decimal(n) == [DigitChar(n)]
    ensures DigitsValue([DigitChar(n)]) == n
  {
    var c := DigitChar(n);
    DigitCharValue(n);
    assert [c][..0] == [];
  }

  lemma LastCharsShort(s: string, k: nat)
    requires |s| <= k
    ensures LastChars(s, k) == s
  {
  }

  lemma LowDigitsSmall(n: nat, k: nat)
    requires n < 10 && k >= 1
    ensures LowDigits(n, k) == n
  {
    LowDigitsZero(k - 1);
    assert n / 10 == 0 && n % 10 == n;
  }

  lemma SuffixSmall(n: nat, k: nat)
    requires n < 10 && k >= 1
    ensures DigitsValue(LastChars(Decimal(n), k)) == LowDigits(n, k)
  {
    SingleDigit(n);
    LastCharsShort(Decimal(n), k);
    LowDigitsSmall(n, k);
  }

  lemma SuffixNone(s: string)
    ensures DigitsValue(LastChars(s, 0)) == 0
  {
    assert LastChars(s, 0) == "";
  }

  /** The value of the last `k` digits of `n.toString()` is `n` modulo `10^k`. */
  lemma {:induction false} SuffixValue(n: nat, k: nat)
    ensures DigitsValue(LastChars(Decimal(n), k)) == LowDigits(n, k)
    decreases n, 1
  {
    if k == 0 {
      SuffixNone(Decimal(n));
    } else {
      SuffixPositive(n, k);
    }
  }

  lemma {:induction false} SuffixPositive(n: nat, k: nat)
    requires k >= 1
    ensures DigitsValue(LastChars(Decimal(n), k)) == LowDigits(n, k)
    decreases n, 0
  {
    if n < 10 {
      SuffixSmall(n, k);
    } else {
      SuffixValue(n / 10, k - 1);
      SuffixStep(n, k);
    }
  }

  lemma {:induction false} LowDigitsZero(k: nat)
    ensures LowDigits(0, k) == 0
  {
    if k > 0 {
      LowDigitsZero(k - 1);
    }
  }

  /** A number of at least `10^(k-1)` has at least `k` decimal digits. */
  lemma {:induction false} DecimalLength(n: nat, k: nat)
    requires k >= 1 && n >= Pow10(k - 1)
    ensures |Decimal(n)| >= k
    decreases n
  {
    if k > 1 {
      var m := Pow10(k - 2);
      assert Pow10(k - 1) == 10 * m;
      DecimalLength(n / 10, k - 1);
    }
  }

  /** Two digit strings of one length that denote the same number are the same string. */
  lemma {:induction false} DigitsValueInjective(s: string, t: string)
    requires AllDigits(s) && AllDigits(t) && |s| == |t|
    requires DigitsValue(s) == DigitsValue(t)
    ensures s == t
  {
    if s != "" {
      var n := |s| - 1;
      LastDigitsEqual(DigitsValue(s[..n]), DigitsValue(t[..n]), s[n] as int - '0' as int, t[n] as int - '0' as int);
      assert AllDigits(s[..n]) && AllDigits(t[..n]);
      DigitsValueInjective(s[..n], t[..n]);
      assert s == s[..n] + [s[n]] && t == t[..n] + [t[n]];
    }
  }

  /** Two numbers written as `10a + d` with a last digit `d` are equal only digit by digit. */
  lemma LastDigitsEqual(a: int, b: int, da: int, db: int)
    requires 0 <= da < 10 && 0 <= db < 10 && a * 10 + da == b * 10 + db
    ensures a == b && da == db
  {
    ModUnique(a * 10 + da, 10, a, da);
    ModUnique(b * 10 + db, 10, b, db);
  }

  // ---------------------------------------------------------------------------
  // split(' ')

  /** The position of the first occurrence of `c` in `s`. */
  function IndexOf(s: string, c: char): (i: nat)
    requires c in s
    ensures i < |s| && s[i] == c && c !in s[..i]
  {
    if s[0] == c then 0 else
      var i := IndexOf(s[1..], c);
      assert s[1..][..i] == s[1..i + 1];
      1 + i
  }

  /** `s.split(sep)` for a one-character separator: the maximal separator-free pieces, in order. */
  function Split(s: string, sep: char): (parts: seq<string>)
    ensures |parts| >= 1
    ensures forall i :: 0 <= i < |parts| ==> sep !in parts[i]
    decreases |s|
  {
    if sep !in s then [s]
    else
      var i := IndexOf(s, sep);
      [s[..i]] + Split(s[i + 1..], sep)
  }

  /** `parts.join(sep)`. */
  function Join(parts: seq<string>, sep: char): string
    requires |parts| >= 1
  {
    if |parts| == 1 then parts[0] else parts[0] + [sep] + Join(parts[1..], sep)
  }

  /** Splitting loses nothing: joining the pieces with the separator gives back the input. */
  lemma {:induction false} JoinSplit(s: string, sep: char)
    ensures Join(Split(s, sep), sep) == s
    decreases |s|
  {
    if sep in s {
      var i := IndexOf(s, sep);
      JoinSplit(s[i + 1..], sep);
      assert Split(s, sep)[1..] == Split(s[i + 1..], sep);
      assert s == s[..i] + [sep] + s[i + 1..];
    }
  }

  /** Splitting a separator-free string joined to the rest by one separator yields that string first. */
  lemma SplitAfterFirst(a: string, sep: char, b: string)
    requires sep !in a
    ensures Split(a + [sep] + b, sep) == [a] + Split(b, sep)
  {
    var s := a + [sep] + b;
    assert s[|a|] == sep;
    assert s[..|a|] == a;
    assert forall j, k :: 0 <= j < k <= |s| ==> s[..k][j] == s[j];
    var i := IndexOf(s, sep);
    assert s[..i] == a && s[i + 1..] == b;
  }
}
