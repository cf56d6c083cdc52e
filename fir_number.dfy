/**
 * The FIR number both client forms generate: the letters "FIR" followed by the last
 * eight characters of the decimal millisecond timestamp (`Date.now().toString().slice(-8)`).
 * The clock reading is a parameter.
 */
module FirNumber {
  import opened Text

  const Prefix: string := "FIR"

  /** The number generated at millisecond `now`. */
  function FirNumberAt(now: nat): (r: string)
    ensures |r| >= 4 && r[..3] == Prefix && AllDigits(r[3..])
    ensures r[3..] == LastChars(Decimal(now), 8)
  {
    var r := Prefix + LastChars(Decimal(now), 8);
    assert r[3..] == LastChars(Decimal(now), 8);
    r
  }

  /** The eight-digit part denotes the timestamp modulo 10^8; once the clock has eight digits it is exactly eight characters. */
  lemma FirNumberDigits(now: nat)
    ensures DigitsValue(FirNumberAt(now)[3..]) == now % Pow10(8)
    ensures now >= Pow10(7) ==> |FirNumberAt(now)| == 11
  {
    SuffixValue(now, 8);
    LowDigitsIsMod(now, 8);
    if now >= Pow10(7) {
      DecimalLength(now, 8);
    }
  }

  /**
   * Two timestamps of at least eight digits give the same FIR number exactly when they agree
   * modulo 10^8 milliseconds (about 27.8 hours): numbers repeat, so the server-side
   * duplicate check is what keeps them unique.
   */
  lemma FirNumberCollision(a: nat, b: nat)
    requires a >= Pow10(7) && b >= Pow10(7)
    ensures FirNumberAt(a) == FirNumberAt(b) <==> a % Pow10(8) == b % Pow10(8)
  {
    FirNumberDigits(a);
    FirNumberDigits(b);
    var sa, sb := FirNumberAt(a)[3..], FirNumberAt(b)[3..];
    if a % Pow10(8) == b % Pow10(8) {
      DigitsValueInjective(sa, sb);
      assert FirNumberAt(a) == Prefix + sa && FirNumberAt(b) == Prefix + sb;
    }
  }
}
