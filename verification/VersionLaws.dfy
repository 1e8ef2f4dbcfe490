/** What version texts mean: which numbers they are read as, and how those are compared. */
module VersionLaws {
  import opened Schema
  import opened Text
  import opened Versions

  // ---------------------------------------------------------------- the order of versions

  /** h and l as the digits of a number in base k. */
  function Digits(h: nat, l: nat, k: nat): nat { h * k + l }

  lemma {:induction false} TimesGrows(a: nat, b: nat, k: nat)
    requires a < b
    ensures a * k + k <= b * k
  {
    assert b * k == (a + 1) * k + (b - a - 1) * k;
  }

  /** Whatever the lower digits, the higher one decides. */
  lemma {:induction false} HigherDecides(h: nat, l: nat, h': nat, l': nat, k: nat)
    requires l < k && l' < k
    ensures Digits(h, l, k) < Digits(h', l', k) <==> h < h' || (h == h' && l < l')
  {
    if h < h' {
      TimesGrows(h, h', k);
    } else if h' < h {
      TimesGrows(h', h, k);
    }
  }

  lemma {:induction false} BelowIsLess(x: Triple, y: Triple, k: nat)
    requires x.major < k && x.minor < k && x.patch < k && y.major < k && y.minor < k && y.patch < k
    ensures Below(x, y) <==>
            Digits(Digits(x.major, x.minor, k), x.patch, k) < Digits(Digits(y.major, y.minor, k), y.patch, k)
  {
    hide Digits;
    var a, b := Digits(x.major, x.minor, k), Digits(y.major, y.minor, k);
    HigherDecides(x.major, x.minor, y.major, y.minor, k);
    HigherDecides(y.major, y.minor, x.major, x.minor, k);
    HigherDecides(a, x.patch, b, y.patch, k);
  }

  /** Two versions compare as the numbers that their parts spell in any base above all six. */
  lemma {:induction false} CompareIsPositional(a: string, b: string, k: nat)
    requires Parse(a).Some? && Parse(b).Some?
    requires var (x, y) := (Parse(a).value, Parse(b).value);
             x.major < k && x.minor < k && x.patch < k && y.major < k && y.minor < k && y.patch < k
    ensures var (x, y) := (Parse(a).value, Parse(b).value);
            var m, n := (x.major * k + x.minor) * k + x.patch, (y.major * k + y.minor) * k + y.patch;
            Compare(a, b) == Some(if m < n then -1 else if m > n then 1 else 0)
  {
    hide Parse, Below;
    BelowIsLess(Parse(a).value, Parse(b).value, k);
    BelowIsLess(Parse(b).value, Parse(a).value, k);
  }

  // ---------------------------------------------------------------- the numbers in a text

  /** A number as it is usually written. */
  function Decimal(n: nat): string {
    (if n < 10 then "" else Decimal(n / 10)) + ['0' + (n % 10) as char]
  }

  lemma {:induction false} DecimalValue(n: nat)
    ensures AllDigits(Decimal(n)) && Value(Decimal(n)) == n
  {
    var s := Decimal(n);
    var c := '0' + (n % 10) as char;
    assert IsDigit(c) && (c as int - '0' as int) == n % 10;
    if n < 10 {
      assert s == [c] && s[..0] == "";
    } else {
      DecimalValue(n / 10);
      assert s[..|s| - 1] == Decimal(n / 10) && s[|s| - 1] == c;
    }
  }

  /** A decimal is read as its number up to the largest of 64 bits with a sign, and refused above. */
  lemma {:induction false} DecimalReads(n: nat)
    ensures Atoi(Decimal(n)) == if n <= 9223372036854775807 then Some(n) else None
    ensures forall i | 0 <= i < |Decimal(n)| :: Decimal(n)[i] != '.'
  {
    hide Decimal, Value;
    DecimalValue(n);
    var s := Decimal(n);
    assert IsDigit(s[0]);
    assert forall i | 0 <= i < |s| :: IsDigit(s[i]);
  }

  function Spelled(x: nat, y: nat, z: nat): string { Decimal(x) + "." + Decimal(y) + "." + Decimal(z) }

  predicate Fits(n: nat) { n <= 9223372036854775807 }

  lemma {:induction false} SpelledParts(x: nat, y: nat, z: nat)
    ensures Parts(Spelled(x, y, z)) == [Decimal(x), Decimal(y), Decimal(z)]
  {
    hide Decimal, Parts, Atoi;
    var a, b, c := Decimal(x), Decimal(y), Decimal(z);
    DecimalReads(x);
    DecimalReads(y);
    DecimalReads(z);
    assert a + "." + b + "." + c == a + "." + (b + "." + c);
    PartsJoin(a, b + "." + c);
    PartsJoin(b, c);
    PartsOne(c);
  }

  /** Three decimal numbers joined by dots are read as these numbers, in their order, if all of them fit. */
  lemma {:induction false} SpelledParses(x: nat, y: nat, z: nat)
    ensures Parse(Spelled(x, y, z)) ==
            if Fits(x) && Fits(y) && Fits(z) then Some(Triple(x, y, z)) else None
  {
    hide Atoi, Parts, Decimal, Spelled;
    DecimalReads(x);
    DecimalReads(y);
    DecimalReads(z);
    SpelledParts(x, y, z);
  }

  /** So two spelled versions compare by major, then minor, then patch number. */
  lemma {:induction false} SpelledCompare(x: nat, y: nat, z: nat, x': nat, y': nat, z': nat)
    requires Fits(x) && Fits(y) && Fits(z) && Fits(x') && Fits(y') && Fits(z')
    ensures var less := x < x' || (x == x' && (y < y' || (y == y' && z < z')));
            var same := x == x' && y == y' && z == z';
            Compare(Spelled(x, y, z), Spelled(x', y', z')) == Some(if less then -1 else if same then 0 else 1)
  {
    hide Parse, Spelled;
    SpelledParses(x, y, z);
    SpelledParses(x', y', z');
  }

  /** A text without exactly two dots is no version. */
  lemma {:induction false} PartsCount(s: string)
    ensures |Parts(s)| == 1 + Dots(s)
  {
    if s != "" { PartsCount(s[1..]); }
  }

  function Dots(s: string): nat { if s == "" then 0 else Dots(s[1..]) + if s[0] == '.' then 1 else 0 }

  lemma {:induction false} TwoDots(v: string)
    requires Dots(v) != 2
    ensures Parse(v) == None
  {
    PartsCount(v);
  }
}
