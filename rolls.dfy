/**
  The roll numbers the printable views cover: ROLLS_37_54 in app.py, the
  decimal strings str(i) for i in range(37, 55).
*/
module Rolls {
  import opened Collation

  function DigitChar(d: nat): char
    requires d < 10
  {
    ('0' as int + d) as char
  }

  function DigitValue(c: char): nat
    requires '0' <= c <= '9'
  {
    c as int - '0' as int
  }

  predicate IsDigits(s: string) {
    forall k :: 0 <= k < |s| ==> '0' <= s[k] <= '9'
  }

  /** Python's str(n) for n >= 0: decimal digits, no leading zero. */
  function Decimal(n: nat): (s: string)
    ensures |s| >= 1 && IsDigits(s)
    ensures |s| > 1 ==> s[0] != '0'
    ensures n < 10 <==> |s| == 1
    decreases n
  {
    if n < 10 then [DigitChar(n)] else Decimal(n / 10) + [DigitChar(n % 10)]
  }

  /** The number a string of decimal digits denotes (Python's int(s)). */
  function ParseDecimal(s: string): nat
    requires IsDigits(s)
  {
    if s == [] then 0 else ParseDecimal(s[..|s| - 1]) * 10 + DigitValue(s[|s| - 1])
  }

  /** Reading back the decimal string of n gives n. */
  lemma {:induction false} ParseDecimalOfDecimal(n: nat)
    ensures ParseDecimal(Decimal(n)) == n
    decreases n
  {
    var s := Decimal(n);
    if n >= 10 {
      assert s[..|s| - 1] == Decimal(n / 10);
      ParseDecimalOfDecimal(n / 10);
    }
  }

  const RangeStart: nat := 37
  const RangeStop: nat := 55

  /** ROLLS_37_54. */
  function PrintableRolls(): (rolls: seq<string>)
    ensures forall k :: 0 <= k < |rolls| ==> IsDigits(rolls[k])
  {
    var rolls := seq(RangeStop - RangeStart, i requires 0 <= i => Decimal(RangeStart + i));
    assert forall k :: 0 <= k < |rolls| ==> rolls[k] == Decimal(RangeStart + k);
    rolls
  }

  /** The set of printable rolls, for membership tests. */
  function PrintableRollSet(): set<string> {
    set r | r in PrintableRolls()
  }

  /** The list has 18 entries and entry i is the numeral of 37 + i. */
  lemma {:induction false} PrintableRollsAreTheRange()
    ensures |PrintableRolls()| == 18
    ensures forall i :: 0 <= i < 18 ==>
              IsDigits(PrintableRolls()[i]) && ParseDecimal(PrintableRolls()[i]) == 37 + i
  {
    forall i | 0 <= i < 18
      ensures IsDigits(PrintableRolls()[i]) && ParseDecimal(PrintableRolls()[i]) == 37 + i
    {
      ParseDecimalOfDecimal(37 + i);
    }
  }

  /** The list runs from "37" to "54". */
  lemma PrintableRollsEnds()
    ensures PrintableRolls()[0] == "37" && PrintableRolls()[17] == "54"
  {
    assert Decimal(37) == Decimal(3) + [DigitChar(7)];
    assert Decimal(54) == Decimal(5) + [DigitChar(4)];
  }

  /** Each entry is the two-digit numeral of its value. */
  lemma TwoDigitNumeral(n: nat)
    requires 10 <= n < 100
    ensures Decimal(n) == [DigitChar(n / 10), DigitChar(n % 10)]
  {
  }

  lemma TwoDigitValue(r: string)
    requires |r| == 2 && IsDigits(r)
    ensures ParseDecimal(r) == 10 * DigitValue(r[0]) + DigitValue(r[1])
  {
    var head := r[..1];
    assert head[..0] == [] && head[0] == r[0];
    assert ParseDecimal(head) == DigitValue(r[0]);
    assert r[..|r| - 1] == head;
  }

  /** No roll appears twice, and the entries increase in numeric value. */
  lemma PrintableRollsIncreasing()
    ensures forall i, j :: 0 <= i < j < |PrintableRolls()| ==>
              ParseDecimal(PrintableRolls()[i]) < ParseDecimal(PrintableRolls()[j])
    ensures forall i, j :: 0 <= i < j < |PrintableRolls()| ==> PrintableRolls()[i] != PrintableRolls()[j]
  {
    PrintableRollsAreTheRange();
  }

  /** Exactly 18 distinct rolls. */
  lemma PrintableRollCount()
    ensures |PrintableRollSet()| == 18
  {
    PrintableRollsIncreasing();
    DistinctCardinality(PrintableRolls());
  }

  lemma {:induction false} DistinctCardinality<T>(s: seq<T>)
    requires forall i, j :: 0 <= i < j < |s| ==> s[i] != s[j]
    ensures |set x | x in s| == |s|
  {
    if s != [] {
      var t := s[1..];
      DistinctCardinality(t);
      assert (set x | x in s) == (set x | x in t) + {s[0]};
      assert s[0] !in t by {
        forall m | 0 <= m < |t| ensures t[m] != s[0] {
          assert t[m] == s[m + 1];
        }
      }
    }
  }

  /** The printable rolls are exactly the two-digit numerals from 37 to 54:
      " 40", "040" and "40.0" are not among them. */
  lemma InPrintableRolls(r: string)
    ensures r in PrintableRolls() <==>
              |r| == 2 && IsDigits(r) && 37 <= ParseDecimal(r) <= 54
  {
    if r in PrintableRolls() {
      PrintableRollIsNumeral(r);
    }
    if |r| == 2 && IsDigits(r) && 37 <= ParseDecimal(r) <= 54 {
      NumeralIsPrintableRoll(r);
    }
  }

  lemma PrintableRollIsNumeral(r: string)
    requires r in PrintableRolls()
    ensures |r| == 2 && IsDigits(r) && 37 <= ParseDecimal(r) <= 54
  {
    PrintableRollsAreTheRange();
    var i :| 0 <= i < 18 && PrintableRolls()[i] == r;
    TwoDigitNumeral(37 + i);
  }

  lemma NumeralIsPrintableRoll(r: string)
    requires |r| == 2 && IsDigits(r) && 37 <= ParseDecimal(r) <= 54
    ensures r in PrintableRolls()
  {
    TwoDigitValue(r);
    var n := ParseDecimal(r);
    var d0, d1 := DigitValue(r[0]), DigitValue(r[1]);
    assert n == 10 * d0 + d1 && d1 < 10;
    assert n / 10 == d0 && n % 10 == d1;
    TwoDigitNumeral(n);
    assert DigitChar(d0) == r[0] && DigitChar(d1) == r[1];
    assert Decimal(n) == r;
    assert PrintableRolls()[n - 37] == r;
  }

  /** On the printable rolls text order agrees with numeric order, so the
      print views, sorted as text, list rolls in numeric order. */
  lemma PrintableRollOrderIsNumeric(a: string, b: string)
    requires a in PrintableRolls() && b in PrintableRolls()
    ensures IsDigits(a) && IsDigits(b) && (Le(a, b) <==> ParseDecimal(a) <= ParseDecimal(b))
  {
    InPrintableRolls(a);
    InPrintableRolls(b);
    TwoDigitValue(a);
    TwoDigitValue(b);
    var a0, a1 := DigitValue(a[0]), DigitValue(a[1]);
    var b0, b1 := DigitValue(b[0]), DigitValue(b[1]);
    assert a[1..][1..] == [] && b[1..][1..] == [];
    if a[0] != b[0] {
      assert a0 != b0;
      assert Le(a, b) <==> a0 < b0;
    } else {
      assert a0 == b0;
      assert Le(a, b) == Le(a[1..], b[1..]);
      var ta, tb := a[1..], b[1..];
      assert ta[0] == a[1] && tb[0] == b[1] && |ta| == 1 && |tb| == 1;
      if ta[0] == tb[0] {
        assert Le(ta, tb) == Le(ta[1..], tb[1..]);
      } else {
        assert Le(ta, tb) == (ta[0] < tb[0]);
      }
      assert Le(a, b) <==> a1 <= b1;
    }
  }

  /** The list itself is sorted in text order. */
  lemma PrintableRollsSortedAsText()
    ensures forall i, j :: 0 <= i < j < |PrintableRolls()| ==> Lt(PrintableRolls()[i], PrintableRolls()[j])
  {
    PrintableRollsIncreasing();
    forall i, j | 0 <= i < j < |PrintableRolls()| ensures Lt(PrintableRolls()[i], PrintableRolls()[j]) {
      PrintableRollOrderIsNumeric(PrintableRolls()[i], PrintableRolls()[j]);
    }
  }
}
