/** `BinaryInteger+` and `Integer+`: rounding an odd value up to even, absolute
    value, and the thousands-separator string. A Swift fixed-width integer type
    is described by `IntType`; arithmetic that leaves its range traps. */
module IntegerFormat {

  type Pos = n: nat | 1 <= n witness 1

  /** `Int8` … `Int64` (`signed`), `UInt8` … `UInt64` (not), or any other width. */
  datatype IntType = IntType(signed: bool, bits: Pos)

  function Pow2(k: nat): (r: Pos)
  {
    if k == 0 then 1 else 2 * Pow2(k - 1)
  }

  function Min(t: IntType): int
  {
    if t.signed then -(Pow2(t.bits - 1) as int) else 0
  }

  function Max(t: IntType): int
  {
    if t.signed then Pow2(t.bits - 1) - 1 else Pow2(t.bits) - 1
  }

  predicate InRange(t: IntType, x: int)
  {
    Min(t) <= x <= Max(t)
  }

  /** What an arithmetic expression does at run time: return a value, or trap
      on overflow. */
  datatype Outcome = Returns(value: int) | Traps

  /** The bit pattern of `x` in `t`: two's complement for signed types. */
  function Pattern(t: IntType, x: int): (r: nat)
    ensures r < Pow2(t.bits)
  {
    x % Pow2(t.bits)
  }

  /** `x & 1`: the lowest bit of the pattern. */
  function AndOne(t: IntType, x: int): (r: int)
    requires InRange(t, x)
    ensures r == 0 || r == 1
    ensures r == x % 2
  {
    PatternParity(t.bits, x);
    Pattern(t, x) % 2
  }

  /** The width is even, so reducing modulo it keeps the parity. */
  lemma PatternParity(bits: Pos, x: int)
    ensures (x % Pow2(bits)) % 2 == x % 2
  {
    var p := Pow2(bits);
    var h := Pow2(bits - 1);
    var q := x / p;
    var m := x % p;
    assert x == q * p + m;
    assert q * p == 2 * (q * h) by {
      assert p == 2 * h;
    }
    ParityOfEvenShift(x, m, q * h);
  }

  lemma ParityOfEvenShift(x: int, m: int, k: int)
    requires x == 2 * k + m
    ensures m % 2 == x % 2
  {
  }

  /** `ceilIfEven()`: `x + (x & 1)`. It rounds an odd value up to the next even
      one and keeps an even one; the addition traps only at an odd maximum. */
  function CeilIfEven(t: IntType, x: int): (r: Outcome)
    requires InRange(t, x)
    ensures r.Traps? <==> x == Max(t) && x % 2 == 1
    ensures r.Returns? ==> InRange(t, r.value) && r.value % 2 == 0
    ensures r.Returns? ==> x <= r.value <= x + 1
    ensures r.Returns? ==> (r.value == x <==> x % 2 == 0)
  {
    var sum := x + AndOne(t, x);
    if InRange(t, sum) then Returns(sum) else Traps
  }

  /** Every signed and unsigned maximum is odd, so `ceilIfEven()` traps on it
      for every Swift integer type wider than one bit. */
  lemma CeilIfEvenTrapsAtMax(t: IntType)
    requires t.bits >= 2 || !t.signed
    ensures CeilIfEven(t, Max(t)) == Traps
  {
    if t.signed {
      assert Pow2(t.bits - 1) == 2 * Pow2(t.bits - 2);
    } else {
      assert Pow2(t.bits) == 2 * Pow2(t.bits - 1);
    }
  }

  /** `abs()`: `x * -1` for a negative value, `x` otherwise. The negation traps
      only at the minimum of a signed type. */
  function Abs(t: IntType, x: int): (r: Outcome)
    requires InRange(t, x)
    ensures r.Traps? <==> t.signed && x == Min(t)
    ensures r.Returns? ==> InRange(t, r.value) && r.value >= 0
    ensures r.Returns? ==> r.value == if x < 0 then -x else x
  {
    if x < 0 then
      var negated := x * -1;
      if InRange(t, negated) then Returns(negated) else Traps
    else Returns(x)
  }

  /** `abs()` applied to its own result changes nothing. */
  lemma AbsIdempotent(t: IntType, x: int)
    requires InRange(t, x) && Abs(t, x).Returns?
    ensures Abs(t, Abs(t, x).value) == Abs(t, x)
  {
  }

  // ---------------------------------------------------------------------------
  // Thousands separators.

  function DigitChar(d: nat): (c: char)
    requires d < 10
    ensures '0' <= c <= '9'
  {
    "0123456789"[d]
  }

  predicate NoComma(s: string)
  {
    forall i :: 0 <= i < |s| ==> s[i] != ','
  }

  /** The decimal digits of a natural number, most significant first. */
  function Digits(n: nat): (s: string)
    ensures |s| >= 1 && NoComma(s)
    ensures forall i :: 0 <= i < |s| ==> '0' <= s[i] <= '9'
  {
    if n < 10 then [DigitChar(n)] else Digits(n / 10) + [DigitChar(n % 10)]
  }

  /** `String(n)`: the digits, after a minus sign when negative. */
  function Decimal(n: int): (s: string)
    ensures |s| >= 1 && NoComma(s)
    ensures n < 0 <==> s[0] == '-'
  {
    if n < 0 then "-" + Digits(-n) else Digits(n)
  }

  function Reverse<T>(s: seq<T>): (r: seq<T>)
    ensures |r| == |s|
    ensures forall i :: 0 <= i < |s| ==> r[i] == s[|s| - 1 - i]
  {
    seq(|s|, i requires 0 <= i < |s| => s[|s| - 1 - i])
  }

  /** `chunks(ofCount:)`: consecutive pieces of `count` elements, the last one
      possibly shorter; none for an empty sequence. */
  function Chunks<T>(s: seq<T>, count: Pos): (r: seq<seq<T>>)
    decreases |s|
  {
    if |s| == 0 then []
    else if |s| <= count then [s]
    else [s[..count]] + Chunks(s[count..], count)
  }

  /** `joined(separator: ",")`. */
  function JoinComma(parts: seq<string>): string
  {
    if |parts| == 0 then ""
    else if |parts| == 1 then parts[0]
    else parts[0] + "," + JoinComma(parts[1..])
  }

  /** The expression both `commaSeperated` and `insertComma()` evaluate on a
      string: reverse it, cut it into threes, join with commas, reverse back. */
  function GroupByReversing(s: string): string
  {
    Reverse(JoinComma(Chunks(Reverse(s), 3)))
  }

  /** `commaSeperated`. */
  function CommaSeparated(n: int): string
  {
    GroupByReversing(Decimal(n))
  }

  /** `insertComma()`. */
  function InsertComma(n: int): string
  {
    GroupByReversing(Decimal(n))
  }

  /** The reference grouping: split off three characters from the right until at
      most three are left, with a comma between groups. */
  function GroupRight(s: string): (r: string)
    ensures |s| >= 1 ==> |r| >= 1 && r[0] == s[0]
    decreases |s|
  {
    if |s| <= 3 then s else GroupRight(s[..|s| - 3]) + "," + s[|s| - 3..]
  }

  lemma ReverseConcat<T>(a: seq<T>, b: seq<T>)
    ensures Reverse(a + b) == Reverse(b) + Reverse(a)
  {
  }

  lemma ReverseReverse<T>(s: seq<T>)
    ensures Reverse(Reverse(s)) == s
  {
  }

  /** The library's reversing pipeline groups from the right, like `GroupRight`. */
  lemma {:induction false} GroupByReversingIsGroupRight(s: string)
    ensures GroupByReversing(s) == GroupRight(s)
    decreases |s|
  {
    var r := Reverse(s);
    if |s| == 0 {
    } else if |s| <= 3 {
      ReverseReverse(s);
    } else {
      var front := s[..|s| - 3];
      var last := s[|s| - 3..];
      assert s == front + last;
      ReverseConcat(front, last);
      assert r == Reverse(last) + Reverse(front);
      assert r[..3] == Reverse(last);
      assert r[3..] == Reverse(front);
      var rest := Chunks(r[3..], 3);
      assert Chunks(r, 3) == [Reverse(last)] + rest;
      assert |rest| >= 1;
      assert ([Reverse(last)] + rest)[1..] == rest;
      assert JoinComma(Chunks(r, 3)) == Reverse(last) + "," + JoinComma(rest);
      ReverseConcat(Reverse(last) + ",", JoinComma(rest));
      ReverseConcat(Reverse(last), ",");
      ReverseReverse(last);
      GroupByReversingIsGroupRight(front);
    }
  }

  /** `s` with every comma deleted. */
  function Strip(s: string): (r: string)
    ensures |r| <= |s|
  {
    if |s| == 0 then "" else (if s[0] == ',' then "" else [s[0]]) + Strip(s[1..])
  }

  function CommaCount(s: string): nat
  {
    if |s| == 0 then 0 else (if s[0] == ',' then 1 else 0) + CommaCount(s[1..])
  }

  lemma {:induction false} StripConcat(a: string, b: string)
    ensures Strip(a + b) == Strip(a) + Strip(b)
    ensures CommaCount(a + b) == CommaCount(a) + CommaCount(b)
  {
    if |a| == 0 {
      assert a + b == b;
    } else {
      assert (a + b)[1..] == a[1..] + b;
      StripConcat(a[1..], b);
    }
  }

  lemma {:induction false} StripNoComma(s: string)
    requires NoComma(s)
    ensures Strip(s) == s && CommaCount(s) == 0
  {
    if |s| > 0 {
      StripNoComma(s[1..]);
    }
  }

  /** Grouping a comma-free string and deleting the commas gives it back. */
  lemma {:induction false} GroupRightStrip(s: string)
    requires NoComma(s)
    ensures Strip(GroupRight(s)) == s
    decreases |s|
  {
    if |s| <= 3 {
      StripNoComma(s);
    } else {
      var front := s[..|s| - 3];
      var last := s[|s| - 3..];
      var g := GroupRight(front);
      GroupRightStrip(front);
      StripNoComma(last);
      StripConcat(g, ",");
      StripConcat(g + ",", last);
      assert Strip(",") == [] by {
        assert ","[1..] == [];
      }
      assert Strip(g + ",") == front;
      assert s == front + last;
    }
  }

  /** A grouped comma-free string has one comma per full group of three after
      the first group, and is longer by exactly that many characters. */
  lemma {:induction false} GroupRightCount(s: string)
    requires NoComma(s) && |s| >= 1
    ensures CommaCount(GroupRight(s)) == (|s| - 1) / 3
    ensures |GroupRight(s)| == |s| + (|s| - 1) / 3
    decreases |s|
  {
    if |s| <= 3 {
      StripNoComma(s);
    } else {
      var front := s[..|s| - 3];
      var last := s[|s| - 3..];
      var g := GroupRight(front);
      GroupRightCount(front);
      StripNoComma(last);
      StripConcat(g, ",");
      StripConcat(g + ",", last);
      assert CommaCount(",") == 1 by {
        assert ","[1..] == [];
      }
      assert (|front| - 1) / 3 + 1 == (|s| - 1) / 3;
    }
  }

  /** A comma stands exactly at every fourth position counted from the right. */
  ghost predicate CommasEveryFourth(t: string)
  {
    forall i :: 0 <= i < |t| ==> (t[i] == ',' <==> (|t| - i) % 4 == 0)
  }

  /** Appending a comma and a comma-free group of three keeps commas at every
      fourth position from the right. */
  lemma AppendGroupKeepsCommas(g: string, last: string)
    requires CommasEveryFourth(g) && NoComma(last) && |last| == 3
    ensures CommasEveryFourth(g + "," + last)
  {
    var t := g + "," + last;
    forall i | 0 <= i < |t|
      ensures t[i] == ',' <==> (|t| - i) % 4 == 0
    {
      if i < |g| {
        assert t[i] == g[i];
        ShiftByFour(|g| - i);
      } else if i > |g| {
        assert t[i] == last[i - |g| - 1];
      }
    }
  }

  lemma ShiftByFour(x: int)
    ensures (x + 4) % 4 == x % 4
  {
  }

  /** In a grouped comma-free string a comma stands exactly at every fourth
      position counted from the right, so every group but the first has three
      characters and the first has one to three. */
  lemma {:induction false} GroupRightCommas(s: string)
    requires NoComma(s)
    ensures forall i :: 0 <= i < |GroupRight(s)| ==>
              (GroupRight(s)[i] == ',' <==> (|GroupRight(s)| - i) % 4 == 0)
    decreases |s|
  {
    if |s| > 3 {
      var front := s[..|s| - 3];
      GroupRightCommas(front);
      AppendGroupKeepsCommas(GroupRight(front), s[|s| - 3..]);
    }
    assert CommasEveryFourth(GroupRight(s));
  }

  /** For a non-negative value: deleting the commas of `commaSeperated` gives
      `String(n)`, it has `(len - 1) / 3` commas for a decimal of length `len`,
      and its length grows by exactly that count. */
  lemma CommaSeparatedOfNatural(n: int)
    requires n >= 0
    ensures Strip(CommaSeparated(n)) == Decimal(n)
    ensures CommaCount(CommaSeparated(n)) == (|Decimal(n)| - 1) / 3
    ensures |CommaSeparated(n)| == |Decimal(n)| + (|Decimal(n)| - 1) / 3
    ensures forall i :: 0 <= i < |CommaSeparated(n)| ==>
              (CommaSeparated(n)[i] == ',' <==> (|CommaSeparated(n)| - i) % 4 == 0)
  {
    GroupByReversingIsGroupRight(Decimal(n));
    GroupRightStrip(Decimal(n));
    GroupRightCount(Decimal(n));
    GroupRightCommas(Decimal(n));
  }

  /** `insertComma()` is `commaSeperated` for every value, and below 1000 a
      non-negative value gets no comma. */
  lemma InsertCommaIsCommaSeparated(n: int)
    ensures InsertComma(n) == CommaSeparated(n)
    ensures 0 <= n < 1000 ==> InsertComma(n) == Decimal(n)
  {
    if 0 <= n < 1000 {
      DigitsBelow1000(n);
      GroupByReversingIsGroupRight(Decimal(n));
    }
  }

  lemma DigitsBelow1000(n: nat)
    requires n < 1000
    ensures |Digits(n)| <= 3
  {
    if n >= 10 {
      assert |Digits(n)| == |Digits(n / 10)| + 1;
      if n / 10 >= 10 {
        assert |Digits(n / 10)| == |Digits(n / 10 / 10)| + 1;
        assert n / 10 / 10 < 10;
      }
    }
  }

  lemma DigitsOf1234()
    ensures Digits(123) == "123" && Digits(1234) == "1234"
  {
    assert Digits(1) == "1";
    assert Digits(12) == Digits(1) + ['2'];
    assert Digits(123) == Digits(12) + ['3'];
    assert Digits(1234) == Digits(123) + ['4'];
  }

  /** The minus sign is grouped as if it were a digit: a negative value with a
      multiple of three digits gets a comma straight after its sign. */
  lemma MinusSignGroupedAsDigit()
    ensures CommaSeparated(-123) == "-,123"
  {
    DigitsOf1234();
    var d := "-123";
    assert Decimal(-123) == d;
    GroupByReversingIsGroupRight(d);
    assert d[..|d| - 3] == "-" && d[|d| - 3..] == "123";
    assert GroupRight(d) == GroupRight("-") + "," + "123";
  }

  /** With one digit more the sign lands in the first group. */
  lemma MinusSignInFirstGroup()
    ensures CommaSeparated(-1234) == "-1,234"
  {
    DigitsOf1234();
    var d := "-1234";
    assert Decimal(-1234) == d;
    GroupByReversingIsGroupRight(d);
    assert d[..|d| - 3] == "-1" && d[|d| - 3..] == "234";
    assert GroupRight(d) == GroupRight("-1") + "," + "234";
  }

  /** The evidently intended thousands separator: the sign, then the grouped
      digits. Deleting its commas gives `String(n)` back, for negative values
      too; no comma follows the sign; there is one comma per full group of three
      digits after the first; and for non-negative values it is `commaSeperated`. */
  function CommaSeparatedCorrected(n: int): (r: string)
    ensures Strip(r) == Decimal(n)
    ensures n < 0 ==> |r| >= 2 && r[0] == '-' && r[1] != ','
    ensures CommaCount(r) == (|Digits(if n < 0 then -n else n)| - 1) / 3
    ensures n >= 0 ==> r == CommaSeparated(n)
  {
    var d := Digits(if n < 0 then -n else n);
    GroupRightStrip(d);
    GroupRightCount(d);
    GroupByReversingIsGroupRight(d);
    if n < 0 then
      StripConcat("-", GroupRight(d));
      "-" + GroupRight(d)
    else GroupRight(d)
  }
}
