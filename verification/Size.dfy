/** Sizes written for people, such as "1.5 GiB", as a number of bytes that fits 64 bits. */
module Size {
  import opened Options

  const MAX_INT64 := 0x7FFF_FFFF_FFFF_FFFF

  newtype int64 = n: int | -MAX_INT64 - 1 <= n <= MAX_INT64

  type UnitMap = m: map<char, int64> | forall c :: c in m ==> m[c] > 0 witness map[]

  const DECIMAL: UnitMap :=
    map['k' := 1000, 'm' := 1000_000, 'g' := 1000_000_000, 't' := 1000_000_000_000, 'p' := 1000_000_000_000_000]

  const BINARY: UnitMap :=
    map['k' := 0x400, 'm' := 0x10_0000, 'g' := 0x4000_0000, 't' := 0x100_0000_0000, 'p' := 0x4_0000_0000_0000]

  datatype Outcome = Bytes(n: int64) | Invalid | TooLarge

  // ---- The written form ----

  /** What the regular expression tells apart: digits, any number of fractions, one space at most,
      the letter of a unit, and the letters that may end it. */
  datatype Parts = Parts(whole: string, fractions: seq<string>, space: Option<char>, prefix: Option<char>,
                         i: Option<char>, b: Option<char>)

  const SPACES := {' '}
  const PREFIXES := {'k', 'K', 'm', 'M', 'g', 'G', 't', 'T', 'p', 'P'}
  const BINARY_MARKS := {'i', 'I'}
  const BYTE_MARKS := {'b', 'B'}

  predicate IsDigit(c: char) {
    '0' <= c <= '9'
  }

  predicate AllDigits(s: string) {
    forall i :: 0 <= i < |s| ==> IsDigit(s[i])
  }

  predicate IsNumber(s: string) {
    s != "" && AllDigits(s)
  }

  predicate Among(letter: Option<char>, letters: set<char>) {
    letter.Some? ==> letter.value in letters
  }

  predicate WellFormed(p: Parts) {
    && IsNumber(p.whole) && (forall f :: f in p.fractions ==> IsNumber(f))
    && Among(p.space, SPACES) && Among(p.prefix, PREFIXES) && Among(p.i, BINARY_MARKS) && Among(p.b, BYTE_MARKS)
  }

  function Letter(letter: Option<char>): string {
    if letter.Some? then [letter.value] else ""
  }

  function Dotted(fractions: seq<string>): string {
    if fractions == [] then "" else "." + fractions[0] + Dotted(fractions[1..])
  }

  function Ending(p: Parts): string {
    Letter(p.space) + (Letter(p.prefix) + (Letter(p.i) + Letter(p.b)))
  }

  function Written(p: Parts): string {
    p.whole + (Dotted(p.fractions) + Ending(p))
  }

  // ---- Taking it apart ----

  function DigitsLen(s: string): (n: nat)
    ensures n <= |s|
  {
    if s == "" || !IsDigit(s[0]) then 0 else 1 + DigitsLen(s[1..])
  }

  function TakeFractions(s: string): (seq<string>, string)
    decreases |s|
  {
    if |s| < 2 || s[0] != '.' || !IsDigit(s[1]) then ([], s)
    else
      var n := DigitsLen(s[1..]);
      var (fractions, rest) := TakeFractions(s[1 + n..]);
      ([s[1..1 + n]] + fractions, rest)
  }

  function TakeLetter(s: string, letters: set<char>): (Option<char>, string) {
    if s != "" && s[0] in letters then (Some(s[0]), s[1..]) else (None, s)
  }

  function Matches(s: string): Option<Parts> {
    var n := DigitsLen(s);
    var (fractions, s1) := TakeFractions(s[n..]);
    var (space, s2) := TakeLetter(s1, SPACES);
    var (prefix, s3) := TakeLetter(s2, PREFIXES);
    var (i, s4) := TakeLetter(s3, BINARY_MARKS);
    var (b, s5) := TakeLetter(s4, BYTE_MARKS);
    if n == 0 || s5 != "" then None else Some(Parts(s[..n], fractions, space, prefix, i, b))
  }

  predicate NoDigitFirst(s: string) {
    s == "" || !IsDigit(s[0])
  }

  lemma {:induction false} DigitsLenIff(number: string, rest: string)
    requires AllDigits(number) && NoDigitFirst(rest)
    ensures DigitsLen(number + rest) == |number|
  {
    if number == "" {
      assert number + rest == rest;
    } else {
      assert (number + rest)[1..] == number[1..] + rest;
      DigitsLenIff(number[1..], rest);
    }
  }

  lemma {:induction false} DigitsLenTakesNumber(s: string)
    ensures AllDigits(s[..DigitsLen(s)])
    ensures NoDigitFirst(s[DigitsLen(s)..])
  {
    if s != "" && IsDigit(s[0]) {
      DigitsLenTakesNumber(s[1..]);
      assert s[..DigitsLen(s)] == [s[0]] + s[1..][..DigitsLen(s[1..])];
    }
  }

  /** Whatever can follow the fractions. */
  predicate EndsFractions(s: string) {
    s == "" || (!IsDigit(s[0]) && s[0] != '.')
  }

  /** One fraction comes off the front. */
  lemma TakesOne(fraction: string, more: string)
    requires IsNumber(fraction) && NoDigitFirst(more)
    ensures var s := "." + fraction + more;
            var (fractions, rest) := TakeFractions(more);
            TakeFractions(s) == ([fraction] + fractions, rest)
  {
    var s := "." + fraction + more;
    assert s[1..] == fraction + more;
    assert s[1] == fraction[0];
    DigitsLenIff(fraction, more);
    assert s[1..1 + |fraction|] == fraction && s[1 + |fraction|..] == more;
  }

  lemma {:induction false} TakesDotted(fractions: seq<string>, rest: string)
    requires (forall f :: f in fractions ==> IsNumber(f)) && EndsFractions(rest)
    ensures TakeFractions(Dotted(fractions) + rest) == (fractions, rest)
  {
    if fractions == [] {
      assert Dotted(fractions) + rest == rest;
    } else {
      var more := Dotted(fractions[1..]) + rest;
      assert Dotted(fractions) + rest == "." + fractions[0] + more;
      assert fractions[1..] == [] ==> more == rest;
      TakesDotted(fractions[1..], rest);
      TakesOne(fractions[0], more);
      assert [fractions[0]] + fractions[1..] == fractions;
    }
  }

  lemma {:induction false} DottedTaken(s: string)
    ensures var (fractions, rest) := TakeFractions(s);
            s == Dotted(fractions) + rest && forall f :: f in fractions ==> IsNumber(f)
    decreases |s|
  {
    if |s| < 2 || s[0] != '.' || !IsDigit(s[1]) {
      assert Dotted([]) + s == s;
    } else {
      var n := DigitsLen(s[1..]);
      DigitsLenTakesNumber(s[1..]);
      var fraction, more := s[1..1 + n], s[1 + n..];
      assert s[1..][..n] == fraction && s[1..][n..] == more;
      assert s == "." + fraction + more;
      DottedTaken(more);
      TakesOne(fraction, more);
      DottedMore(fraction, TakeFractions(more).0, TakeFractions(more).1);
    }
  }

  lemma DottedMore(fraction: string, fractions: seq<string>, rest: string)
    ensures Dotted([fraction] + fractions) + rest == "." + fraction + (Dotted(fractions) + rest)
  {
    assert ([fraction] + fractions)[1..] == fractions;
  }

  lemma LetterTaken(s: string, letters: set<char>)
    ensures var (letter, rest) := TakeLetter(s, letters); s == Letter(letter) + rest && Among(letter, letters)
  {
  }

  lemma TakesLetter(letter: Option<char>, rest: string, letters: set<char>)
    requires Among(letter, letters) && (rest == "" || rest[0] !in letters)
    ensures TakeLetter(Letter(letter) + rest, letters) == (letter, rest)
  {
    assert letter.None? ==> Letter(letter) + rest == rest;
    assert letter.Some? ==> (Letter(letter) + rest)[1..] == rest;
  }

  /** Taking a text apart is the inverse of writing: it finds the parts of exactly the well-formed
      sizes, and there is only one way to find them. */
  lemma MatchesIff(s: string, p: Parts)
    ensures Matches(s) == Some(p) <==> WellFormed(p) && s == Written(p)
  {
    if Matches(s) == Some(p) {
      MatchesWritten(s, p);
    }
    if WellFormed(p) && s == Written(p) {
      WrittenMatches(p);
    }
  }

  lemma EndingTaken(s1: string, p: Parts)
    requires var (space, s2) := TakeLetter(s1, SPACES);
             var (prefix, s3) := TakeLetter(s2, PREFIXES);
             var (i, s4) := TakeLetter(s3, BINARY_MARKS);
             (space, prefix, i, TakeLetter(s4, BYTE_MARKS)) == (p.space, p.prefix, p.i, (p.b, ""))
    ensures s1 == Ending(p)
    ensures Among(p.space, SPACES) && Among(p.prefix, PREFIXES) && Among(p.i, BINARY_MARKS) && Among(p.b, BYTE_MARKS)
  {
    var s2 := TakeLetter(s1, SPACES).1;
    var s3 := TakeLetter(s2, PREFIXES).1;
    var s4 := TakeLetter(s3, BINARY_MARKS).1;
    LetterTaken(s1, SPACES);
    LetterTaken(s2, PREFIXES);
    LetterTaken(s3, BINARY_MARKS);
    LetterTaken(s4, BYTE_MARKS);
    assert s4 == Letter(p.b);
  }

  lemma Halves(s: string, n: nat)
    requires n <= |s|
    ensures s == s[..n] + s[n..]
  {
  }

  lemma MatchesWritten(s: string, p: Parts)
    requires Matches(s) == Some(p)
    ensures WellFormed(p) && s == Written(p)
  {
    var n := DigitsLen(s);
    var s0 := s[n..];
    var s1 := TakeFractions(s0).1;
    Halves(s, n);
    assert IsNumber(p.whole) by {
      DigitsLenTakesNumber(s);
    }
    DottedTaken(s0);
    assert s1 == Ending(p) && WellFormed(p) by {
      EndingTaken(s1, p);
    }
  }

  predicate Starts(s: string, letters: set<char>) {
    s == "" || s[0] in letters
  }

  lemma LetterStarts(letter: Option<char>, rest: string, letters: set<char>, more: set<char>)
    requires Among(letter, letters) && Starts(rest, more)
    ensures Starts(Letter(letter) + rest, letters + more)
  {
    assert letter.None? ==> Letter(letter) + rest == rest;
  }

  /** The letters at the end are taken one class after the other. */
  lemma TakesEnding(p: Parts)
    requires WellFormed(p)
    ensures var (space, s2) := TakeLetter(Ending(p), SPACES);
            var (prefix, s3) := TakeLetter(s2, PREFIXES);
            var (i, s4) := TakeLetter(s3, BINARY_MARKS);
            (space, prefix, i, TakeLetter(s4, BYTE_MARKS)) == (p.space, p.prefix, p.i, (p.b, ""))
    ensures Starts(Ending(p), SPACES + PREFIXES + BINARY_MARKS + BYTE_MARKS)
  {
    var s4 := Letter(p.b) + "";
    assert s4 == Letter(p.b);
    var s3 := Letter(p.i) + s4;
    var s2 := Letter(p.prefix) + s3;
    LetterStarts(p.b, "", BYTE_MARKS, {});
    LetterStarts(p.i, s4, BINARY_MARKS, BYTE_MARKS);
    LetterStarts(p.prefix, s3, PREFIXES, BINARY_MARKS + BYTE_MARKS);
    LetterStarts(p.space, s2, SPACES, PREFIXES + BINARY_MARKS + BYTE_MARKS);
    TakesLetter(p.b, "", BYTE_MARKS);
    TakesLetter(p.i, s4, BINARY_MARKS);
    TakesLetter(p.prefix, s3, PREFIXES);
    TakesLetter(p.space, s2, SPACES);
  }

  lemma WrittenMatches(p: Parts)
    requires WellFormed(p)
    ensures Matches(Written(p)) == Some(p)
  {
    TakesEnding(p);
    var s1 := Ending(p);
    TakesDotted(p.fractions, s1);
    var s0 := Dotted(p.fractions) + s1;
    assert NoDigitFirst(s0) by {
      assert p.fractions == [] ==> s0 == s1;
    }
    DigitsLenIff(p.whole, s0);
    var s := Written(p);
    assert s[..|p.whole|] == p.whole && s[|p.whole|..] == s0;
  }

  // ---- The number ----

  function Pow10(k: nat): (n: nat)
    ensures n > 0
  {
    if k == 0 then 1 else 10 * Pow10(k - 1)
  }

  function Digit(c: char): (d: nat)
    requires IsDigit(c)
    ensures d < 10
  {
    c as int - '0' as int
  }

  function Value(digits: string): nat
    requires AllDigits(digits)
  {
    if digits == "" then 0 else Value(digits[..|digits| - 1]) * 10 + Digit(digits[|digits| - 1])
  }

  function ParseInt(digits: string): (r: Option<int64>)
    requires IsNumber(digits)
    ensures r.Some? ==> r.value >= 0
  {
    if Value(digits) <= MAX_INT64 then Some(Value(digits) as int64) else None
  }

  /** The number written as "0." and the digits. */
  function Ratio(v: nat, y: nat): real
    requires y > 0
  {
    v as real / y as real
  }

  function ParseFloat(digits: string): (r: real)
    requires IsNumber(digits)
  {
    Ratio(Value(digits), Pow10(|digits|))
  }

  function ToLower(c: char): char {
    if 'A' <= c <= 'Z' then (c as int + 32) as char else c
  }

  function Multiplier(prefix: Option<char>, units: UnitMap): (mul: int64)
    ensures mul > 0
  {
    if prefix.Some? && ToLower(prefix.value) in units then units[ToLower(prefix.value)] else 1
  }

  function Truncated(part: real, mul: nat): int {
    (part * mul as real).Floor
  }

  function FloatSize(fractions: seq<string>, mul: int64): (size: int64)
    requires (forall f :: f in fractions ==> IsNumber(f)) && mul > 0
    ensures 0 <= size < mul
  {
    if fractions == [] then 0
    else
      var fraction := fractions[|fractions| - 1];
      FractionFloor(fraction, mul as int);
      Truncated(ParseFloat(fraction), mul as int) as int64
  }

  /** Every step stays within 64 bits. */
  function Sum(intSize: int64, floatSize: int64, mul: int64): Outcome
    requires intSize >= 0 && floatSize >= 0 && mul > 0
  {
    GuardIff(intSize, mul);
    if MAX_INT64 as int64 / mul < intSize then TooLarge
    else
      var size := intSize * mul;
      if MAX_INT64 as int64 - size < floatSize then TooLarge else Bytes(size + floatSize)
  }

  function ParseSize(s: string, units: UnitMap): Outcome {
    var matches := Matches(s);
    if matches.None? then Invalid
    else
      var p := matches.value;
      MatchesWritten(s, p);
      var mul := Multiplier(p.prefix, units);
      var intSize := ParseInt(p.whole);
      if intSize.None? then TooLarge else Sum(intSize.value, FloatSize(p.fractions, mul), mul)
  }

  function FromHumanSize(s: string): Outcome {
    ParseSize(s, DECIMAL)
  }

  function RAMInBytes(s: string): Outcome {
    ParseSize(s, BINARY)
  }

  // ---- Arithmetic ----

  lemma Monotone(a: int, b: int, y: int)
    requires a <= b && y > 0
    ensures a * y <= b * y
  {
  }

  lemma QuotientIs(x: int, y: int, q: int)
    requires y > 0 && q * y <= x < (q + 1) * y
    ensures x / y == q
  {
    if x / y < q {
      Monotone(x / y + 1, q, y);
    } else if x / y > q {
      Monotone(q + 1, x / y, y);
    }
  }

  lemma QuotientBounds(x: int, y: int)
    requires y > 0
    ensures x / y * y <= x < (x / y + 1) * y
  {
  }

  /** The guard by division is the product's bound. */
  lemma GuardIff(n: int64, mul: int64)
    requires n >= 0 && mul > 0
    ensures MAX_INT64 as int64 / mul < n <==> n as int * mul as int > MAX_INT64
    ensures n as int * mul as int >= 0
  {
    var m := mul as int;
    var q := MAX_INT64 / m;
    QuotientBounds(MAX_INT64, m);
    if q < n as int {
      Monotone(q + 1, n as int, m);
    } else {
      Monotone(n as int, q, m);
    }
  }

  lemma {:induction false} ValueBelow(digits: string)
    requires AllDigits(digits)
    ensures Value(digits) < Pow10(|digits|)
  {
    if digits != "" {
      ValueBelow(digits[..|digits| - 1]);
    }
  }

  lemma FloorIs(x: int, y: int, q: int)
    requires y > 0 && q * y <= x < (q + 1) * y
    ensures (x as real / y as real).Floor == q
  {
    var r, d := x as real / y as real, y as real;
    assert r * d == x as real;
    assert (q * y) as real == q as real * d;
    assert ((q + 1) * y) as real == (q + 1) as real * d;
    if r < q as real {
      RealMonotone(r, q as real, d);
    } else if r >= (q + 1) as real {
      RealMonotoneWeak((q + 1) as real, r, d);
    }
  }

  lemma RealMonotone(a: real, b: real, d: real)
    requires a < b && d > 0.0
    ensures a * d < b * d
  {
  }

  lemma RealMonotoneWeak(a: real, b: real, d: real)
    requires a <= b && d > 0.0
    ensures a * d <= b * d
  {
  }

  lemma ScaledQuotient(v: int, y: int, m: int)
    requires y > 0
    ensures v as real / y as real * m as real == (v * m) as real / y as real
  {
    var a, b, c := v as real, y as real, m as real;
    assert (v * m) as real == a * c;
    assert a / b * c == a * c / b;
  }

  lemma ScaledIsNat(v: nat, mul: nat, y: nat)
    requires y > 0
    ensures v * mul / y >= 0
  {
    QuotientBounds(v * mul, y);
    if v * mul / y < 0 {
      Monotone(v * mul / y + 1, 0, y);
    }
  }

  /** `v` of `y` parts of `mul`, rounded down. */
  function Scaled(v: nat, mul: nat, y: nat): nat
    requires y > 0
  {
    ScaledIsNat(v, mul, y);
    v * mul / y
  }

  /** A fraction of a unit, rounded down. */
  lemma FractionFloor(fraction: string, mul: nat)
    requires IsNumber(fraction) && mul > 0
    ensures Truncated(ParseFloat(fraction), mul) == Scaled(Value(fraction), mul, Pow10(|fraction|)) < mul
  {
    var v, y := Value(fraction), Pow10(|fraction|);
    ValueBelow(fraction);
    BelowOne(v, y, mul);
    ScaledFloor(v, y, mul);
  }

  lemma ScaledFloor(v: nat, y: nat, mul: nat)
    requires y > 0
    ensures Truncated(Ratio(v, y), mul) == Scaled(v, mul, y)
  {
    var x := v * mul;
    ScaledQuotient(v, y, mul);
    QuotientBounds(x, y);
    FloorIs(x, y, x / y);
  }

  lemma BelowOne(v: nat, y: nat, mul: nat)
    requires v < y && mul > 0
    ensures Scaled(v, mul, y) < mul
  {
    Monotone(v + 1, y, mul);
    QuotientBounds(v * mul, y);
    if v * mul / y >= mul {
      Monotone(mul, v * mul / y, y);
    }
  }

  // ---- What is answered ----

  /** What a fraction adds; of several only the last is read. */
  function MeantFraction(fractions: seq<string>, mul: nat): nat
    requires forall f :: f in fractions ==> IsNumber(f)
  {
    if fractions == [] then 0
    else
      var fraction := fractions[|fractions| - 1];
      assert fraction in fractions && IsNumber(fraction);
      Scaled(Value(fraction), mul, Pow10(|fraction|))
  }

  /** The bytes of the whole units and the complete bytes of the fraction. */
  function Meant(p: Parts, units: UnitMap): nat
    requires WellFormed(p)
  {
    var mul := Multiplier(p.prefix, units) as int;
    Value(p.whole) * mul + MeantFraction(p.fractions, mul)
  }

  lemma SumIsExact(intSize: int64, floatSize: int64, mul: int64)
    requires intSize >= 0 && floatSize >= 0 && mul > 0
    ensures var n := intSize as int * mul as int + floatSize as int;
            Sum(intSize, floatSize, mul) == if n <= MAX_INT64 then Bytes(n as int64) else TooLarge
  {
    GuardIff(intSize, mul);
  }

  lemma FloatSizeIsMeant(fractions: seq<string>, mul: int64)
    requires (forall f :: f in fractions ==> IsNumber(f)) && mul > 0
    ensures FloatSize(fractions, mul) as int == MeantFraction(fractions, mul as int)
  {
    if fractions != [] {
      FractionFloor(fractions[|fractions| - 1], mul as int);
    }
  }

  /** Exactly the sizes that fit are answered, and with exactly what was meant. */
  lemma SizeIsExact(p: Parts, units: UnitMap)
    requires WellFormed(p)
    ensures ParseSize(Written(p), units) ==
            if Meant(p, units) <= MAX_INT64 then Bytes(Meant(p, units) as int64) else TooLarge
  {
    WrittenMatches(p);
    var mul := Multiplier(p.prefix, units);
    FloatSizeIsMeant(p.fractions, mul);
    if Value(p.whole) <= MAX_INT64 {
      SumIsExact(Value(p.whole) as int64, FloatSize(p.fractions, mul), mul);
    } else {
      Monotone(1, mul as int, Value(p.whole));
    }
  }

  /** What comes before the last fraction is read over: "1.2.3" is 1.3. */
  lemma OnlyLastFractionCounts(p: Parts, units: UnitMap)
    requires WellFormed(p) && p.fractions != []
    ensures ParseSize(Written(p), units) == ParseSize(Written(p.(fractions := p.fractions[|p.fractions| - 1..])), units)
  {
    var q := p.(fractions := p.fractions[|p.fractions| - 1..]);
    assert q.fractions[0] in p.fractions;
    SizeIsExact(p, units);
    SizeIsExact(q, units);
  }

  lemma {:induction false} ValueConcat(a: string, b: string)
    requires AllDigits(a) && AllDigits(b)
    ensures AllDigits(a + b) && Value(a + b) == Value(a) * Pow10(|b|) + Value(b)
  {
    if b == "" {
      assert a + b == a;
    } else {
      var init, last := b[..|b| - 1], Digit(b[|b| - 1]);
      ValueConcat(a, init);
      assert Value(a + b) == Value(a + init) * 10 + last by {
        assert (a + b)[..|a + b| - 1] == a + init;
      }
      TimesTen(Value(a), Pow10(|init|), Value(init), last);
    }
  }

  lemma TimesTen(v: int, y: int, w: int, last: int)
    ensures (v * y + w) * 10 + last == v * (10 * y) + (w * 10 + last)
  {
  }

  /** With one fraction, the size is the decimal number times the unit, rounded down. */
  lemma OneFractionIsDecimal(p: Parts, fraction: string, units: UnitMap)
    requires WellFormed(p) && p.fractions == [fraction]
    ensures AllDigits(p.whole + fraction)
    ensures Meant(p, units) == Scaled(Value(p.whole + fraction), Multiplier(p.prefix, units) as int, Pow10(|fraction|))
  {
    assert fraction in p.fractions;
    ValueConcat(p.whole, fraction);
    WholeUnits(Value(p.whole), Value(fraction), Multiplier(p.prefix, units) as int, Pow10(|fraction|),
      Value(p.whole + fraction));
  }

  lemma WholeUnits(w: nat, v: nat, mul: nat, y: nat, n: nat)
    requires y > 0 && n == w * y + v
    ensures Scaled(n, mul, y) == w * mul + Scaled(v, mul, y)
  {
    var a, b := w * mul, v * mul;
    var q := b / y;
    QuotientBounds(b, y);
    assert n * mul == a * y + b by {
      assert w * y * mul == w * mul * y;
    }
    assert (a + q) * y == a * y + q * y;
    assert (a + q + 1) * y == a * y + (q + 1) * y;
    QuotientIs(a * y + b, y, a + q);
  }

  lemma ScaledMonotone(v: nat, m: nat, n: nat, y: nat)
    requires m <= n && y > 0
    ensures Scaled(v, m, y) <= Scaled(v, n, y)
  {
    assert v * m <= v * n;
    QuotientBounds(v * m, y);
    QuotientBounds(v * n, y);
    if v * n / y < v * m / y {
      Monotone(v * n / y + 1, v * m / y, y);
    }
  }

  /** Read in powers of 1024, a size means as many bytes as read in powers of 1000 or more, so what
      fits that way fits this way too. */
  lemma BinaryIsMore(p: Parts)
    requires WellFormed(p)
    ensures Meant(p, DECIMAL) <= Meant(p, BINARY)
    ensures RAMInBytes(Written(p)).Bytes? ==>
              FromHumanSize(Written(p)).Bytes? && FromHumanSize(Written(p)).n <= RAMInBytes(Written(p)).n
  {
    var m, n := Multiplier(p.prefix, DECIMAL) as int, Multiplier(p.prefix, BINARY) as int;
    assert m <= n;
    assert Value(p.whole) * m <= Value(p.whole) * n;
    if p.fractions != [] {
      var fraction := p.fractions[|p.fractions| - 1];
      assert fraction in p.fractions && IsNumber(fraction);
      ScaledMonotone(Value(fraction), m, n, Pow10(|fraction|));
    }
    SizeIsExact(p, DECIMAL);
    SizeIsExact(p, BINARY);
  }

  // ---- In terms of the text alone ----

  /** A size as it is spelled: digits, fractions, perhaps a space, the letter of the `power`-th unit, or
      none for 0, and the letters that may end it. */
  datatype Spelling = Spelling(whole: string, fractions: seq<string>, spaced: bool, power: nat, upper: bool,
                               i: string, b: string)

  predicate Proper(x: Spelling) {
    && IsNumber(x.whole) && (forall f :: f in x.fractions ==> IsNumber(f))
    && x.power <= 5 && x.i in ["", "i", "I"] && x.b in ["", "b", "B"]
  }

  function UnitLetter(x: Spelling): string
    requires x.power <= 5
  {
    if x.power == 0 then "" else [(if x.upper then "KMGTP" else "kmgtp")[x.power - 1]]
  }

  function Spelled(x: Spelling): string
    requires x.power <= 5
  {
    x.whole + (Dotted(x.fractions) + ((if x.spaced then " " else "") + (UnitLetter(x) + (x.i + x.b))))
  }

  function Power(base: nat, e: nat): (r: nat) {
    if e == 0 then 1 else base * Power(base, e - 1)
  }

  function Base(binary: bool): nat {
    if binary then 1024 else 1000
  }

  /** The digits without the point, and the places behind it; of several fractions only the last. */
  function Digits(x: Spelling): nat
    requires Proper(x)
  {
    if x.fractions == [] then Value(x.whole)
    else
      var last := x.fractions[|x.fractions| - 1];
      assert last in x.fractions;
      Value(x.whole) * Pow10(|last|) + Value(last)
  }

  function Places(x: Spelling): nat {
    if x.fractions == [] then 0 else |x.fractions[|x.fractions| - 1]|
  }

  function ToOption(s: string): Option<char> {
    if s == "" then None else Some(s[0])
  }

  function PartsOf(x: Spelling): Parts
    requires x.power <= 5
  {
    var space := if x.spaced then Some(' ') else None;
    Parts(x.whole, x.fractions, space, ToOption(UnitLetter(x)), ToOption(x.i), ToOption(x.b))
  }

  lemma SpelledIsWritten(x: Spelling)
    requires Proper(x)
    ensures WellFormed(PartsOf(x)) && Written(PartsOf(x)) == Spelled(x)
  {
  }

  lemma UnitIsPower(x: Spelling, binary: bool)
    requires Proper(x)
    ensures Multiplier(ToOption(UnitLetter(x)), UnitsOf(binary)) as int == Power(Base(binary), x.power)
  {
    assert Power(Base(binary), 5) == Base(binary) * Power(Base(binary), 4);
    assert Power(Base(binary), 4) == Base(binary) * Power(Base(binary), 3);
    assert Power(Base(binary), 3) == Base(binary) * Power(Base(binary), 2);
    assert Power(Base(binary), 2) == Base(binary) * Power(Base(binary), 1);
  }

  function Read(s: string, binary: bool): Outcome {
    if binary then RAMInBytes(s) else FromHumanSize(s)
  }

  lemma MeantIsFloor(x: Spelling, mul: nat)
    requires Proper(x) && mul > 0
    ensures Value(x.whole) * mul + MeantFraction(x.fractions, mul) == Scaled(Digits(x), mul, Pow10(Places(x)))
  {
    if x.fractions == [] {
      assert Digits(x) * mul / 1 == Digits(x) * mul;
    } else {
      var last := x.fractions[|x.fractions| - 1];
      assert last in x.fractions;
      WholeUnits(Value(x.whole), Value(last), mul, Pow10(|last|), Digits(x));
    }
  }

  /** Whether a quotient fits, without dividing. */
  lemma QuotientFits(x: nat, y: nat, max: nat)
    requires y > 0
    ensures x / y <= max <==> x < (max + 1) * y
  {
    QuotientBounds(x, y);
    if x / y <= max {
      Monotone(x / y + 1, max + 1, y);
    } else {
      Monotone(max + 1, x / y, y);
    }
  }

  /** The bytes meant, times ten to the number of places. */
  function Exact(x: Spelling, binary: bool): nat
    requires Proper(x)
  {
    Digits(x) * Power(Base(binary), x.power)
  }

  /** The greatest number that is not more than the quotient, or too large a one. */
  predicate GreatestBelow(exact: nat, places: nat, r: Outcome) {
    if exact < 0x8000_0000_0000_0000 * places
    then r.Bytes? && r.n as int * places <= exact < (r.n as int + 1) * places
    else r == TooLarge
  }

  /** A size is read as the greatest number of bytes that is not more than the number times that power
      of 1000 or 1024, if it fits 64 bits. */
  lemma SpelledIsRead(x: Spelling, binary: bool)
    requires Proper(x)
    ensures GreatestBelow(Exact(x, binary), Pow10(Places(x)), Read(Spelled(x), binary))
  {
    ReadIs(x, binary);
    FloorOutcome(Exact(x, binary), Pow10(Places(x)), Read(Spelled(x), binary));
  }

  lemma ReadIs(x: Spelling, binary: bool)
    requires Proper(x)
    ensures var n := Exact(x, binary) / Pow10(Places(x));
      0 <= n && Read(Spelled(x), binary) == if n <= MAX_INT64 then Bytes(n as int64) else TooLarge
  {
    SpelledIsWritten(x);
    SizeIsExact(PartsOf(x), UnitsOf(binary));
    SpelledMeans(x, binary);
  }

  function UnitsOf(binary: bool): UnitMap {
    if binary then BINARY else DECIMAL
  }

  lemma SpelledMeans(x: Spelling, binary: bool)
    requires Proper(x) && WellFormed(PartsOf(x))
    ensures Meant(PartsOf(x), UnitsOf(binary)) == Exact(x, binary) / Pow10(Places(x))
  {
    UnitIsPower(x, binary);
    MeantIsFloor(x, Power(Base(binary), x.power));
  }

  lemma FloorOutcome(exact: nat, places: nat, r: Outcome)
    requires places > 0 && exact / places >= 0
    requires r == if exact / places <= MAX_INT64 then Bytes((exact / places) as int64) else TooLarge
    ensures GreatestBelow(exact, places, r)
  {
    QuotientFits(exact, places, MAX_INT64);
    QuotientBounds(exact, places);
  }

  lemma InvalidIff(s: string, units: UnitMap)
    ensures ParseSize(s, units) == Invalid <==> Matches(s).None?
  {
  }

  /** What is not spelled so is refused. */
  lemma OthersRefused(s: string, binary: bool)
    ensures Read(s, binary) == Invalid <==> forall x :: Proper(x) ==> s != Spelled(x)
  {
    InvalidIff(s, UnitsOf(binary));
    forall x | Proper(x) && s == Spelled(x)
      ensures Matches(s).Some?
    {
      SpelledIsWritten(x);
      WrittenMatches(PartsOf(x));
    }
    if Matches(s).Some? {
      MatchesWritten(s, Matches(s).value);
      var x := SpellingOf(Matches(s).value);
    }
  }

  lemma SpellingOf(p: Parts) returns (x: Spelling)
    requires WellFormed(p)
    ensures Proper(x) && Spelled(x) == Written(p)
  {
    var power, upper := 0, false;
    if p.prefix.Some? {
      var c := p.prefix.value;
      upper := 'A' <= c <= 'Z';
      power := if c in {'k', 'K'} then 1 else if c in {'m', 'M'} then 2 else if c in {'g', 'G'} then 3
               else if c in {'t', 'T'} then 4 else 5;
    }
    x := Spelling(p.whole, p.fractions, p.space.Some?, power, upper, Letter(p.i), Letter(p.b));
  }

  // ---- Round trip ----

  function Decimal(n: nat): (s: string)
    ensures IsNumber(s)
  {
    if n < 10 then [('0' as int + n) as char] else Decimal(n / 10) + [('0' as int + n % 10) as char]
  }

  lemma {:induction false} ValueDecimal(n: nat)
    ensures Value(Decimal(n)) == n
  {
    if n >= 10 {
      ValueDecimal(n / 10);
      assert Decimal(n)[..|Decimal(n)| - 1] == Decimal(n / 10);
    } else {
      assert Decimal(n)[..0] == "";
    }
  }

  /** A number of units is read back as that many bytes times the unit, up to 2^63 - 1. */
  lemma DecimalReadsBack(n: nat, prefix: Option<char>, units: UnitMap)
    requires Among(prefix, PREFIXES)
    ensures var m := n * Multiplier(prefix, units) as int;
            ParseSize(Decimal(n) + Letter(prefix), units) == if m <= MAX_INT64 then Bytes(m as int64) else TooLarge
  {
    ValueDecimal(n);
    var p := Parts(Decimal(n), [], None, prefix, None, None);
    assert Written(p) == Decimal(n) + Letter(prefix);
    SizeIsExact(p, units);
  }
}
