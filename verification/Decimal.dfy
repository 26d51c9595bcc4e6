/** Fixed-point decimals: 16-bit values printed as decimal strings and read back. */
module Decimal {

  const PREC: int := 1000000
  const UINT16_MAX: int := 65535
  const NUL: char := 0 as char

  function Min(a: int, b: int): int {
    if a < b then a else b
  }

  predicate IsDigit(c: char) {
    '0' <= c <= '9'
  }

  predicate AllDigits(s: string) {
    forall i | 0 <= i < |s| :: IsDigit(s[i])
  }

  function DigitValue(c: char): (d: nat)
    requires IsDigit(c)
    ensures d <= 9
  {
    c as int - '0' as int
  }

  function DigitOf(d: nat): (c: char)
    requires d <= 9
    ensures IsDigit(c) && DigitValue(c) == d
  {
    ('0' as int + d) as char
  }

  // ---------------------------------------------------------------- what a decimal means

  // Digits, and maybe a dot and more digits.
  datatype Number = Number(whole: string, dot: bool, fraction: string) {
    predicate Legal() {
      whole != "" && AllDigits(whole) && AllDigits(fraction) && (!dot ==> fraction == "")
    }

    function Text(): string {
      whole + if dot then "." + fraction else ""
    }

    // No needless zero, no lone dot.
    predicate Canonical() {
      && Legal()
      && (|whole| > 1 ==> whole[0] != '0')
      && (dot ==> fraction != "" && fraction[|fraction| - 1] != '0')
    }

    ghost function Meaning(): real
      requires Legal()
    {
      IntegerFrom(0, whole) as real + FractionMeaning(fraction)
    }

    function Millionths(): int
      requires Legal()
    {
      IntegerFrom(0, whole) * PREC + FractionSum(fraction, PREC / 10)
    }
  }

  // The integer whose digits are those of acc followed by s.
  function IntegerFrom(acc: nat, s: string): nat
    requires AllDigits(s)
    decreases |s|
  {
    if s == "" then acc else IntegerFrom(10 * acc + DigitValue(s[0]), s[1..])
  }

  ghost function FractionMeaning(s: string): real
    requires AllDigits(s)
  {
    if s == "" then 0.0 else (DigitValue(s[0]) as real + FractionMeaning(s[1..])) / 10.0
  }

  // The digits weighted by m, m / 10, ... 1; any more are dropped.
  function FractionSum(s: string, m: nat): nat
    requires AllDigits(s)
  {
    if s == "" || m == 0 then 0 else DigitValue(s[0]) * m + FractionSum(s[1..], m / 10)
  }

  lemma {:induction false} FractionBelowOne(s: string)
    requires AllDigits(s)
    ensures 0.0 <= FractionMeaning(s) < 1.0
  {
    if s != "" {
      FractionBelowOne(s[1..]);
    }
  }

  predicate PowerOfTen(m: int) {
    m == 1 || m == 10 || m == 100 || m == 1000 || m == 10000 || m == 100000
    || m == 1000000 || m == 10000000 || m == 100000000
  }

  lemma Weighted(x: real, d: nat, rest: real, m: nat)
    requires 10.0 * x == d as real + rest
    ensures x * (10 * m) as real == (d * m) as real + rest * m as real
  {
    var r := m as real;
    assert (10 * m) as real == 10.0 * r;
    assert x * (10.0 * r) == (10.0 * x) * r;
    assert (d as real + rest) * r == d as real * r + rest * r;
    assert (d * m) as real == d as real * r;
  }

  ghost function Scaled(s: string, m: nat): real
    requires AllDigits(s)
  {
    FractionMeaning(s) * m as real
  }

  lemma ScaledStep(s: string, m: nat)
    requires AllDigits(s)
    ensures s == "" ==> Scaled(s, m) == 0.0 && Scaled(s, 10 * m) == 0.0
    ensures s != "" ==> Scaled(s, 10 * m) == (DigitValue(s[0]) * m) as real + Scaled(s[1..], m)
    ensures 0.0 <= Scaled(s, 1) < 1.0
  {
    FractionBelowOne(s);
    if s != "" {
      Weighted(FractionMeaning(s), DigitValue(s[0]), FractionMeaning(s[1..]), m);
    }
  }

  lemma {:induction false} FractionSumIsFloor(s: string, m: nat)
    requires AllDigits(s) && PowerOfTen(m)
    ensures FractionSum(s, m) as real <= Scaled(s, 10 * m) < (FractionSum(s, m) + 1) as real
  {
    hide Scaled, FractionMeaning;
    ScaledStep(s, m);
    if s != "" {
      if m > 1 {
        FractionSumIsFloor(s[1..], m / 10);
        assert 10 * (m / 10) == m;
      } else {
        ScaledStep(s[1..], 0);
      }
    }
  }

  // Reading keeps six digits of the fraction and drops the others.
  lemma MillionthsIsFloor(n: Number)
    requires n.Legal()
    ensures n.Millionths() == (n.Meaning() * 1000000.0).Floor
  {
    FractionSumIsFloor(n.fraction, PREC / 10);
  }

  // ---------------------------------------------------------------- printing

  // The digits of n from the one that weighs m down.
  function WholeDigits(n: nat, m: nat): (s: string)
    requires m == 0 || (PowerOfTen(m) && n < 10 * m)
    ensures AllDigits(s)
    decreases m
  {
    if m == 0 then "" else [DigitOf(n / m)] + WholeDigits(n % m, m / 10)
  }

  // The same, down to the last one that is not zero.
  function FractionDigits(n: nat, m: nat): (s: string)
    requires m == 0 || (PowerOfTen(m) && n < 10 * m)
    ensures AllDigits(s)
    decreases m
  {
    if n == 0 || m == 0 then "" else [DigitOf(n / m)] + FractionDigits(n % m, m / 10)
  }

  function TopPower(n: nat): (m: nat)
    requires n < 1000
    ensures PowerOfTen(m) && n < 10 * m && (n > 0 ==> m <= n)
  {
    if n < 10 then 1 else if n < 100 then 10 else 100
  }

  // So many millionths, in decimal.
  function Printed(v: nat): Number
    requires v < 1000 * PREC
  {
    Number(WholeDigits(v / PREC, TopPower(v / PREC)), v % PREC != 0, FractionDigits(v % PREC, PREC / 10))
  }

  lemma {:induction false} WholeDigitsDenote(acc: nat, n: nat, m: nat)
    requires PowerOfTen(m) && n < 10 * m
    ensures IntegerFrom(acc, WholeDigits(n, m)) == acc * (10 * m) + n
    decreases m
  {
    var d := n / m;
    assert WholeDigits(n, m)[1..] == WholeDigits(n % m, m / 10);
    DivMod(n, m);
    Shift(acc, d, m);
    if m > 1 {
      WholeDigitsDenote(10 * acc + d, n % m, m / 10);
    }
  }

  lemma Shift(acc: nat, d: nat, m: nat)
    requires PowerOfTen(m)
    ensures (10 * acc + d) * m == acc * (10 * m) + d * m
    ensures m > 1 ==> (10 * acc + d) * (10 * (m / 10)) == (10 * acc + d) * m
  {
    assert m > 1 ==> 10 * (m / 10) == m;
  }

  lemma DivMod(n: nat, m: nat)
    requires 0 < m
    ensures n == (n / m) * m + n % m && 0 <= n % m < m
  {}

  lemma {:induction false} FractionDigitsDenote(n: nat, m: nat)
    requires PowerOfTen(m) && n < 10 * m
    ensures FractionSum(FractionDigits(n, m), m) == n
    ensures Scaled(FractionDigits(n, m), 10 * m) == n as real
    ensures n > 0 ==> var s := FractionDigits(n, m); s != "" && s[|s| - 1] != '0'
    decreases m
  {
    hide Scaled, FractionMeaning;
    var s := FractionDigits(n, m);
    ScaledStep(s, m);
    if n > 0 {
      DivMod(n, m);
      assert s[1..] == FractionDigits(n % m, m / 10);
      if m > 1 {
        FractionDigitsDenote(n % m, m / 10);
        assert 10 * (m / 10) == m;
      } else {
        ScaledStep(s[1..], 1);
      }
    }
  }

  lemma {:induction false} FractionDigitsLength(n: nat, m: nat)
    requires PowerOfTen(m) && n < 10 * m
    ensures |FractionDigits(n, m)| <= Width(m)
    decreases m
  {
    if n > 0 && m > 1 {
      FractionDigitsLength(n % m, m / 10);
    }
  }

  function Width(m: nat): nat {
    if m == 0 then 0 else 1 + Width(m / 10)
  }

  lemma WholePrinted(n: nat)
    requires n < 1000
    ensures var s := WholeDigits(n, TopPower(n)); 1 <= |s| <= 3 && IntegerFrom(0, s) == n && (|s| > 1 ==> s[0] != '0')
  {
    WholeDigitsDenote(0, n, TopPower(n));
    assert TopPower(n) > 1 ==> n / TopPower(n) > 0;
  }

  lemma FractionPrinted(f: nat)
    requires f < PREC
    ensures var s := FractionDigits(f, PREC / 10);
      && FractionSum(s, PREC / 10) == f && FractionMeaning(s) * 1000000.0 == f as real
      && |s| <= 6 && (if f == 0 then s == "" else s != "" && s[|s| - 1] != '0')
  {
    FractionDigitsDenote(f, PREC / 10);
    FractionDigitsLength(f, PREC / 10);
    assert Width(PREC / 10) == 6;
  }

  // A printed number is the canonical text for its value, and it fits in eleven bytes with the final NUL.
  lemma PrintedDenotes(v: nat)
    requires v < 1000 * PREC
    ensures Printed(v).Canonical() && Printed(v).Meaning() == v as real / 1000000.0
    ensures Printed(v).Millionths() == v
    ensures |Printed(v).Text()| <= 10
  {
    hide WholeDigits, FractionDigits, IntegerFrom, FractionSum, FractionMeaning;
    WholePrinted(v / PREC);
    FractionPrinted(v % PREC);
  }

  // What is left to print when the next digit weighs m: the point comes before the first digit of the fraction.
  function Rest(value: nat, m: nat, started: bool): string
    requires m == 0 || (PowerOfTen(m) && value < 10 * m)
  {
    if m >= PREC then
      WholeDigits(value / PREC, m / PREC) + (if value % PREC != 0 then "." + FractionDigits(value % PREC, PREC / 10) else "")
    else if value == 0 then ""
    else if m == PREC / 10 then (if started then "." else "0.") + FractionDigits(value, m)
    else FractionDigits(value, m)
  }

  // What one digit adds to the output.
  function OneDigit(value: nat, m: nat, started: bool): (s: string)
    requires PowerOfTen(m) && value < 10 * m
    ensures s != ""
  {
    (if m != PREC / 10 then "" else if started then "." else "0.") + [DigitOf(value / m)]
  }

  lemma RestStep(value: nat, m: nat, started: bool)
    requires PowerOfTen(m) && value < 10 * m && (value != 0 || m >= PREC)
    ensures m / 10 == 0 || (PowerOfTen(m / 10) && value % m < 10 * (m / 10))
    ensures Rest(value, m, started) == OneDigit(value, m, started) + Rest(value % m, m / 10, true)
  {
    if m >= PREC {
      RestStepWhole(value, m, started);
    } else {
      RestStepFraction(value, m, started);
    }
  }

  lemma RestStepWhole(value: nat, m: nat, started: bool)
    requires PowerOfTen(m) && value < 10 * m && m >= PREC
    ensures value % m < 10 * (m / 10)
    ensures Rest(value, m, started) == OneDigit(value, m, started) + Rest(value % m, m / 10, true)
  {
    hide FractionDigits;
    WholeStep(value, m);
    var n, k, f := value / PREC, m / PREC, value % PREC;
    var fraction := if f != 0 then "." + FractionDigits(f, PREC / 10) else "";
    assert [DigitOf(n / k)] + WholeDigits(n % k, k / 10) + fraction
      == [DigitOf(n / k)] + (WholeDigits(n % k, k / 10) + fraction);
    assert k == 1 ==> WholeDigits(n % k, k / 10) + fraction == fraction;
  }

  lemma RestStepFraction(value: nat, m: nat, started: bool)
    requires PowerOfTen(m) && 0 < value < 10 * m && m < PREC
    ensures value % m < m && (m > 1 ==> value % m < 10 * (m / 10))
    ensures Rest(value, m, started) == OneDigit(value, m, started) + Rest(value % m, m / 10, true)
  {
    hide WholeDigits;
    var point := if m != PREC / 10 then "" else if started then "." else "0.";
    var more := FractionDigits(value % m, m / 10);
    assert point + ([DigitOf(value / m)] + more) == point + [DigitOf(value / m)] + more;
  }

  lemma WholeStep(value: nat, m: nat)
    requires PowerOfTen(m) && value < 10 * m && m >= PREC
    ensures (value / PREC) / (m / PREC) == value / m && (value % m) % PREC == value % PREC
    ensures (value / PREC) % (m / PREC) == (value % m) / PREC
    ensures (m / PREC) / 10 == (m / 10) / PREC && value % m < m == 10 * (m / 10)
  {}

  lemma RestOfAll(v: nat, m: nat)
    requires 0 < v < 1000 * PREC && PowerOfTen(m) && m <= v < 10 * m
    ensures m >= PREC / 10 ==> Printed(v).Text() == Rest(v, m, false)
    ensures m < PREC / 10 ==> Printed(v).Text() == "0." + FractionDigits(v, PREC / 10)
  {
    assert m >= PREC ==> TopPower(v / PREC) == m / PREC;
  }

  // The first i characters of out are those of text, all of them or as many as fit in size.
  ghost predicate Holds(out: array<char>, size: nat, i: nat, text: string)
    reads out
  {
    size <= out.Length && i == Min(|text|, size) && out[..i] == text[..i]
  }

  // One more character, if there is room for it.
  method Put(out: array<char>, size: nat, i: nat, c: char, ghost text: string) returns (j: nat)
    requires Holds(out, size, i, text)
    modifies out
    ensures Holds(out, size, j, text + [c]) && out[size..] == old(out[size..])
  {
    j := i;
    if i != size {
      out[i] := c;
      j := i + 1;
      assert out[..j] == out[..i] + [c];
    }
  }

  // The zeros between the point and the first digit, which weighs m.
  method PutZeros(out: array<char>, size: nat, start: nat, v: nat, m: nat, ghost text: string)
    returns (i: nat, ghost done: string)
    requires size <= out.Length && Holds(out, size, start, text) && PowerOfTen(m) && m <= v < 10 * m <= PREC / 10
    modifies out
    ensures Holds(out, size, i, done) && out[size..] == old(out[size..])
    ensures text <= done <= text + FractionDigits(v, PREC / 10)
    ensures i == size || done + FractionDigits(v, m) == text + FractionDigits(v, PREC / 10)
  {
    hide FractionDigits, Holds;
    i, done := start, text;
    var divider := 10;
    ghost var p: nat := PREC / 10;
    assert IsDivider(10, PREC / 10);
    while PREC / divider > m && i != size
      invariant IsDivider(divider, p) && m <= p && v < 10 * p && text <= done
      invariant Holds(out, size, i, done) && out[size..] == old(out[size..])
      invariant done + FractionDigits(v, p) == text + FractionDigits(v, PREC / 10)
      decreases p
    {
      DividerStep(divider, p);
      ZeroDigit(v, p);
      assert done + (['0'] + FractionDigits(v, p / 10)) == done + ['0'] + FractionDigits(v, p / 10);
      i := Put(out, size, i, '0', done);
      done := done + ['0'];
      divider := divider * 10;
      p := p / 10;
    }
  }

  // p is what the digit at that divider weighs.
  predicate IsDivider(divider: int, p: int) {
    || (divider == 10 && p == 100000) || (divider == 100 && p == 10000) || (divider == 1000 && p == 1000)
    || (divider == 10000 && p == 100) || (divider == 100000 && p == 10) || (divider == 1000000 && p == 1)
  }

  lemma DividerStep(divider: int, p: int)
    requires IsDivider(divider, p)
    ensures PREC / divider == p && PowerOfTen(p) && (p > 1 ==> IsDivider(divider * 10, p / 10) && PowerOfTen(p / 10))
  {}

  lemma ZeroDigit(v: nat, m: nat)
    requires PowerOfTen(m) && 0 < v < m
    ensures v < 10 * (m / 10) && FractionDigits(v, m) == ['0'] + FractionDigits(v, m / 10)
  {
    assert v / m == 0 && v % m == v;
  }

  // One digit, after the point if it is the first one of the fraction.
  method PutDigit(out: array<char>, size: nat, start: nat, value: nat, m: nat, ghost text: string)
    returns (i: nat, ghost done: string)
    requires Holds(out, size, start, text) && size > 1 && PowerOfTen(m) && value < 10 * m
    modifies out
    ensures Holds(out, size, i, done) && done == text + OneDigit(value, m, text != "") && out[size..] == old(out[size..])
  {
    assert (start == 0) == (text == "");
    DigitBound(value, m);
    hide Holds, PowerOfTen;
    i, done := start, text;
    var digit := DigitOf(value / m);
    if m == PREC / 10 {
      if i == 0 {
        i := Put(out, size, i, '0', done);
        done := done + ['0'];
      }
      i := Put(out, size, i, '.', done);
      done := done + ['.'];
      assert done + [digit] == text + OneDigit(value, m, text != "");
    }
    i := Put(out, size, i, digit, done);
    done := done + [digit];
  }

  lemma DigitBound(value: nat, m: nat)
    requires m > 0 && value < 10 * m
    ensures 0 <= value / m <= 9
  {}

  // all is done and what is left to print, at least up to size.
  ghost predicate Continues(size: nat, done: string, all: string, value: nat, m: nat)
    requires m == 0 || (PowerOfTen(m) && value < 10 * m)
  {
    if |done| >= size then |all| >= size && all[..size] == done[..size]
    else all == done + Rest(value, m, done != "")
  }

  lemma ContinuesDigit(size: nat, done: string, all: string, value: nat, m: nat)
    requires PowerOfTen(m) && value < 10 * m && (value != 0 || m >= PREC) && Continues(size, done, all, value, m)
    ensures m / 10 == 0 || value % m < 10 * (m / 10)
    ensures Continues(size, done + OneDigit(value, m, done != ""), all, value % m, m / 10)
  {
    hide Rest, OneDigit, PowerOfTen;
    RestStep(value, m, done != "");
    var digit := OneDigit(value, m, done != "");
    if |done| < size {
      Regroup(done, digit, Rest(value % m, m / 10, true), all, size);
    } else {
      assert (done + digit)[..size] == done[..size];
    }
  }

  lemma Regroup(a: string, b: string, c: string, all: string, size: nat)
    requires all == a + (b + c)
    ensures all == (a + b) + c && (|a + b| >= size ==> all[..size] == (a + b)[..size])
  {}

  lemma NothingLeft(size: nat, done: string, all: string, m: nat)
    requires m < PREC && (m == 0 || PowerOfTen(m)) && Continues(size, done, all, 0, m)
    ensures |done| < size ==> all == done
  {}

  // The digits from the one that weighs top on, until what is left is zero.
  method PutDigits(out: array<char>, size: nat, start: nat, v: nat, top: nat, ghost text: string, ghost all: string)
    returns (i: nat)
    requires size <= out.Length && Holds(out, size, start, text) && size > 1
    requires PowerOfTen(top) && 0 < v < 10 * top && Continues(size, text, all, v, top)
    modifies out
    ensures Holds(out, size, i, all) && out[size..] == old(out[size..])
  {
    hide Continues, OneDigit;
    i := start;
    var value: nat, multiplier: nat := v, top;
    ghost var done := text;
    while true
      invariant Holds(out, size, i, done) && out[size..] == old(out[size..])
      invariant PowerOfTen(multiplier) && value < 10 * multiplier && (value != 0 || multiplier >= PREC)
      invariant Continues(size, done, all, value, multiplier)
      decreases multiplier
    {
      ContinuesDigit(size, done, all, value, multiplier);
      i, done := PutDigit(out, size, i, value, multiplier, done);
      value, multiplier := value % multiplier, multiplier / 10;
      if (value == 0 && multiplier < PREC) || multiplier == 0 || i == size {
        HoldsAll(out, size, i, done, all, value, multiplier);
        return;
      }
    }
  }

  lemma HoldsAll(out: array<char>, size: nat, i: nat, done: string, all: string, value: nat, m: nat)
    requires m == 0 || (PowerOfTen(m) && value < 10 * m)
    requires Holds(out, size, i, done) && Continues(size, done, all, value, m)
    requires i == size || (value == 0 && m < PREC)
    ensures Holds(out, size, i, all)
  {
    if i != size {
      NothingLeft(size, done, all, m);
    }
  }

  // ---------------------------------------------------------------- 16-bit values

  // The millionths that stand for encoded, 65535 being the end of the range.
  function ValueOf(encoded: nat, range: nat): (v: nat)
    requires encoded <= UINT16_MAX
    ensures v <= range * PREC
  {
    ValueBound(encoded, range * PREC);
    encoded * (range * PREC) / UINT16_MAX
  }

  lemma ValueBound(x: nat, r: nat)
    requires x <= UINT16_MAX
    ensures 0 <= x * r / UINT16_MAX <= r
  {
    assert x * r <= UINT16_MAX * r;
  }

  // The closest value from below for so many millionths.
  function Encode(v: nat, range: nat): int
    requires range > 0
  {
    v * UINT16_MAX / (range * PREC)
  }

  lemma EncodeBound(v: nat, range: nat)
    requires range > 0 && v <= range * PREC
    ensures Encode(v, range) <= UINT16_MAX
  {
    var r, q := range * PREC, v * UINT16_MAX / (range * PREC);
    DivMod(v * UINT16_MAX, r);
    assert q > UINT16_MAX ==> q * r >= (UINT16_MAX + 1) * r;
  }

  // Printing and reading loses one unit unless the value has six decimals at most.
  lemma RoundTrip(x: nat, range: nat)
    requires x <= UINT16_MAX && 1 <= range <= 999
    ensures var n := Printed(ValueOf(x, range));
      n.Legal() && Encode(n.Millionths(), range) == if x * (range * PREC) % UINT16_MAX == 0 then x else x - 1
  {
    hide Printed;
    var r := range * PREC;
    var v := ValueOf(x, range);
    PrintedDenotes(v);
    DivMod(x * r, UINT16_MAX);
    FloorBack(x, r, v, x * r % UINT16_MAX);
  }

  lemma FloorBack(x: nat, r: nat, v: nat, lost: nat)
    requires v * UINT16_MAX == x * r - lost && lost <= UINT16_MAX < r
    ensures v * UINT16_MAX / r == if lost == 0 then x else x - 1
  {
    if lost == 0 {
      Quotient(x, r, 0);
    } else {
      assert x * r - lost == (x - 1) * r + (r - lost);
      Quotient(x - 1, r, r - lost);
    }
  }

  lemma Quotient(q: int, r: nat, rest: nat)
    requires rest < r
    ensures (q * r + rest) / r == q
  {
    var n := q * r + rest;
    var p := n / r;
    assert n == p * r + n % r;
    SameQuotient(q, p, r, rest, n % r);
  }

  lemma SameQuotient(q: int, p: int, r: nat, a: nat, b: nat)
    requires a < r && b < r && q * r + a == p * r + b
    ensures q == p
  {
    var d := p - q;
    assert d * r == a - b;
    assert d > 0 ==> d * r >= r;
    assert d < 0 ==> d * r <= 0 - r;
  }

  // out holds text, or as much of it as fits, and a NUL.
  ghost predicate HoldsString(out: array<char>, size: nat, text: string)
    reads out
  {
    1 <= size <= out.Length && var k := Min(|text|, size - 1); out[..k] == text[..k] && out[k] == NUL
  }

  method FindTop(value: nat) returns (m: nat)
    requires 0 < value < 1000 * PREC
    ensures PowerOfTen(m) && m <= value < 10 * m
  {
    m := 1;
    while value / (m * 10) != 0
      invariant PowerOfTen(m) && m <= value
      decreases value - m
    {
      m := m * 10;
    }
  }

  method PutNumber(out: array<char>, size: nat, value: nat) returns (i: nat)
    requires 0 < value < 1000 * PREC && 2 <= size <= out.Length
    modifies out
    ensures Holds(out, size, i, Printed(value).Text()) && out[size..] == old(out[size..])
  {
    hide Printed, Rest, FractionDigits, PowerOfTen;
    ghost var text := Printed(value).Text();
    var multiplier := FindTop(value);
    RestOfAll(value, multiplier);
    i := 0;
    ghost var done := "";
    if PREC / 10 > multiplier {
      out[0] := '0';
      i := Put(out, size, 1, '.', "0");
      TenTimes(multiplier);
      i, done := PutZeros(out, size, i, value, multiplier, "0.");
      ContinuesFraction(size, done, text, value, multiplier);
    }
    i := PutDigits(out, size, i, value, multiplier, done, text);
  }

  lemma TenTimes(m: nat)
    requires PowerOfTen(m) && m < PREC / 10
    ensures 10 * m <= PREC / 10
  {}

  // lgtd_jsonrpc_uint16_range_to_float_string(), for a range of stop - start
  method Uint16RangeToFloatString(encoded: nat, range: nat, out: array<char>, size: nat)
    requires encoded <= UINT16_MAX && 1 <= range <= 999 && 2 <= size <= out.Length
    modifies out
    ensures HoldsString(out, size, Printed(ValueOf(encoded, range)).Text()) && out[size..] == old(out[size..])
  {
    hide ValueOf;
    var value := ValueOf(encoded, range);
    if value == 0 {
      assert Printed(0).Text() == "0";
      out[0], out[1] := '0', NUL;
      return;
    }
    hide Printed;
    var i := PutNumber(out, size, value);
    out[Min(i, size - 1)] := NUL;
  }

  lemma ContinuesFraction(size: nat, done: string, text: string, v: nat, m: nat)
    requires PowerOfTen(m) && m <= v < 10 * m <= PREC / 10 && done != ""
    requires done <= text && (|done| >= size || done + FractionDigits(v, m) == text)
    ensures Continues(size, done, text, v, m)
  {}

  // ---------------------------------------------------------------- reading

  function FirstDot(t: string): (k: nat)
    ensures k <= |t| && '.' !in t[..k] && (k < |t| ==> t[k] == '.')
  {
    if t == "" || t[0] == '.' then 0 else 1 + FirstDot(t[1..])
  }

  // A text, taken apart at its first dot.
  function ToNumber(t: string): Number {
    var k := FirstDot(t);
    Number(t[..k], k < |t|, if k < |t| then t[k + 1..] else "")
  }

  lemma ToNumberInvertsText(n: Number)
    requires n.Legal()
    ensures ToNumber(n.Text()) == n
  {
    var t := n.Text();
    var k := FirstDot(t);
    assert n.dot ==> t[|n.whole|] == '.';
    assert '.' !in n.whole;
    assert k == |n.whole|;
  }

  // The digits of strtol(): their value and where they end.
  method ScanInteger(s: string, start: nat) returns (value: nat, end: nat)
    requires start <= |s|
    ensures start <= end <= |s| && AllDigits(s[start..end]) && (end < |s| ==> !IsDigit(s[end]))
    ensures value == IntegerFrom(0, s[start..end])
  {
    value, end := 0, start;
    while end < |s| && IsDigit(s[end])
      invariant start <= end <= |s| && AllDigits(s[start..end]) && value == IntegerFrom(0, s[start..end])
    {
      IntegerAppend(0, s[start..end], s[end]);
      assert s[start..end + 1] == s[start..end] + [s[end]];
      value := 10 * value + DigitValue(s[end]);
      end := end + 1;
    }
  }

  lemma {:induction false} IntegerAppend(acc: nat, s: string, c: char)
    requires AllDigits(s) && IsDigit(c)
    ensures AllDigits(s + [c]) && IntegerFrom(acc, s + [c]) == 10 * IntegerFrom(acc, s) + DigitValue(c)
    decreases |s|
  {
    if s != "" {
      IntegerAppend(10 * acc + DigitValue(s[0]), s[1..], c);
      assert (s + [c])[1..] == s[1..] + [c];
    } else {
      assert s + [c] == [c];
    }
  }

  // Where the digits of a number end in a longer text.
  lemma WholeEnds(s: string, len: nat, end: nat)
    requires len <= |s| && AllDigits(ToNumber(s[..len]).whole) && (len < |s| ==> !IsDigit(s[len]))
    requires end <= |s| && AllDigits(s[..end]) && (end < |s| ==> !IsDigit(s[end]))
    ensures var n := ToNumber(s[..len]); end == |n.whole| <= len && s[..end] == n.whole && (end != len <==> n.dot)
  {
    var n := ToNumber(s[..len]);
    var k := |n.whole|;
    assert n.whole == s[..k];
    assert forall i | 0 <= i < k :: IsDigit(n.whole[i]);
    assert k < |s| ==> !IsDigit(s[k]);
    assert !(k < end) && !(end < k);
  }

  // The characters after the dot weighted like digits, whatever they are.
  function CharSum(s: string, m: nat): int {
    if s == "" || m == 0 then 0 else (s[0] as int - '0' as int) * m + CharSum(s[1..], m / 10)
  }

  lemma {:induction false} CharSumOfDigits(s: string, m: nat)
    requires AllDigits(s)
    ensures CharSum(s, m) == FractionSum(s, m)
    decreases s
  {
    if s != "" && m != 0 { CharSumOfDigits(s[1..], m / 10); }
  }

  // Division as C does it.
  function Truncated(a: int, b: int): int
    requires b > 0
  {
    if a >= 0 then a / b else -((-a) / b)
  }

  // lgtd_jsonrpc_float_range_to_uint16(), for a range of stop - start, on a text that starts with digits; it may go
  // on after len. A decimal in range gives the closest value from below; for anything else behind the dot the sum is
  // what it is.
  method FloatRangeToUint16(s: string, len: nat, range: nat) returns (encoded: int)
    requires 0 < len <= |s| && 1 <= range <= 999 && (len < |s| ==> !IsDigit(s[len]))
    requires ToNumber(s[..len]).whole != "" && AllDigits(ToNumber(s[..len]).whole)
    ensures var n := ToNumber(s[..len]);
      && encoded == Truncated((IntegerFrom(0, n.whole) * PREC + CharSum(n.fraction, PREC / 10)) * UINT16_MAX, range * PREC)
      && (n.Legal() ==> encoded == Encode(n.Millionths(), range))
      && (n.Legal() && n.Millionths() <= range * PREC ==> encoded <= UINT16_MAX)
  {
    ghost var n := ToNumber(s[..len]);
    var intpart, dot := ScanInteger(s, 0);
    WholeEnds(s, len, dot);
    if n.Legal() {
      CharSumOfDigits(n.fraction, PREC / 10);
      if n.Millionths() <= range * PREC {
        EncodeBound(n.Millionths(), range);
      }
    }
    hide ToNumber, CharSum;
    var fracpart := 0;
    if dot != len && s[dot] == '.' {
      fracpart := ReadFraction(s, len, dot + 1);
    }
    encoded := Truncated((intpart * PREC + fracpart) * UINT16_MAX, range * PREC);
  }

  // The characters of the fraction from i on, six at most.
  method ReadFraction(s: string, len: nat, start: nat) returns (sum: int)
    requires start <= len <= |s|
    ensures sum == CharSum(s[start..len], PREC / 10)
  {
    hide CharSum;
    sum := 0;
    var i: nat, multiplier: nat := start, PREC / 10;
    while i != len && multiplier != 0
      invariant start <= i <= len
      invariant sum + CharSum(s[i..len], multiplier) == CharSum(s[start..len], PREC / 10)
    {
      CharSumStep(s[i..len], multiplier);
      assert s[i..len][1..] == s[i + 1..len];
      sum := sum + (s[i] as int - '0' as int) * multiplier;
      i, multiplier := i + 1, multiplier / 10;
    }
    CharSumStep(s[i..len], multiplier);
  }

  lemma CharSumStep(s: string, m: nat)
    ensures CharSum(s, m) == if s == "" || m == 0 then 0 else (s[0] as int - '0' as int) * m + CharSum(s[1..], m / 10)
  {}

  // A value printed into a buffer of eleven characters or more and read back is itself, or one less when its decimals
  // do not end within six places.
  method PrintAndRead(x: nat, range: nat, out: array<char>, size: nat) returns (y: int)
    requires x <= UINT16_MAX && 1 <= range <= 999 && 11 <= size <= out.Length
    modifies out
    ensures y == if x * (range * PREC) % UINT16_MAX == 0 then x else x - 1
  {
    hide Printed, ValueOf;
    ghost var n := Printed(ValueOf(x, range));
    Uint16RangeToFloatString(x, range, out, size);
    PrintedDenotes(ValueOf(x, range));
    PrintedIsInRange(x, range);
    RoundTrip(x, range);
    ToNumberInvertsText(n);
    var len := LengthOf(out, size, n);
    assert out[..][..len] == out[..len] == n.Text();
    y := FloatRangeToUint16(out[..], len, range);
  }

  // strlen()
  method LengthOf(out: array<char>, size: nat, ghost n: Number) returns (len: nat)
    requires n.Legal() && HoldsString(out, size, n.Text()) && |n.Text()| < size
    ensures len == |n.Text()| < out.Length && out[..len] == n.Text() && out[len] == NUL
  {
    ghost var t := n.Text();
    assert t[..|t|] == t;
    len := 0;
    while out[len] != NUL
      invariant len <= |t|
      decreases |t| - len
    {
      len := len + 1;
    }
    if len < |t| {
      assert out[..|t|][len] == t[len];
      NoNul(n, len);
    }
  }

  lemma NoNul(n: Number, i: nat)
    requires n.Legal() && i < |n.Text()|
    ensures n.Text()[i] != NUL
  {}

  // ---------------------------------------------------------------- range checks

  lemma {:induction false} IntegerGrows(acc: nat, s: string)
    requires AllDigits(s)
    ensures IntegerFrom(acc, s) >= acc
    decreases |s|
  {
    if s != "" {
      IntegerGrows(10 * acc + DigitValue(s[0]), s[1..]);
    }
  }

  ghost predicate AtMost(n: Number, max: nat) {
    n.Legal() && n.Meaning() <= max as real
  }

  // The first i digits of the whole part are zeros and a one at most, which is the last of them.
  ghost predicate WholeRead(n: Number, i: nat, one: bool) {
    && i <= |n.whole| && AllDigits(n.whole[..i])
    && (AllDigits(n.whole) ==> IntegerFrom(0, n.whole) == IntegerFrom(if one then 1 else 0, n.whole[i..]))
  }

  // The whole part is zero or one; the first j digits of the fraction are zeros if it is one.
  ghost predicate FractionRead(n: Number, j: nat, one: bool) {
    && AllDigits(n.whole) && IntegerFrom(0, n.whole) == (if one then 1 else 0)
    && j <= |n.fraction| && AllDigits(n.fraction[..j])
    && (one && AllDigits(n.fraction) ==> (FractionMeaning(n.fraction) == 0.0 <==> FractionMeaning(n.fraction[j..]) == 0.0))
  }

  lemma WholeReadStep(n: Number, i: nat, one: bool)
    requires WholeRead(n, i, one) && i < |n.whole|
    ensures one || (n.whole[i] != '0' && n.whole[i] != '1') ==> !AtMost(n, 1)
    ensures !one && (n.whole[i] == '0' || n.whole[i] == '1') ==> WholeRead(n, i + 1, n.whole[i] == '1')
  {
    assert n.whole[i..][1..] == n.whole[i + 1..];
    assert n.whole[..i + 1] == n.whole[..i] + [n.whole[i]];
    if n.Legal() {
      FractionBelowOne(n.fraction);
      IntegerGrows((if one then 10 else 0) + DigitValue(n.whole[i]), n.whole[i + 1..]);
    }
  }

  lemma FractionReadStep(n: Number, j: nat, one: bool)
    requires FractionRead(n, j, one) && j < |n.fraction|
    ensures !IsDigit(n.fraction[j]) || (one && n.fraction[j] != '0') ==> !AtMost(n, 1)
    ensures IsDigit(n.fraction[j]) && (!one || n.fraction[j] == '0') ==> FractionRead(n, j + 1, one)
  {
    assert n.fraction[j..][1..] == n.fraction[j + 1..];
    assert n.fraction[..j + 1] == n.fraction[..j] + [n.fraction[j]];
    if n.Legal() {
      FractionBelowOne(n.fraction);
      FractionBelowOne(n.fraction[j..]);
      FractionBelowOne(n.fraction[j + 1..]);
    }
  }

  lemma AllRead(n: Number, one: bool)
    requires n.whole != "" && (n.dot ==> FractionRead(n, |n.fraction|, one))
    requires !n.dot ==> n.fraction == "" && WholeRead(n, |n.whole|, one)
    ensures AtMost(n, 1)
  {
    assert n.whole[..|n.whole|] == n.whole && n.fraction[..|n.fraction|] == n.fraction;
    FractionBelowOne(n.fraction);
  }

  lemma DotRead(n: Number, one: bool)
    requires WholeRead(n, |n.whole|, one)
    ensures FractionRead(n, 0, one)
  {
    assert n.whole[..|n.whole|] == n.whole && n.fraction[0..] == n.fraction;
  }

  // lgtd_jsonrpc_type_float_between_0_and_1(), for a primitive, which never starts with a dot
  method FloatBetween0And1(t: string) returns (ok: bool)
    requires t != "" && t[0] != '.'
    ensures ok <==> AtMost(ToNumber(t), 1)
  {
    hide WholeRead, FractionRead, AtMost;
    ghost var n := ToNumber(t);
    ghost var k := |n.whole|;
    var i, dotSeen, firstDigitIsOne := 0, false, false;
    assert WholeRead(n, 0, false) by { NoneRead(n); }
    while i < |t|
      invariant 0 <= i <= |t| && dotSeen == (i > k)
      invariant if dotSeen then FractionRead(n, i - k - 1, firstDigitIsOne) else WholeRead(n, i, firstDigitIsOne)
    {
      if dotSeen {
        FractionReadStep(n, i - k - 1, firstDigitIsOne);
      } else if i < k {
        WholeReadStep(n, i, firstDigitIsOne);
      } else {
        DotRead(n, firstDigitIsOne);
      }
      if t[i] == '.' {
        if dotSeen {
          return false;
        }
        dotSeen := true;
      } else if dotSeen {
        if !IsDigit(t[i]) {
          return false;
        }
        if firstDigitIsOne && t[i] != '0' {
          return false;
        }
      } else {
        if firstDigitIsOne {
          return false;
        } else if t[i] == '1' {
          firstDigitIsOne := true;
        } else if t[i] != '0' {
          return false;
        }
      }
      i := i + 1;
    }
    AllRead(n, firstDigitIsOne);
    return true;
  }

  lemma NoneRead(n: Number)
    ensures WholeRead(n, 0, false)
  {
    assert n.whole[0..] == n.whole;
  }

  const LONG_MAX: int := 0x7fff_ffff_ffff_ffff

  lemma {:induction false} ZeroFraction(s: string)
    requires AllDigits(s)
    ensures FractionMeaning(s) == 0.0 <==> IntegerFrom(0, s) == 0
  {
    if s != "" {
      FractionBelowOne(s[1..]);
      IntegerGrows(DigitValue(s[0]), s[1..]);
      ZeroFraction(s[1..]);
    }
  }

  predicate IsBlank(c: char) {
    c == ' ' || 9 <= c as int <= 13
  }

  predicate IsSign(c: char) {
    c == '+' || c == '-'
  }

  // Where the digits of a number would start: after blanks and maybe a sign.
  function AfterBlanks(s: string, start: nat): (p: nat)
    requires start <= |s|
    ensures start <= p <= |s| && (p < |s| ==> !IsBlank(s[p]))
    decreases |s| - start
  {
    if start < |s| && IsBlank(s[start]) then AfterBlanks(s, start + 1) else start
  }

  function AfterSign(s: string, start: nat): (p: nat)
    requires start <= |s|
    ensures start <= p <= |s|
  {
    var p := AfterBlanks(s, start);
    if p < |s| && IsSign(s[p]) then p + 1 else p
  }

  predicate NumberAt(s: string, start: nat)
    requires start <= |s|
  {
    AfterSign(s, start) < |s| && IsDigit(s[AfterSign(s, start)])
  }

  // Digits from p to end, as many as there are.
  ghost predicate DigitRun(s: string, p: nat, end: nat) {
    p < end <= |s| && AllDigits(s[p..end]) && (end < |s| ==> !IsDigit(s[end]))
  }

  // The number that is read at start and where it ends, whether it does not fit in a long; without digits nothing is
  // read.
  ghost predicate Reads(s: string, start: nat, value: int, end: nat, erange: bool) {
    && start <= |s|
    && if !NumberAt(s, start) then value == 0 && end == start && !erange
       else
         var p := AfterSign(s, start);
         && DigitRun(s, p, end) && erange == !(-LONG_MAX - 1 <= value <= LONG_MAX)
         && value == IntegerFrom(0, s[p..end]) * if p > start && s[p - 1] == '-' then -1 else 1
  }

  // strtol() in base 10, with errno
  method Strtol(s: string, start: nat) returns (value: int, end: nat, erange: bool)
    requires start <= |s|
    ensures Reads(s, start, value, end, erange)
  {
    var p := start;
    while p < |s| && IsBlank(s[p])
      invariant start <= p <= |s| && AfterBlanks(s, p) == AfterBlanks(s, start)
      invariant p > start ==> IsBlank(s[p - 1])
    {
      p := p + 1;
    }
    var negative := false;
    if p < |s| && IsSign(s[p]) {
      negative := s[p] == '-';
      p := p + 1;
    }
    if p == |s| || !IsDigit(s[p]) {
      return 0, start, false;
    }
    var v;
    v, end := ScanInteger(s, p);
    value := v;
    if negative {
      value := -value;
    }
    erange := value > LONG_MAX || value < -LONG_MAX - 1;
  }

  // What is behind the dot, when there is something: digits, maybe with a sign, that fit in a long and stay in the
  // range.
  predicate FractionPasses(n: Number, max: nat)
    requires AllDigits(n.whole) && n.fraction != ""
  {
    var d := if IsSign(n.fraction[0]) then n.fraction[1..] else n.fraction;
    && d != "" && AllDigits(d) && IntegerFrom(0, d) <= LONG_MAX
    && (IntegerFrom(0, d) == 0 || (n.fraction[0] != '-' && IntegerFrom(0, n.whole) < max))
  }

  // A text of digits up to 360. A dot with nothing behind it passes unless the text goes on with a number.
  predicate Passes360(s: string, len: nat)
    requires len <= |s|
  {
    var n := ToNumber(s[..len]);
    && n.whole != "" && AllDigits(n.whole) && IntegerFrom(0, n.whole) <= 360
    && (n.dot ==> if n.fraction == "" then !NumberAt(s, len) else FractionPasses(n, 360))
  }

  // A primitive holds no blanks and does not stop before a digit.
  ghost predicate IsPrimitive(s: string, len: nat) {
    0 < len <= |s| && (forall i | 0 <= i < len :: !IsBlank(s[i])) && (len < |s| ==> !IsDigit(s[len]))
  }

  // Digits do not run over the end of a primitive.
  lemma RunEnds(s: string, len: nat, p: nat, end: nat)
    requires IsPrimitive(s, len) && p <= len && DigitRun(s, p, end)
    ensures p < end <= len && (end == len <==> AllDigits(s[p..len]))
  {
    forall i | p <= i < end ensures IsDigit(s[i]) {
      assert s[i] == s[p..end][i - p];
    }
    if end < len {
      assert s[p..len][end - p] == s[end];
    }
  }

  // What the digits at the beginning say about the text taken apart at its dot.
  lemma WholePart(s: string, len: nat, end: nat)
    requires IsPrimitive(s, len) && DigitRun(s, 0, end)
    ensures end <= len && var n := ToNumber(s[..len]);
      && (AllDigits(n.whole) <==> end == len || s[end] == '.')
      && (AllDigits(n.whole) ==>
            n.whole == s[..end] && (n.dot <==> end != len) && (n.dot ==> n.fraction == s[end + 1..len]))
  {
    RunEnds(s, len, 0, end);
    assert s[0..end] == s[..end];
    var t := s[..len];
    var n, k := ToNumber(t), FirstDot(t);
    forall i | 0 <= i < end ensures IsDigit(s[i]) {
      assert s[i] == s[0..end][i];
    }
    assert k >= end;
    assert n.whole == s[..k];
    if k > end {
      assert n.whole[end] == s[end];
    }
  }

  lemma NotDigitFirst(s: string, len: nat)
    requires IsPrimitive(s, len) && !IsDigit(s[0])
    ensures !Passes360(s, len)
  {
    var n := ToNumber(s[..len]);
    if n.whole != "" {
      assert n.whole[0] == s[0];
    }
  }

  lemma AtFirst(s: string, len: nat)
    requires IsPrimitive(s, len)
    ensures AfterSign(s, 0) == if IsSign(s[0]) then 1 else 0
    ensures IsDigit(s[0]) ==> NumberAt(s, 0)
  {}

  // What the second strtol() finds behind the dot.
  lemma FractionPart(s: string, len: nat, start: nat, n: Number, value: int, end: nat, erange: bool)
    requires IsPrimitive(s, len) && 0 < start <= len && n.fraction == s[start..len] && AllDigits(n.whole)
    requires Reads(s, start, value, end, erange)
    ensures (end == len && !erange && value >= 0 && (IntegerFrom(0, n.whole) < 360 || value == 0))
       <==> if n.fraction == "" then !NumberAt(s, start) else FractionPasses(n, 360)
  {
    hide IntegerFrom;
    if start < len {
      var f := n.fraction;
      assert f[0] == s[start] && !IsBlank(s[start]);
      var p := AfterSign(s, start);
      assert p == if IsSign(f[0]) then start + 1 else start;
      assert s[p..len] == if IsSign(f[0]) then f[1..] else f;
      if NumberAt(s, start) {
        RunEnds(s, len, p, end);
      } else if p < len {
        assert s[p..len][0] == s[p];
      }
    }
  }

  // lgtd_jsonrpc_type_float_between_0_and_360(), for a primitive of that length
  method FloatBetween0And360(s: string, len: nat) returns (ok: bool)
    requires IsPrimitive(s, len)
    ensures ok <==> Passes360(s, len)
  {
    hide ToNumber, FractionPasses, IntegerFrom, AfterSign;
    ghost var n := ToNumber(s[..len]);
    var c := s[0];
    AtFirst(s, len);
    if !IsDigit(c) {
      NotDigitFirst(s, len);
    }
    if c != '-' && (c > '9' || c < '0') {
      return false;
    }
    var intpart, endptr, erange := Strtol(s, 0);
    if IsDigit(c) {
      WholePart(s, len, endptr);
    }
    if (endptr != len && s[endptr] != '.') || erange || intpart < 0 || intpart > 360 || (intpart == 0 && c == '-') {
      return false;
    }
    if endptr == len {
      return true;
    }
    var fracpart, end;
    fracpart, end, erange := Strtol(s, endptr + 1);
    FractionPart(s, len, endptr + 1, n, fracpart, end, erange);
    return end == len && !erange && fracpart >= 0 && (intpart < 360 || fracpart == 0);
  }

  // A decimal passes if and only if it is at most 360 and its fraction, taken for an integer, fits in a long.
  lemma DecimalPasses(s: string, len: nat)
    requires IsPrimitive(s, len) && var n := ToNumber(s[..len]); n.Legal() && (n.dot ==> n.fraction != "")
    ensures Passes360(s, len) <==> AtMost(ToNumber(s[..len]), 360) && IntegerFrom(0, ToNumber(s[..len]).fraction) <= LONG_MAX
  {
    var n := ToNumber(s[..len]);
    hide ToNumber, IntegerFrom, FractionMeaning;
    FractionBelowOne(n.fraction);
    ZeroFraction(n.fraction);
    if n.fraction == "" {
      NoDigits();
    }
  }

  lemma NoDigits()
    ensures IntegerFrom(0, "") == 0 && FractionMeaning("") == 0.0
  {}

  // A sign behind the dot passes, and is then taken for a digit: 0.+5 is encoded as -81 for a range of 360.
  lemma SignBehindDot()
    ensures Passes360("0.+5", 4) && !ToNumber("0.+5").Legal()
    ensures Truncated((IntegerFrom(0, "0") * PREC + CharSum("+5", PREC / 10)) * UINT16_MAX, 360 * PREC) == -81
  {
    var t := "0.+5";
    assert t[..4] == t;
    assert FirstDot(t[1..]) == 0 && FirstDot(t) == 1;
    assert ToNumber(t) == Number("0", true, "+5");
    assert "+5"[1..] == "5";
    assert IntegerFrom(0, "5") == 5 && IntegerFrom(0, "0") == 0;
    assert CharSum("5", PREC / 100) == 5 * (PREC / 100) + CharSum("", PREC / 1000);
    assert CharSum("+5", PREC / 10) == -450000;
    assert !IsDigit("+5"[0]);
  }

  // What is printed is accepted when it is read.
  lemma PrintedIsInRange(x: nat, range: nat)
    requires x <= UINT16_MAX && 1 <= range <= 999
    ensures var n := Printed(ValueOf(x, range)); AtMost(n, range) && n.Millionths() <= range * PREC
  {
    hide Printed;
    PrintedDenotes(ValueOf(x, range));
  }
}
