/** How the logger writes integers. All arithmetic of the source is on 64-bit words. */
module WriteInt {
  import opened Arithmetic

  const TWO_TO_THE_64: nat := 0x1_0000_0000_0000_0000
  const TWO_TO_THE_63: nat := 0x8000_0000_0000_0000
  const TWO_TO_THE_32: nat := 0x1_0000_0000
  const TWO_TO_THE_31: nat := 0x8000_0000

  type Word = n: nat | n < TWO_TO_THE_64

  function Pow(base: nat, k: nat): nat {
    if k == 0 then 1 else base * Pow(base, k - 1)
  }

  // ----- reading -----

  datatype Parsed = Number(value: int) | NotANumber

  function DigitValue(c: char): nat {
    if '0' <= c <= '9' then c as nat - '0' as nat
    else if 'a' <= c <= 'z' then c as nat - 'a' as nat + 10
    else 36
  }

  function ParseDigits(s: string, base: nat): (r: Parsed)
    ensures r.Number? ==> r.value >= 0
  {
    if s == "" then Number(0)
    else
      var high := ParseDigits(s[..|s| - 1], base);
      var digit := DigitValue(s[|s| - 1]);
      if high.Number? && digit < base then
        MulNat(high.value, base);
        Number(high.value * base + digit)
      else NotANumber
  }

  function ParseSigned(t: string, base: nat): Parsed {
    if t == "" || t == "-" then NotANumber
    else if t[0] == '-' then
      var magnitude := ParseDigits(t[1..], base);
      if magnitude.Number? then Number(-magnitude.value) else NotANumber
    else ParseDigits(t, base)
  }

  /** What follows the prefix of a hexadecimal number. */
  function Unprefixed(s: string, base: nat): string {
    if base != 16 then s else if "0x" <= s then s[2..] else ""
  }

  /** A number as the logger writes it: the sign comes after the prefix. */
  function Parse(s: string, base: nat): Parsed {
    ParseSigned(Unprefixed(s, base), base)
  }

  /** Which digits a number has: the i-th of k digits is the one with the weight base^(k-1-i). */
  lemma {:induction false} DigitAt(s: string, base: nat, n: nat, i: nat)
    requires 1 < base <= 16 && ParseDigits(s, base) == Number(n) && i < |s|
    ensures Pow(base, |s| - 1 - i) > 0
    ensures s[i] == "0123456789abcdef"[n / Pow(base, |s| - 1 - i) % base]
  {
    var last, high := |s| - 1, ParseDigits(s[..|s| - 1], base).value;
    var digit := DigitValue(s[last]);
    DigitNamed(s[last], digit);
    PowGrows(base, last - i, last - i);
    DivModUnique(n, base, high, digit);
    if i < last {
      DigitAt(s[..last], base, high, i);
      DivideTwice(n, base, Pow(base, last - 1 - i));
    } else {
      assert Pow(base, 0) == 1;
    }
  }

  lemma DigitNamed(c: char, digit: nat)
    requires DigitValue(c) == digit < 16
    ensures c == "0123456789abcdef"[digit]
  {
  }

  lemma DivideTwice(n: nat, a: nat, b: nat)
    requires a > 0 && b > 0
    ensures a * b > 0 && n / (a * b) == n / a / b
  {
    var q, r := n / a, n % a;
    var q', r' := q / b, q % b;
    MulMonotone(1, b, a);
    MulMonotoneRight(a, r', b - 1);
    assert a * (b - 1) == a * b - a;
    assert n == q * a + r && q == q' * b + r';
    assert q * a == q' * b * a + r' * a;
    assert q' * b * a == q' * (a * b);
    assert a * r' + r < a * b;
    DivModUnique(n, a * b, q', a * r' + r);
  }

  // ----- the value that a word stands for -----

  function ToSigned64(data: Word): int {
    if data < TWO_TO_THE_63 then data else data - TWO_TO_THE_64
  }

  function ToSigned32(data: Word): int {
    var low := data % TWO_TO_THE_32;
    if low < TWO_TO_THE_31 then low else low - TWO_TO_THE_32
  }

  function Meaning(data: Word, is64Bit: bool, isSigned: bool): int {
    if !isSigned then data else if is64Bit then ToSigned64(data) else ToSigned32(data)
  }

  /** Two's complement: the value within the range of its type that the low bits of the word are congruent to. */
  lemma MeaningIsCongruent(data: Word, is64Bit: bool, isSigned: bool)
    ensures var v := Meaning(data, is64Bit, isSigned);
      && (!isSigned ==> v == data)
      && (isSigned && is64Bit ==>
            -0x8000_0000_0000_0000 <= v < 0x8000_0000_0000_0000 && (v - data) % 0x1_0000_0000_0000_0000 == 0)
      && (isSigned && !is64Bit ==> -0x8000_0000 <= v < 0x8000_0000 && (v - data) % 0x1_0000_0000 == 0)
  {
    var q := data / TWO_TO_THE_32;
    assert data % TWO_TO_THE_32 - data == -q * TWO_TO_THE_32;
    assert data % TWO_TO_THE_32 - TWO_TO_THE_32 - data == (-q - 1) * TWO_TO_THE_32;
  }

  /** The largest power of the base in a word. */
  function Limit(base: nat): nat {
    if base == 16 then 0x1000_0000_0000_0000 else 10_000_000_000_000_000_000
  }

  /** The words that can be written. The negation of the least 64-bit integer is not defined. */
  predicate CanWrite(data: Word, is64Bit: bool, isSigned: bool, base: nat) {
    var v := Meaning(data, is64Bit, isSigned);
    -(Limit(base) as int) < v < Limit(base) && v + TWO_TO_THE_63 != 0
  }

  // ----- writing -----

  /** `Undefined` stands for a division by zero or a signed overflow. */
  datatype Written = Text(text: string) | Undefined

  function DigitChar(digit: nat): char {
    if digit < 10 then ('0' as nat + digit) as char else (('a' as nat + (digit - 10)) % 256) as char
  }

  /** The largest power of the base that fits a word is the `LastPower(base)`-th. */
  function LastPower(base: nat): nat {
    if base == 16 then 15 else 19
  }

  /** Multiplication of words. */
  function Times(a: Word, b: nat): Word {
    a * b % TWO_TO_THE_64
  }

  function PowWord(base: nat, k: nat): Word {
    Pow(base, k) % TWO_TO_THE_64
  }

  lemma PowMod(base: nat, k: nat)
    ensures PowWord(base, k + 1) == Times(PowWord(base, k), base)
  {
    ModTimes(Pow(base, k), base, TWO_TO_THE_64);
  }

  lemma ModTimes(a: nat, b: nat, m: nat)
    requires m > 0
    ensures a * b % m == a % m * b % m
  {
    var q, r := a / m, a % m;
    assert a * b == r * b + q * b * m;
    ModPlus(r * b, q * b, m);
  }

  lemma {:induction false} ModPlus(a: nat, q: nat, m: nat)
    requires m > 0
    ensures (a + q * m) % m == a % m
  {
    if q > 0 {
      ModPlus(a, q - 1, m);
      assert a + q * m == a + (q - 1) * m + m;
      AddModulus(a + (q - 1) * m, m);
    }
  }

  lemma {:induction false} PowAdd(base: nat, k: nat, n: nat)
    ensures Pow(base, k + n) == Pow(base, k) * Pow(base, n) && Pow(base, 0) == 1 && Pow(base, 1) == base
  {
    if n > 0 {
      PowAdd(base, k, n - 1);
      assert Pow(base, k + n) == base * Pow(base, k + (n - 1));
    }
  }

  lemma {:induction false} PowGrows(base: nat, k: nat, n: nat)
    requires base > 0 && k <= n
    ensures 0 < Pow(base, k) <= Pow(base, n)
    decreases n
  {
    if k < n {
      PowGrows(base, k, n - 1);
    } else if k > 0 {
      PowGrows(base, k - 1, k - 1);
    }
  }

  lemma LastPowers()
    ensures Pow(10, 19) == Limit(10) && Pow(10, 20) > TWO_TO_THE_64 && Pow(10, 64) % TWO_TO_THE_64 == 0
    ensures Pow(16, 15) == Limit(16) && Pow(16, 16) == TWO_TO_THE_64
  {
    SmallPowers();
    PowAdd(10, 8, 8);
    PowAdd(10, 16, 3);
    PowAdd(10, 19, 1);
    PowAdd(10, 16, 16);
    PowAdd(10, 32, 32);
    assert Pow(10, 64) == 542101086242752217003726400434970855712890625 * TWO_TO_THE_64;
    ModPlus(0, 542101086242752217003726400434970855712890625, TWO_TO_THE_64);
    PowAdd(16, 8, 7);
    PowAdd(16, 8, 8);
  }

  lemma SmallPowers()
    ensures Pow(10, 3) == 1000 && Pow(10, 8) == 100_000_000 && Pow(16, 7) == 0x1000_0000 && Pow(16, 8) == 0x1_0000_0000
  {
    assert Pow(10, 4) == 10_000 && Pow(16, 4) == 0x1_0000;
  }

  lemma SmallMod(n: nat)
    requires n < TWO_TO_THE_64
    ensures n % TWO_TO_THE_64 == n
  {
  }

  /** What is known of the powers that the search goes through. */
  lemma PowerFacts(base: nat, k: nat)
    requires base == 10 || base == 16
    ensures k <= LastPower(base) ==> PowWord(base, k) == Pow(base, k) && 0 < Pow(base, k) <= Limit(base)
    ensures k == (if base == 16 then 16 else 64) ==> PowWord(base, k) == 0
    ensures k == LastPower(base) ==> Pow(base, k) == Limit(base)
  {
    LastPowers();
    if k <= LastPower(base) {
      PowGrows(base, k, LastPower(base));
      SmallMod(Pow(base, k));
    }
  }

  lemma QuotientZero(n: nat, m: nat)
    requires m > 0
    ensures Quotient(n, m) == 0 <==> n < m
  {
    if n < m {
      DivModUnique(n, m, 0, n);
    }
  }

  /** Powers of the base, modulo the word size: the least one above `data`, if the search gets that far. */
  method FindMaxBase(data: Word, base: nat) returns (maxBase: nat, ghost k: nat)
    requires base == 10 || base == 16
    ensures maxBase < TWO_TO_THE_64 && k > 0 && maxBase == PowWord(base, k)
    ensures maxBase > 0 ==> data < maxBase
    ensures data < Limit(base) ==> maxBase == Pow(base, k) > data && (k == 1 || Pow(base, k - 1) <= data)
    ensures data >= Limit(base) && base == 16 ==> maxBase == 0
  {
    maxBase, k := base, 1;
    SearchBegins(data, base);
    while maxBase != 0 && Quotient(data, maxBase) != 0
      invariant Searching(data, base, k, maxBase)
      decreases 64 - k
    {
      SearchStep(data, base, k, maxBase);
      maxBase, k := Times(maxBase, base), k + 1;
    }
    PowerFacts(base, k);
    if maxBase > 0 {
      QuotientZero(data, maxBase);
    }
  }

  /** All powers before the k-th were found to be at most `data`. */
  ghost predicate Searching(data: Word, base: nat, k: nat, maxBase: nat) {
    && maxBase < TWO_TO_THE_64 && k > 0 && maxBase == PowWord(base, k)
    && (k <= LastPower(base) ==> maxBase == Pow(base, k) && (k == 1 || Pow(base, k - 1) <= data))
    && (k > LastPower(base) ==> data >= Limit(base))
    && k <= 64 && (base == 16 ==> k <= 16)
  }

  lemma SearchBegins(data: Word, base: nat)
    requires base == 10 || base == 16
    ensures Searching(data, base, 1, base)
  {
    PowerFacts(base, 1);
    assert Pow(base, 1) == base;
  }

  lemma SearchStep(data: Word, base: nat, k: nat, maxBase: nat)
    requires base == 10 || base == 16
    requires Searching(data, base, k, maxBase) && maxBase != 0 && Quotient(data, maxBase) != 0
    ensures k < 64 && Searching(data, base, k + 1, Times(maxBase, base))
  {
    hide Pow, PowWord, Times, Quotient, Limit;
    QuotientZero(data, maxBase);
    PowMod(base, k);
    PowerFacts(base, k);
    PowerFacts(base, k + 1);
  }

  /** The digits of `data`, for a `maxBase` that is the first power of the base above it. In any case no more
      digits are written than `maxBase` leaves room for. */
  method WriteDigits(data: Word, maxBase: nat, base: nat, ghost k: nat, ghost room: nat) returns (s: string)
    requires base == 10 || base == 16
    requires k > 0 && room > 0 && maxBase < Pow(base, room + 1)
    ensures |s| <= room
    ensures maxBase == Pow(base, k) > data ==> |s| == k && ParseDigits(s, base) == Number(data)
    ensures maxBase == Pow(base, k) > data >= Pow(base, k - 1) ==> s[0] != '0'
    ensures maxBase == Pow(base, k) > data ==> |s| > 0 && s[0] != '-'
  {
    s := "";
    var d: nat, w: nat := data, maxBase;
    WeightShrinks(w, base, room);
    ghost var j: int := k - 1;
    ghost var exact := maxBase == Pow(base, k) > data;
    if exact {
      WeightOfPower(base, k);
    }
    w := Quotient(w, base);
    if exact {
      NoDigits(base, k, data, w);
    }
    hide Pow, Weigh, DigitsSoFar, LeadingDigit, Quotient, DigitChar;
    while w != 0
      invariant |s| <= room && w < Pow(base, room - |s|)
      invariant exact ==> DigitsSoFar(s, base, k, j, data, d, w)
      invariant exact && s != "" ==> LeadingDigit(s[0], base, k, data)
      decreases w
    {
      var c, rest, digit := NextCharacter(d, w);
      WeightShrinks(w, base, room - |s| - 1);
      if exact {
        NextDigit(s, base, k, j, data, d, w, digit, rest);
      }
      s, d, w := s + [c], rest, Quotient(w, base);
      j := j - 1;
    }
    if exact {
      AllDigits(s, base, k, j, data, d);
      LeadingFacts(s[0], base, k, data);
    }
  }

  lemma WeightShrinks(w: nat, base: nat, n: int)
    requires base > 1 && n >= -1 && w < Pow(base, n + 1)
    ensures w > 0 ==> n >= 0
    ensures n >= 0 ==> Quotient(w, base) < Pow(base, n)
  {
    if n >= 0 {
      QuotientBound(w, base);
      if w / base >= Pow(base, n) {
        MulMonotone(Pow(base, n), w / base, base);
      }
    }
  }

  lemma WeightOfPower(base: nat, k: nat)
    requires base > 1
    ensures Quotient(Pow(base, k), base) == if k > 0 then Pow(base, k - 1) else 0
  {
    if k > 0 {
      DivModUnique(Pow(base, k), base, Pow(base, k - 1), 0);
    } else {
      DivModUnique(1, base, 0, 1);
    }
  }

  lemma NoDigits(base: nat, k: nat, data: nat, w: nat)
    requires base > 1 && k > 0 && data < Pow(base, k) && w == Pow(base, k - 1)
    ensures DigitsSoFar("", base, k, k - 1, data, data, w)
  {
  }

  lemma NextWeight(s: string, base: nat, k: nat, j: int, data: nat, d: nat, w: nat)
    requires base > 1 && w > 0 && DigitsSoFar(s, base, k, j, data, d, w)
    ensures Quotient(w, base) == if j > 0 then Pow(base, j - 1) else 0
  {
    WeightOfPower(base, j);
  }

  lemma ReadBack(digit: nat, base: nat)
    requires digit < base <= 16
    ensures DigitValue(DigitChar(digit)) == digit && DigitChar(digit) != '-' && (digit > 0 ==> DigitChar(digit) != '0')
  {
  }

  /** One round of the loop on an exact weight. */
  lemma NextDigit(s: string, base: nat, k: nat, j: int, data: nat, d: nat, w: nat, digit: nat, rest: nat)
    requires 1 < base <= 16 && k > 0 && w > 0 && DigitsSoFar(s, base, k, j, data, d, w)
    requires d == Weigh(digit, w, rest) && rest < w
    ensures DigitsSoFar(s + [DigitChar(digit)], base, k, j - 1, data, rest, Quotient(w, base))
    ensures s == "" ==> LeadingDigit(DigitChar(digit), base, k, data)
  {
    NextWeight(s, base, k, j, data, d, w);
    NextValue(s, base, k, j, data, d, w, digit, rest);
    hide Pow, ParseDigits, DigitValue, DigitChar, Weigh, Quotient;
  }

  lemma NextValue(s: string, base: nat, k: nat, j: int, data: nat, d: nat, w: nat, digit: nat, rest: nat)
    requires 1 < base <= 16 && k > 0 && w > 0 && DigitsSoFar(s, base, k, j, data, d, w)
    requires d == Weigh(digit, w, rest) && rest < w
    ensures var high := ParseDigits(s + [DigitChar(digit)], base); high.Number? && data == Weigh(high.value, w, rest)
    ensures s == "" ==> LeadingDigit(DigitChar(digit), base, k, data)
  {
    var high, p := ParseDigits(s, base).value, Pow(base, j + 1);
    assert p == base * w;
    DigitBelow(digit, w, rest, base);
    ReadBack(digit, base);
    hide Weigh, DigitValue, DigitChar, Pow;
    ParseOneMore(s, DigitChar(digit), base);
    Regroup(data, high, base, w, p, digit, rest);
    LeadingNonzero(data, high, p, digit, w, rest);
  }

  method NextCharacter(d: nat, w: nat) returns (c: char, rest: nat, ghost digit: nat)
    requires w > 0
    ensures d == Weigh(digit, w, rest) && rest < w && c == DigitChar(digit)
  {
    SplitDigit(d, w);
    var quotient := d / w;
    c, rest, digit := DigitChar(quotient), d - quotient * w, quotient;
  }

  lemma LeadingNonzero(data: nat, high: nat, p: nat, digit: nat, w: nat, rest: nat)
    requires data == Weigh(high, p, Weigh(digit, w, rest)) && rest < w
    ensures high == 0 && w <= data ==> digit > 0
  {
    if high == 0 && digit == 0 {
      assert high * p == 0 && digit * w == 0;
    }
  }

  lemma DigitBelow(digit: nat, w: nat, rest: nat, base: nat)
    requires Weigh(digit, w, rest) < base * w
    ensures digit < base
  {
    if digit >= base {
      MulMonotone(base, digit, w);
    }
  }

  lemma ParseOneMore(s: string, c: char, base: nat)
    ensures var high := ParseDigits(s, base);
      ParseDigits(s + [c], base)
        == if high.Number? && DigitValue(c) < base then Number(Weigh(high.value, base, DigitValue(c))) else NotANumber
    ensures s == "" ==> ParseDigits(s, base) == Number(0)
  {
    assert (s + [c])[..|s + [c]| - 1] == s;
  }

  lemma Regroup(data: nat, high: nat, base: nat, w: nat, p: nat, digit: nat, rest: nat)
    requires p == base * w && data == Weigh(high, p, Weigh(digit, w, rest))
    ensures data == Weigh(Weigh(high, base, digit), w, rest)
  {
    assert high * (base * w) == high * base * w;
    assert (high * base + digit) * w == high * base * w + digit * w;
  }

  lemma LeadingFacts(c: char, base: nat, k: nat, data: nat)
    requires k > 0 && LeadingDigit(c, base, k, data)
    ensures c != '-' && (Pow(base, k - 1) <= data ==> c != '0')
  {
  }

  lemma AllDigits(s: string, base: nat, k: nat, j: int, data: nat, d: nat)
    requires base > 1 && DigitsSoFar(s, base, k, j, data, d, 0)
    ensures |s| == k && ParseDigits(s, base) == Number(data)
  {
    if j >= 0 {
      PowGrows(base, j, j);
    }
    assert Pow(base, 0) == 1;
  }

  /** The first k - 1 - j digits have been written, and `d` is what remains to be written. */
  ghost predicate DigitsSoFar(s: string, base: nat, k: nat, j: int, data: nat, d: nat, w: nat) {
    && -1 <= j < k && |s| == k - 1 - j && w == (if j >= 0 then Pow(base, j) else 0)
    && d < Pow(base, j + 1)
    && var high := ParseDigits(s, base);
       high.Number? && data == Weigh(high.value, Pow(base, j + 1), d)
  }

  /** The number with the digits `high` before a part of the weight `p`. */
  function Weigh(high: nat, p: nat, rest: nat): nat {
    high * p + rest
  }

  lemma SplitDigit(d: nat, w: nat)
    requires w > 0
    ensures d / w * w <= d && d - d / w * w < w && d == Weigh(d / w, w, d - d / w * w)
  {
    QuotientBound(d, w);
  }

  ghost predicate LeadingDigit(c: char, base: nat, k: nat, data: nat) {
    c != '-' && (k > 0 && Pow(base, k - 1) <= data ==> c != '0')
  }

  /** Write an integer. What is written reads back as the value that the word stands for, without leading
      zeroes, exactly when the value is within the limits. Beyond them either the powers of the base wrap
      around to zero, and the source divides by zero, or too few digits are written. */
  method WriteGenericInt(word: Word, is64Bit: bool, isSigned: bool, base: nat)
      returns (out: Written, ghost digits: string)
    requires base == 10 || base == 16
    ensures CanWrite(word, is64Bit, isSigned, base) <==>
            out.Text? && Parse(out.text, base) == Number(Meaning(word, is64Bit, isSigned))
    ensures CanWrite(word, is64Bit, isSigned, base) ==> NoLeadingZero(out.text, base)
    ensures CanWrite(word, is64Bit, isSigned, base) ==>
      var value := Meaning(word, is64Bit, isSigned);
      var magnitude := if value < 0 then -value else value;
      && out.text == (if base == 16 then "0x" else "") + (if value < 0 then "-" else "") + digits
      && digits != "" && (digits == "0" || digits[0] != '0') && Spelled(digits, base, magnitude)
  {
    hide Parse, NoLeadingZero, CanWrite, Meaning, ToSigned32, ToWord, Signedness, ParseDigits, Limit, Spelled;
    var s := if base == 16 then "0x" else "";
    if word == 0 {
      ZeroWritten(is64Bit, isSigned, base);
      Spelling(base, 0, "0");
      return Text(s + "0"), "0";
    }
    InRange(word);
    var data: Word := word;
    if !is64Bit && isSigned {
      data := ToWord(ToSigned32(data));
    }
    SignExtended(word, is64Bit, isSigned, data);
    ghost var extended := data;
    var negative := isSigned && ToSigned64(data) < 0;
    if negative {
      s := s + "-";
      if data == TWO_TO_THE_63 {
        LeastNumber(word, is64Bit, extended);
        return Undefined, "";
      }
      data := -ToSigned64(data);
    }
    MagnitudeFacts(word, is64Bit, isSigned, extended, negative, data);
    assert s == Prefix(base, negative);
    out := WriteMagnitude(data, base, negative);
    if out.Text? {
      digits := out.text;
      if data < Limit(base) {
        NoSign(digits, base);
        PrefixSkipped(base, negative, digits);
        Spelling(base, data, digits);
      }
      out := Text(s + out.text);
    } else {
      digits := "";
    }
  }

  lemma {:induction false} NoSign(s: string, base: nat)
    requires base <= 16 && s != "" && ParseDigits(s, base).Number?
    ensures s[0] != '-'
  {
    if |s| > 1 {
      assert s[..|s| - 1][0] == s[0];
      NoSign(s[..|s| - 1], base);
    }
  }

  /** The digits of a number, one by one. */
  ghost predicate Spelled(digits: string, base: nat, n: nat) {
    forall i | 0 <= i < |digits| :: IsDigitOf(digits[i], base, n, Pow(base, |digits| - 1 - i))
  }

  ghost predicate IsDigitOf(c: char, base: nat, n: nat, weight: nat) {
    1 < base <= 16 && weight > 0 && c == "0123456789abcdef"[n / weight % base]
  }

  lemma Spelling(base: nat, n: nat, digits: string)
    requires 1 < base <= 16 && ParseDigits(digits, base) == Number(n)
    ensures Spelled(digits, base, n)
  {
    hide IsDigitOf, ParseDigits, Pow;
    forall i | 0 <= i < |digits| ensures IsDigitOf(digits[i], base, n, Pow(base, |digits| - 1 - i)) {
      DigitFound(digits, base, n, i);
    }
  }

  lemma DigitFound(digits: string, base: nat, n: nat, i: nat)
    requires 1 < base <= 16 && ParseDigits(digits, base) == Number(n) && i < |digits|
    ensures IsDigitOf(digits[i], base, n, Pow(base, |digits| - 1 - i))
  {
    hide ParseDigits, Pow;
    DigitAt(digits, base, n, i);
  }

  /** The least inputs that are not written back: a decimal number of twenty digits, a hexadecimal number of
      sixteen digits, and the least signed number. */
  lemma LimitsAreTight()
    ensures !CanWrite(10_000_000_000_000_000_000, true, false, 10) && CanWrite(9_999_999_999_999_999_999, true, false, 10)
    ensures !CanWrite(0x1000_0000_0000_0000, true, false, 16) && CanWrite(0xFFF_FFFF_FFFF_FFFF, true, false, 16)
    ensures !CanWrite(TWO_TO_THE_63, true, true, 10) && CanWrite(TWO_TO_THE_63 + 1, true, true, 10)
  {
  }

  function Signed(negative: bool, n: nat): int {
    if negative then -(n as int) else n
  }

  /** The digits of a word, without prefix and sign. */
  method WriteMagnitude(data: Word, base: nat, ghost negative: bool) returns (out: Written)
    requires (base == 10 || base == 16) && (negative ==> data <= TWO_TO_THE_63)
    ensures data < Limit(base) <==>
            out.Text? && Parse(Prefix(base, negative) + out.text, base) == Number(Signed(negative, data))
    ensures data < Limit(base) ==> NoLeadingZero(Prefix(base, negative) + out.text, base)
    ensures data < Limit(base) ==> out.text != "" && ParseDigits(out.text, base) == Number(data)
  {
    hide Parse, NoLeadingZero, Prefix, ParseDigits, PowWord, Pow;
    var maxBase, k := FindMaxBase(data, base);
    if maxBase == 0 {
      PowPositive(base, k);
      return Undefined;
    }
    RoomForDigits();
    var digits := WriteDigits(data, maxBase, base, k, 19);
    if data < Limit(base) {
      NumberWritten(base, negative, data, digits, k);
    } else {
      TooShort(digits, data);
      NoPrefix(digits);
    }
    return Text(digits);
  }

  lemma PowPositive(base: nat, k: nat)
    requires base > 0
    ensures Pow(base, k) > 0
  {
    PowGrows(base, k, k);
  }

  lemma RoomForDigits()
    ensures TWO_TO_THE_64 <= Pow(10, 20) && TWO_TO_THE_64 <= Pow(16, 20)
  {
    LastPowers();
    PowGrows(16, 16, 20);
  }

  lemma NoPrefix(digits: string)
    ensures Prefix(10, false) + digits == digits
  {
  }

  function Prefix(base: nat, negative: bool): string {
    if base == 16 then (if negative then "0x-" else "0x") else if negative then "-" else ""
  }

  lemma ZeroWritten(is64Bit: bool, isSigned: bool, base: nat)
    requires base == 10 || base == 16
    ensures CanWrite(0, is64Bit, isSigned, base) && Meaning(0, is64Bit, isSigned) == 0
    ensures Parse(Prefix(base, false) + "0", base) == Number(0) && NoLeadingZero(Prefix(base, false) + "0", base)
    ensures ParseDigits("0", base) == Number(0)
  {
    ParseOneMore("", '0', base);
    assert "" + "0" == "0";
    PrefixSkipped(base, false, "0");
  }

  lemma PrefixSkipped(base: nat, negative: bool, digits: string)
    requires base == 10 || base == 16
    requires digits != "" && digits[0] != '-'
    ensures var s := Prefix(base, negative) + digits;
      && Parse(s, base)
           == (var m := ParseDigits(digits, base); if m.Number? then Number(if negative then -m.value else m.value) else m)
      && (NoLeadingZero(s, base) <==> digits == "0" || digits[0] != '0')
  {
    hide ParseDigits;
    SignSkipped(base, negative, digits);
    var t := (if negative then "-" else "") + digits;
    assert t[if negative then 1 else 0..] == digits;
  }

  lemma SignSkipped(base: nat, negative: bool, digits: string)
    requires base == 10 || base == 16
    ensures Unprefixed(Prefix(base, negative) + digits, base) == (if negative then "-" else "") + digits
  {
    assert "" + digits == digits;
    var s := Prefix(base, negative) + digits;
    if base == 16 {
      assert s[2..] == (if negative then "-" else "") + digits;
    }
  }

  lemma InRange(word: Word)
    ensures -(TWO_TO_THE_63 as int) <= ToSigned32(word) < TWO_TO_THE_63
  {
  }

  lemma SignExtended(word: Word, is64Bit: bool, isSigned: bool, data: Word)
    requires -(TWO_TO_THE_63 as int) <= ToSigned32(word) < TWO_TO_THE_63
    requires data == if !is64Bit && isSigned then ToWord(ToSigned32(word)) else word
    ensures Signedness(word, is64Bit, isSigned, data)
  {
    hide ToSigned32;
  }

  /** `data` is the word after sign extension. */
  ghost predicate Signedness(word: Word, is64Bit: bool, isSigned: bool, data: Word) {
    Meaning(word, is64Bit, isSigned) == if isSigned then ToSigned64(data) else data
  }

  lemma LeastNumber(word: Word, is64Bit: bool, extended: Word)
    requires Signedness(word, is64Bit, true, extended) && extended == TWO_TO_THE_63
    ensures !CanWrite(word, is64Bit, true, 10) && !CanWrite(word, is64Bit, true, 16)
  {
  }

  lemma MagnitudeFacts(word: Word, is64Bit: bool, isSigned: bool, extended: Word, negative: bool, data: Word)
    requires Signedness(word, is64Bit, isSigned, extended)
    requires negative == (isSigned && ToSigned64(extended) < 0) && data < TWO_TO_THE_64
    requires if negative then data == TWO_TO_THE_64 - extended && data != TWO_TO_THE_63 else data == extended
    ensures Meaning(word, is64Bit, isSigned) == Signed(negative, data) && (negative ==> data <= TWO_TO_THE_63)
    ensures CanWrite(word, is64Bit, isSigned, 10) <==> data < Limit(10)
    ensures CanWrite(word, is64Bit, isSigned, 16) <==> data < Limit(16)
  {
    hide ToSigned32;
  }

  lemma NumberWritten(base: nat, negative: bool, data: nat, digits: string, k: nat)
    requires base == 10 || base == 16
    requires k > 0 && |digits| == k && ParseDigits(digits, base) == Number(data) && digits[0] != '-'
    requires Pow(base, k - 1) <= data ==> digits[0] != '0'
    requires k == 1 || Pow(base, k - 1) <= data
    ensures Parse(Prefix(base, negative) + digits, base) == Number(Signed(negative, data))
    ensures NoLeadingZero(Prefix(base, negative) + digits, base)
  {
    PrefixSkipped(base, negative, digits);
    if k == 1 && data == 0 {
      SingleZero(digits, base);
    }
    assert k == 1 ==> Pow(base, 0) == 1;
    hide Pow, ParseDigits, Prefix, Parse, NoLeadingZero;
  }

  lemma SingleZero(digits: string, base: nat)
    requires |digits| == 1 && ParseDigits(digits, base) == Number(0)
    ensures digits == "0"
  {
    ParseOneMore("", digits[0], base);
    assert digits == "" + [digits[0]];
  }

  lemma {:induction false} ParseBelow(s: string, base: nat)
    requires base > 0
    ensures var m := ParseDigits(s, base); m.Number? ==> m.value < Pow(base, |s|)
  {
    if s != "" {
      var high := s[..|s| - 1];
      ParseBelow(high, base);
      var m := ParseDigits(high, base);
      if m.Number? {
        WeighBelow(m.value, Pow(base, |high|), base, DigitValue(s[|s| - 1]));
      }
    }
  }

  lemma WeighBelow(high: nat, p: nat, base: nat, digit: nat)
    requires high < p
    ensures digit < base ==> high * base + digit < base * p
  {
    MulMonotone(high + 1, p, base);
  }

  /** Nineteen characters are too few for a decimal number of twenty digits. */
  lemma TooShort(digits: string, data: nat)
    requires |digits| <= 19 && data >= Limit(10)
    ensures Parse(digits, 10) != Number(data)
  {
    LastPowers();
    PowGrows(10, |digits|, 19);
    ParseBelow(digits, 10);
  }

  /** The conversion of a signed number to a 64-bit word. */
  function ToWord(v: int): Word
    requires -(TWO_TO_THE_63 as int) <= v < TWO_TO_THE_63
  {
    if v < 0 then v + TWO_TO_THE_64 else v
  }

  /** The digits begin after the prefix and the sign. */
  predicate NoLeadingZero(s: string, base: nat) {
    var t := Unprefixed(s, base);
    var digits := if t != "" && t[0] == '-' then t[1..] else t;
    digits == "0" || (digits != "" && digits[0] != '0')
  }
}
