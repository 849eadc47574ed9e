/**
 Printing and reading of memory sizes (src/lib/memory.cc).
 */
module MemorySize {
  import opened Bytes

  // ---------------------------------------------------------------- strtoull

  /** The character at a position of a C string. */
  function CharAt(s: string, k: nat): char {
    if k < |s| then s[k] else '\0'
  }

  predicate IsSpace(c: char) {
    c == ' ' || c == '\t' || c == '\n' || c == '\r' || c == '\U{b}' || c == '\U{c}'
  }

  /** A digit's value, and 99 for what is no digit in any base. */
  function DigitValue(c: char): nat {
    if '0' <= c <= '9' then (c as int - '0' as int) as nat
    else if 'a' <= c <= 'z' then (c as int - 'a' as int) as nat + 10
    else if 'A' <= c <= 'Z' then (c as int - 'A' as int) as nat + 10
    else 99
  }

  function SkipSpaces(s: string, k: nat): (e: nat)
    requires k <= |s|
    ensures k <= e <= |s|
    decreases |s| - k
  {
    if k < |s| && IsSpace(s[k]) then SkipSpaces(s, k + 1) else k
  }

  /** Where the digits that start at k end. */
  function DigitsEnd(s: string, k: nat, base: nat): (e: nat)
    requires k <= |s|
    ensures k <= e <= |s|
    decreases |s| - k
  {
    if k < |s| && DigitValue(s[k]) < base then DigitsEnd(s, k + 1, base) else k
  }

  /** The number written by the digits from k to e. */
  function NumberIn(s: string, k: nat, e: nat, base: nat): nat
    requires e <= |s|
  {
    if k >= e then 0 else TimesBase(NumberIn(s, k, e - 1, base), base) + DigitValue(s[e - 1])
  }

  /** The bases are 8, 10 and 16. */
  function TimesBase(v: nat, base: nat): nat {
    if base == 8 then v * 8 else if base == 16 then v * 16 else v * 10
  }

  /** strtoull with base 0: the number and where it ends, or zero and the start when there is none. */
  function Strtoull(s: string, start: nat): (r: (nat, nat))
    requires start <= |s|
    ensures start <= r.1 <= |s| && r.0 < 0x1_0000_0000_0000_0000
  {
    var k := SkipSpaces(s, start);
    if CharAt(s, k) == '-' then Unsigned(s, start, k + 1, true)
    else if CharAt(s, k) == '+' then Unsigned(s, start, k + 1, false)
    else Unsigned(s, start, k, false)
  }

  /** The digits after the sign, in the base that they are written in. */
  function Unsigned(s: string, start: nat, k: nat, negative: bool): (r: (nat, nat))
    requires start <= k <= |s|
    ensures start <= r.1 <= |s| && r.0 < 0x1_0000_0000_0000_0000
  {
    if IsHex(s, k) then Digits(s, start, k + 2, 16, negative)
    else if CharAt(s, k) == '0' then Digits(s, start, k, 8, negative)
    else Digits(s, start, k, 10, negative)
  }

  predicate IsHex(s: string, k: nat) {
    && CharAt(s, k) == '0' && (CharAt(s, k + 1) == 'x' || CharAt(s, k + 1) == 'X')
    && DigitValue(CharAt(s, k + 2)) < 16
  }

  function Digits(s: string, start: nat, k: nat, base: nat, negative: bool): (r: (nat, nat))
    requires start <= k <= |s|
    ensures start <= r.1 <= |s| && r.0 < 0x1_0000_0000_0000_0000
  {
    var e := DigitsEnd(s, k, base);
    if e == k then (0, start) else
    var v := NumberIn(s, k, e, base);
    if v >= 0x1_0000_0000_0000_0000 then (0xFFFF_FFFF_FFFF_FFFF, e)
    else if negative && v > 0 then (0x1_0000_0000_0000_0000 - v, e)
    else (v, e)
  }

  // ---------------------------------------------------------------- printing

  function Digit(d: nat): char
    requires d < 10
  {
    "0123456789"[d]
  }

  /** The text of %llu. */
  function Decimal(n: nat): (s: string)
    ensures |s| > 0
  {
    if n < 10 then [Digit(n)] else Decimal(n / 10) + [Digit(n % 10)]
  }

  /** The number that is printed for a size and the suffix after it. */
  function Parts(n: nat): (nat, string) {
    if n % 1024 != 0 then (n, "")
    else if n / 1024 % 1024 != 0 then (n / 1024, "K")
    else if n / 1024 / 1024 % 1024 != 0 then (n / 1024 / 1024, "M")
    else (n / 1024 / 1024 / 1024, "G")
  }

  function Fmt(n: nat): string {
    Decimal(Parts(n).0) + Parts(n).1
  }

  method FmtSize(size: nat) returns (buf: string)
    requires size < 0x1_0000_0000_0000_0000
    ensures buf == Fmt(size)
  {
    var n, suffix := size, '\0';
    if n % 1024 == 0 {
      n, suffix := n / 1024, 'K';
    }
    if n % 1024 == 0 {
      n, suffix := n / 1024, 'M';
    }
    if n % 1024 == 0 {
      n, suffix := n / 1024, 'G';
    }
    assert Parts(size) == (n, if suffix != '\0' then [suffix] else "");
    if suffix != '\0' {
      buf := Decimal(n) + [suffix];
    } else {
      buf := Decimal(n);
    }
  }

  // ---------------------------------------------------------------- reading

  function Shift10(v: nat): (r: nat)
    ensures r < 0x1_0000_0000_0000_0000
  {
    v * 1024 % 0x1_0000_0000_0000_0000
  }

  /** How often a suffix shifts. */
  function Shifts(c: char): nat {
    if c == 'G' || c == 'g' then 3 else if c == 'M' || c == 'm' then 2 else if c == 'K' || c == 'k' then 1 else 0
  }

  function Shifted(v: nat, times: nat): nat {
    if times == 0 then v else Shift10(Shifted(v, times - 1))
  }

  /** A number with its suffix, from a position. */
  function ReadOne(s: string, k: nat): (r: (nat, nat))
    requires k <= |s|
    ensures k <= r.1 <= |s| && r.0 < 0x1_0000_0000_0000_0000
  {
    var (v, e) := Strtoull(s, k);
    var times := Shifts(CharAt(s, e));
    (Shifted(v, times), if times > 0 then e + 1 else e)
  }

  /** What reads one summand from a position: its value and where it ends. */
  type Reader = (string, nat) -> (nat, nat)

  ghost predicate Sensible(read: Reader) {
    forall s: string, k: nat :: k <= |s| ==> k <= read(s, k).1 <= |s| && read(s, k).0 < 0x1_0000_0000_0000_0000
  }

  /** Summands joined with plus signs, from a position, added to what was read before. */
  function SumFrom(read: Reader, s: string, k: nat, sum: nat): (nat, nat)
    requires Sensible(read) && k <= |s| && sum < 0x1_0000_0000_0000_0000
    decreases |s| - k
  {
    var (v, e) := read(s, k);
    var total := Add64(sum, v);
    if CharAt(s, e) == '+' && CharAt(s, e + 1) != '\0' then SumFrom(read, s, e + 1, total) else (total, e)
  }

  function ReadAt(s: string, k: nat): (nat, nat) {
    if k <= |s| then ReadOne(s, k) else (0, k)
  }

  function ReadText(s: string): (nat, nat) {
    SumFrom(ReadAt, s, 0, 0)
  }

  method ReadSize1(s: string, k: nat) returns (res: nat, end: nat)
    requires k <= |s|
    ensures (res, end) == ReadOne(s, k)
  {
    var (v, e) := Strtoull(s, k);
    res, end := v, e;
    assert Shifted(v, 1) == Shift10(v) && Shifted(v, 2) == Shift10(Shifted(v, 1));
    var c := CharAt(s, e);
    var giga := c == 'G' || c == 'g';
    var mega := giga || c == 'M' || c == 'm';
    var kilo := mega || c == 'K' || c == 'k';
    if giga {
      res := Shift10(res);
    }
    if mega {
      res := Shift10(res);
    }
    if kilo {
      res := Shift10(res);
      end := end + 1;
    }
  }

  method ReadSize(s: string) returns (size: nat, end: nat)
    ensures (size, end) == ReadText(s)
  {
    size, end := 0, 0;
    var more := true;
    while more
      invariant end <= |s| && size < 0x1_0000_0000_0000_0000
      invariant (if more then SumFrom(ReadAt, s, end, size) else (size, end)) == ReadText(s)
      decreases more, |s| - end
    {
      var one;
      assert ReadAt(s, end) == ReadOne(s, end);
      one, end := ReadSize1(s, end);
      size := Add64(size, one);
      if CharAt(s, end) == '+' && CharAt(s, end + 1) != '\0' {
        end := end + 1;
      } else {
        more := false;
      }
    }
  }

  // ---------------------------------------------------------------- round trips

  lemma {:induction false} DecimalDigits(n: nat)
    ensures NumberIn(Decimal(n), 0, |Decimal(n)|, 10) == n
    ensures forall k :: 0 <= k < |Decimal(n)| ==> DigitValue(Decimal(n)[k]) < 10
    ensures Decimal(n)[0] == '0' <==> n == 0
    ensures '0' <= Decimal(n)[0] <= '9'
  {
    if n >= 10 {
      DecimalDigits(n / 10);
      SameNumber(Decimal(n), 0, Decimal(n / 10), |Decimal(n / 10)|, 10);
    }
  }

  /** The number depends on the digits only. */
  lemma {:induction false} SameNumber(s: string, k: nat, t: string, e: nat, base: nat)
    requires k + e <= |s| && e <= |t| && forall j :: 0 <= j < e ==> s[k + j] == t[j]
    ensures NumberIn(s, k, k + e, base) == NumberIn(t, 0, e, base)
  {
    if e > 0 {
      SameNumber(s, k, t, e - 1, base);
    }
  }

  lemma {:induction false} DigitsEndIs(s: string, k: nat, e: nat, base: nat)
    requires k <= e <= |s| && forall j :: k <= j < e ==> DigitValue(s[j]) < base
    requires e < |s| ==> DigitValue(s[e]) >= base
    ensures DigitsEnd(s, k, base) == e
    decreases e - k
  {
    if k < e {
      DigitsEndIs(s, k + 1, e, base);
    }
  }

  /** A digit first means no spaces, no sign, and base 8 or 10 unless an x follows. */
  lemma StrtoullPlain(s: string, k: nat, base: nat, e: nat)
    requires k < e <= |s| && '0' <= s[k] <= '9' && CharAt(s, k + 1) != 'x' && CharAt(s, k + 1) != 'X'
    requires base == if s[k] == '0' then 8 else 10
    requires DigitsEnd(s, k, base) == e && NumberIn(s, k, e, base) < 0x1_0000_0000_0000_0000
    ensures Strtoull(s, k) == (NumberIn(s, k, e, base), e)
  {
    assert SkipSpaces(s, k) == k;
    assert !IsHex(s, k);
  }

  /** strtoull reads back a printed number before a suffix, a plus sign or the end. */
  lemma StrtoullReads(s: string, k: nat, n: nat)
    requires k + |Decimal(n)| <= |s| && s[k..k + |Decimal(n)|] == Decimal(n) && n < 0x1_0000_0000_0000_0000
    requires var c := CharAt(s, k + |Decimal(n)|); c == '\0' || c == '+' || c == 'K' || c == 'M' || c == 'G'
    ensures Strtoull(s, k) == (n, k + |Decimal(n)|)
  {
    DecimalDigits(n);
    if n == 0 {
      assert s[k] == Decimal(n)[0];
      ZeroReads(s, k);
    } else {
      DigitsRead(s, k, Decimal(n));
    }
  }

  /** Digits that do not start with a zero are read as their number in base 10. */
  lemma DigitsRead(s: string, k: nat, d: string)
    requires d != "" && k + |d| <= |s| && s[k..k + |d|] == d && NumberIn(d, 0, |d|, 10) < 0x1_0000_0000_0000_0000
    requires (forall j :: 0 <= j < |d| ==> DigitValue(d[j]) < 10) && '1' <= d[0] <= '9'
    requires var c := CharAt(s, k + |d|); c == '\0' || c == '+' || c == 'K' || c == 'M' || c == 'G'
    ensures Strtoull(s, k) == (NumberIn(d, 0, |d|, 10), k + |d|)
  {
    assert forall j :: k <= j < k + |d| ==> s[j] == s[k..k + |d|][j - k];
    DigitsEndIs(s, k, k + |d|, 10);
    SameNumber(s, k, d, |d|, 10);
    NoX(CharAt(s, k + 1));
    StrtoullPlain(s, k, 10, k + |d|);
  }

  // ---------------------------------------------------------------- other bases, signs and sizes

  predicate IsSign(c: char) {
    c == '+' || c == '-'
  }

  /** Where the digits start for a base: a prefix 0x, a leading zero, or neither. */
  ghost predicate WrittenIn(s: string, k: nat, base: nat, from: nat) {
    match base
    case 16 =>
      && from == k + 2 && CharAt(s, k) == '0' && (CharAt(s, k + 1) == 'x' || CharAt(s, k + 1) == 'X')
      && DigitValue(CharAt(s, k + 2)) < 16
    case 8 =>
      && from == k && CharAt(s, k) == '0'
      && ((CharAt(s, k + 1) != 'x' && CharAt(s, k + 1) != 'X') || DigitValue(CharAt(s, k + 2)) >= 16)
    case 10 => from == k && '1' <= CharAt(s, k) <= '9'
    case _ => false
  }

  /** Blanks and one sign are skipped; then the digits of the base that the text is written in, as many as there
      are, give the number, negated modulo 2^64 after a minus sign, and the largest number if it has no room. */
  lemma StrtoullMeans(s: string, start: nat, sign: nat, k: nat, base: nat, from: nat, end: nat)
    requires start <= sign <= k <= |s| && (forall j :: start <= j < sign ==> IsSpace(s[j]))
    requires !IsSpace(CharAt(s, sign)) && k == if IsSign(CharAt(s, sign)) then sign + 1 else sign
    requires WrittenIn(s, k, base, from) && from < end <= |s|
    requires (forall j :: from <= j < end ==> DigitValue(s[j]) < base) && DigitValue(CharAt(s, end)) >= base
    ensures var v := NumberIn(s, from, end, base);
            Strtoull(s, start) ==
              (if v >= 0x1_0000_0000_0000_0000 then 0xFFFF_FFFF_FFFF_FFFF
               else if CharAt(s, sign) == '-' && v > 0 then 0x1_0000_0000_0000_0000 - v else v, end)
  {
    SpacesEnd(s, start, sign);
    DigitsEndIs(s, from, end, base);
    BaseIs(s, start, k, base, from, CharAt(s, sign) == '-');
  }

  lemma BaseIs(s: string, start: nat, k: nat, base: nat, from: nat, negative: bool)
    requires start <= k <= |s| && WrittenIn(s, k, base, from) && from <= |s|
    ensures Unsigned(s, start, k, negative) == Digits(s, start, from, base, negative)
  {}

  lemma {:induction false} SpacesEnd(s: string, k: nat, e: nat)
    requires k <= e <= |s| && (forall j :: k <= j < e ==> IsSpace(s[j])) && !IsSpace(CharAt(s, e))
    ensures SkipSpaces(s, k) == e
    decreases e - k
  {
    if k < e {
      SpacesEnd(s, k + 1, e);
    }
  }

  /** A text with no digit after the sign has no number: zero, and nothing is read. */
  lemma StrtoullFindsNone(s: string, start: nat, sign: nat, k: nat)
    requires start <= sign <= k <= |s| && (forall j :: start <= j < sign ==> IsSpace(s[j]))
    requires !IsSpace(CharAt(s, sign)) && k == if IsSign(CharAt(s, sign)) then sign + 1 else sign
    requires DigitValue(CharAt(s, k)) >= 10
    ensures Strtoull(s, start) == (0, start)
  {
    SpacesEnd(s, start, sign);
  }

  lemma NoX(c: char)
    requires '0' <= c <= '9' || c == '\0' || c == '+' || c == 'K' || c == 'M' || c == 'G'
    ensures c != 'x' && c != 'X'
  {}

  /** A zero alone is read in base 8. */
  lemma ZeroReads(s: string, k: nat)
    requires k < |s| && s[k] == '0'
    requires var c := CharAt(s, k + 1); c == '\0' || c == '+' || c == 'K' || c == 'M' || c == 'G'
    ensures Strtoull(s, k) == (0, k + 1)
  {
    DigitsEndIs(s, k, k + 1, 8);
    assert NumberIn(s, k, k + 1, 8) == 0;
    StrtoullPlain(s, k, 8, k + 1);
  }

  lemma ShiftExact(v: nat)
    requires v * 1024 < 0x1_0000_0000_0000_0000
    ensures Shift10(v) == v * 1024
  {}

  /** The number printed is the size divided by the largest power of 1024, up to the third, that divides it: it is
      divisible by 1024 with the last suffix only. */
  lemma PartsAreLargest(n: nat)
    ensures var (m, suffix) := Parts(n);
            && (suffix == "" || suffix == "K" || suffix == "M" || suffix == "G")
            && n == m * (if suffix == "" then 1 else if suffix == "K" then 1024 else if suffix == "M" then 1048576
                         else 1073741824)
            && (m % 1024 == 0 ==> suffix == "G")
  {}

  /** Shifting undoes the divisions of the printer. */
  lemma PartsShift(n: nat)
    requires n < 0x1_0000_0000_0000_0000
    ensures var (m, suffix) := Parts(n);
            m <= n && IsSuffix(suffix) && Shifted(m, ShiftsOf(suffix)) == n
  {
    var (m, suffix) := Parts(n);
    if suffix == "K" {
      ShiftBack(n, m, 1);
    } else if suffix == "M" {
      ShiftBack(n / 1024, m, 1);
      ShiftBack(n, m, 2);
    } else if suffix == "G" {
      ShiftBack(n / 1024 / 1024, m, 1);
      ShiftBack(n / 1024, m, 2);
      ShiftBack(n, m, 3);
    }
  }

  lemma ShiftBack(n: nat, m: nat, times: nat)
    requires n < 0x1_0000_0000_0000_0000 && n % 1024 == 0 && times > 0
    requires Shifted(m, times - 1) == n / 1024
    ensures Shifted(m, times) == n
  {
    ShiftExact(n / 1024);
  }

  /** A text stands at a position, and the string or the summand ends after it. */
  predicate TextAt(s: string, k: nat, t: string) {
    && k + |t| <= |s| && s[k..k + |t|] == t
    && (CharAt(s, k + |t|) == '\0' || CharAt(s, k + |t|) == '+')
  }

  predicate IsSuffix(suffix: string) {
    suffix == "" || suffix == "K" || suffix == "M" || suffix == "G"
  }

  function ShiftsOf(suffix: string): nat {
    if suffix == "" then 0 else Shifts(suffix[0])
  }

  lemma NumberAtStart(s: string, k: nat, m: nat, suffix: string)
    requires m < 0x1_0000_0000_0000_0000 && IsSuffix(suffix) && TextAt(s, k, Decimal(m) + suffix)
    ensures Strtoull(s, k) == (m, k + |Decimal(m)|) && EndsWith(s, k + |Decimal(m)|, suffix)
  {
    NumberThenSuffix(s, k, Decimal(m), suffix);
    StrtoullReads(s, k, m);
  }

  /** The suffix, or the end of the summand, stands at e. */
  predicate EndsWith(s: string, e: nat, suffix: string) {
    if suffix == "" then CharAt(s, e) == '\0' || CharAt(s, e) == '+' else CharAt(s, e) == suffix[0]
  }

  lemma ReadsSuffix(s: string, k: nat, m: nat, e: nat, suffix: string, n: nat)
    requires k <= |s| && Strtoull(s, k) == (m, e) && IsSuffix(suffix) && EndsWith(s, e, suffix)
    requires n == Shifted(m, ShiftsOf(suffix))
    ensures ReadOne(s, k) == (n, e + |suffix|)
  {
    SuffixShifts(CharAt(s, e), suffix);
  }

  lemma SuffixShifts(c: char, suffix: string)
    requires IsSuffix(suffix) && if suffix == "" then c == '\0' || c == '+' else c == suffix[0]
    ensures Shifts(c) == ShiftsOf(suffix) && (Shifts(c) > 0 <==> |suffix| == 1) && |suffix| <= 1
  {}

  lemma NumberThenSuffix(s: string, k: nat, d: string, suffix: string)
    requires IsSuffix(suffix) && TextAt(s, k, d + suffix)
    ensures k + |d| + |suffix| <= |s| && s[k..k + |d|] == d
    ensures var c := CharAt(s, k + |d|); if suffix == "" then c == '\0' || c == '+' else c == suffix[0]
  {
    var e := k + |d|;
    assert s[k..e] == (d + suffix)[..|d|] == d;
    assert suffix != "" ==> s[e] == (d + suffix)[|d|] == suffix[0];
  }

  /** The text is a number and a suffix that stand for n. */
  ghost predicate Denotes(t: string, n: nat) {
    exists m: nat, suffix: string :: StandsFor(t, m, suffix, n)
  }

  predicate StandsFor(t: string, m: nat, suffix: string, n: nat) {
    && m < 0x1_0000_0000_0000_0000 && IsSuffix(suffix) && t == Decimal(m) + suffix
    && n == Shifted(m, ShiftsOf(suffix))
  }

  lemma FmtDenotes(n: nat)
    requires n < 0x1_0000_0000_0000_0000
    ensures Denotes(Fmt(n), n)
  {
    PartsShift(n);
    assert StandsFor(Fmt(n), Parts(n).0, Parts(n).1, n);
  }

  /** A text reads as what it denotes, up to its last character. */
  lemma TextReadsBack(s: string, k: nat, t: string, m: nat, suffix: string, n: nat)
    requires StandsFor(t, m, suffix, n) && TextAt(s, k, t)
    ensures ReadAt(s, k) == (n, k + |t|)
  {
    NumberAtStart(s, k, m, suffix);
    ReadsSuffix(s, k, m, k + |Decimal(m)|, suffix, n);
  }

  /** Wherever the text stands, it reads as the number. */
  ghost predicate ReadsAs(read: Reader, t: string, n: nat) {
    && t != "" && t[0] != '\0' && n < 0x1_0000_0000_0000_0000
    && forall s: string, k: nat :: TextAt(s, k, t) ==> read(s, k) == (n, k + |t|)
  }

  lemma DenotesReadsAs(t: string, n: nat)
    requires Denotes(t, n) && n < 0x1_0000_0000_0000_0000
    ensures ReadsAs(ReadAt, t, n)
  {
    var m: nat, suffix :| StandsFor(t, m, suffix, n);
    DecimalDigits(m);
    assert t[0] == Decimal(m)[0];
    forall s: string, k: nat | TextAt(s, k, t)
      ensures ReadAt(s, k) == (n, k + |t|)
    {
      TextReadsBack(s, k, t, m, suffix, n);
    }
  }

  lemma FmtReadsAs(n: nat)
    requires n < 0x1_0000_0000_0000_0000
    ensures ReadsAs(ReadAt, Fmt(n), n)
  {
    FmtDenotes(n);
    DenotesReadsAs(Fmt(n), n);
  }

  // ---------------------------------------------------------------- texts joined with plus signs

  function JoinTexts(ts: seq<string>): string {
    if ts == [] then "" else if |ts| == 1 then ts[0] else ts[0] + "+" + JoinTexts(ts[1..])
  }

  function AddAll(sum: nat, ns: seq<nat>): nat
    requires sum < 0x1_0000_0000_0000_0000 && Sizes(ns)
    decreases |ns|
  {
    if ns == [] then sum else AddAll(Add64(sum, ns[0]), ns[1..])
  }

  predicate Sizes(ns: seq<nat>) {
    forall k :: 0 <= k < |ns| ==> ns[k] < 0x1_0000_0000_0000_0000
  }

  lemma ReadStep(read: Reader, s: string, k: nat, t: string, n: nat, sum: nat)
    requires Sensible(read) && TextAt(s, k, t) && ReadsAs(read, t, n) && sum < 0x1_0000_0000_0000_0000
    ensures var e := k + |t|;
            SumFrom(read, s, k, sum) ==
              if CharAt(s, e) == '+' && CharAt(s, e + 1) != '\0' then SumFrom(read, s, e + 1, Add64(sum, n))
              else (Add64(sum, n), e)
  {
    assert read(s, k) == (n, k + |t|);
  }

  lemma FirstText(s: string, k: nat, ts: seq<string>)
    requires k <= |s| && s[k..] == JoinTexts(ts) && |ts| > 1
    requires JoinTexts(ts[1..]) != "" && JoinTexts(ts[1..])[0] != '\0'
    ensures TextAt(s, k, ts[0]) && k + |ts[0]| + 1 < |s|
    ensures var e := k + |ts[0]|;
            s[e] == '+' && s[e + 1] != '\0' && s[e + 1..] == JoinTexts(ts[1..])
  {
    var t := ts[0];
    assert |s[k..]| == |t| + 1 + |JoinTexts(ts[1..])|;
    assert s[k..k + |t|] == s[k..][..|t|] == t;
    assert s[k + |t|] == s[k..][|t|] == '+';
    assert s[k + |t| + 1..] == s[k..][|t| + 1..] == JoinTexts(ts[1..]);
    assert s[k + |t| + 1] == s[k + |t| + 1..][0];
  }

  lemma ReadLast(read: Reader, s: string, k: nat, t: string, n: nat, sum: nat)
    requires Sensible(read) && k <= |s| && s[k..] == t && ReadsAs(read, t, n) && sum < 0x1_0000_0000_0000_0000
    ensures SumFrom(read, s, k, sum) == (Add64(sum, n), |s|)
  {
    assert s[k..|s|] == s[k..];
    ReadStep(read, s, k, t, n, sum);
  }

  lemma ReadNext(read: Reader, s: string, k: nat, ts: seq<string>, n: nat, sum: nat)
    requires Sensible(read) && k <= |s| && s[k..] == JoinTexts(ts) && |ts| > 1
    requires ReadsAs(read, ts[0], n) && sum < 0x1_0000_0000_0000_0000
    requires JoinTexts(ts[1..]) != "" && JoinTexts(ts[1..])[0] != '\0'
    ensures k + |ts[0]| + 1 <= |s| && s[k + |ts[0]| + 1..] == JoinTexts(ts[1..])
    ensures SumFrom(read, s, k, sum) == SumFrom(read, s, k + |ts[0]| + 1, Add64(sum, n))
  {
    FirstText(s, k, ts);
    ReadStep(read, s, k, ts[0], n, sum);
  }

  lemma {:induction false} ReadTexts(read: Reader, s: string, k: nat, ts: seq<string>, ns: seq<nat>, sum: nat)
    requires Sensible(read) && k <= |s| && s[k..] == JoinTexts(ts) && |ts| == |ns| > 0 && Sizes(ns)
    requires forall j :: 0 <= j < |ts| ==> ReadsAs(read, ts[j], ns[j])
    requires sum < 0x1_0000_0000_0000_0000
    ensures SumFrom(read, s, k, sum) == (AddAll(sum, ns), |s|)
    decreases |ts|
  {
    assert AddAll(sum, ns) == AddAll(Add64(sum, ns[0]), ns[1..]);
    if |ts| == 1 {
      ReadLast(read, s, k, ts[0], ns[0], sum);
    } else {
      JoinNotEmpty(read, ts[1..], ns[1..]);
      ReadNext(read, s, k, ts, ns[0], sum);
      ReadTexts(read, s, k + |ts[0]| + 1, ts[1..], ns[1..], Add64(sum, ns[0]));
    }
  }

  lemma JoinNotEmpty(read: Reader, ts: seq<string>, ns: seq<nat>)
    requires ts != [] && |ts| == |ns| && ReadsAs(read, ts[0], ns[0])
    ensures JoinTexts(ts) != "" && JoinTexts(ts)[0] != '\0'
  {}

  // ---------------------------------------------------------------- sums

  function Sum(ns: seq<nat>): nat {
    if ns == [] then 0 else ns[0] + Sum(ns[1..])
  }

  lemma {:induction false} AddAllIsModular(sum: nat, ns: seq<nat>)
    requires sum < 0x1_0000_0000_0000_0000 && Sizes(ns)
    ensures AddAll(sum, ns) == (sum + Sum(ns)) % 0x1_0000_0000_0000_0000
    decreases |ns|
  {
    if ns != [] {
      AddAllIsModular(Add64(sum, ns[0]), ns[1..]);
    }
  }

  function Texts(ns: seq<nat>): (ts: seq<string>)
    ensures |ts| == |ns|
  {
    if ns == [] then [] else [Fmt(ns[0])] + Texts(ns[1..])
  }

  lemma {:induction false} TextsReadAs(ns: seq<nat>, j: nat)
    requires Sizes(ns) && j < |ns|
    ensures ReadsAs(ReadAt, Texts(ns)[j], ns[j])
  {
    if j == 0 {
      FmtReadsAs(ns[0]);
    } else {
      TextsReadAs(ns[1..], j - 1);
    }
  }

  lemma SumOfTexts(read: Reader, ts: seq<string>, ns: seq<nat>)
    requires Sensible(read) && |ts| == |ns| > 0 && Sizes(ns)
    requires forall j :: 0 <= j < |ts| ==> ReadsAs(read, ts[j], ns[j])
    ensures SumFrom(read, JoinTexts(ts), 0, 0) == (Sum(ns) % 0x1_0000_0000_0000_0000, |JoinTexts(ts)|)
  {
    assert JoinTexts(ts)[0..] == JoinTexts(ts);
    ReadTexts(read, JoinTexts(ts), 0, ts, ns, 0);
    AddAllIsModular(0, ns);
  }

  /** The sizes printed and joined with plus signs. */
  function Join(ns: seq<nat>): string {
    JoinTexts(Texts(ns))
  }

  lemma ReadNothing()
    ensures ReadText("") == (0, 0)
  {
    assert Strtoull("", 0) == (0, 0);
    assert ReadAt("", 0) == (0, 0);
  }

  /** Any list of sizes, printed and joined, reads as the sum modulo 2^64, and the whole text is read. */
  lemma JoinedSizesReadAsSum(ns: seq<nat>)
    requires Sizes(ns)
    ensures ReadText(Join(ns)) == (Sum(ns) % 0x1_0000_0000_0000_0000, |Join(ns)|)
  {
    if ns == [] {
      ReadNothing();
    } else {
      forall j | 0 <= j < |ns|
        ensures ReadsAs(ReadAt, Texts(ns)[j], ns[j])
      {
        TextsReadAs(ns, j);
      }
      SumOfTexts(ReadAt, Texts(ns), ns);
    }
  }

  /** A printed size reads back. */
  lemma SizeRoundTrip(n: nat)
    requires n < 0x1_0000_0000_0000_0000
    ensures ReadText(Fmt(n)) == (n, |Fmt(n)|)
  {
    FmtReadsAs(n);
    assert Fmt(n)[0..|Fmt(n)|] == Fmt(n);
    ReadStep(ReadAt, Fmt(n), 0, Fmt(n), n, 0);
  }
}
