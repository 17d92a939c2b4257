/**
  Numbers as text: "%u" on the printing side, strtoul with base 0 and cfs_str2num_check
  (lib/libcfs/string.c) on the reading side.
*/
module Numerals {
  import opened Machine

  /** A position in a NUL-terminated buffer: the text from there on, of which `len` characters count. */
  datatype Lstr = Lstr(text: string, len: nat)

  predicate IsSpace(c: char) {
    c == ' ' || 9 <= c as int <= 13
  }

  /** The white space of the C locale. */
  lemma SixSpaces(c: char)
    ensures IsSpace(c) <==> c in {' ', '\t', '\n', '\U{000B}', '\U{000C}', '\r'}
  {
  }

  /** The value of a digit of any base up to 16; 16 for other characters. */
  function DigitOf(c: char): nat {
    if '0' <= c <= '9' then c as int - '0' as int
    else if 'a' <= c <= 'f' then c as int - 'a' as int + 10
    else if 'A' <= c <= 'F' then c as int - 'A' as int + 10
    else 16
  }

  /** How many of the first n characters are leading white space. */
  function LeadSpaces(s: string, n: nat): (k: nat)
    ensures k <= n && k <= |s|
  {
    if n > 0 && s != "" && IsSpace(s[0]) then 1 + LeadSpaces(s[1..], n - 1) else 0
  }

  /** How many leading characters are digits of the base. */
  function ScanDigits(s: string, base: nat): (k: nat)
    ensures k <= |s|
  {
    if s != "" && DigitOf(s[0]) < base then 1 + ScanDigits(s[1..], base) else 0
  }

  function ValueOf(s: string, base: nat): nat {
    if s == "" then 0 else ValueOf(s[..|s| - 1], base) * base + DigitOf(s[|s| - 1])
  }

  /** "0x" in front of a hexadecimal digit. */
  predicate IsHex(t: string) {
    |t| >= 3 && t[0] == '0' && (t[1] == 'x' || t[1] == 'X') && DigitOf(t[2]) < 16
  }

  function Base(t: string): nat {
    if IsHex(t) then 16 else if t != "" && t[0] == '0' then 8 else 10
  }

  /** Where the digits begin. */
  function Prefix(t: string): (p: nat)
    ensures p <= |t|
  {
    if IsHex(t) then 2 else 0
  }

  function DigitCount(t: string): (d: nat)
    ensures Prefix(t) + d <= |t|
  {
    ScanDigits(t[Prefix(t)..], Base(t))
  }

  /** The value of the number that t begins with. */
  function NumberAt(t: string): nat {
    ValueOf(t[Prefix(t)..Prefix(t) + DigitCount(t)], Base(t))
  }

  /** A number in 64 bits: too large a one is the largest, a minus sign takes it from 2^64. */
  function Clamp(v: nat, minus: bool): nat {
    if v >= TWO_64 then TWO_64 - 1 else if minus then (TWO_64 - v) % TWO_64 else v
  }

  /** The value always fits; one that fits already is kept, or is what adds up with it to 2^64. */
  lemma ClampExact(v: nat, minus: bool)
    ensures Clamp(v, minus) < TWO_64
    ensures v < TWO_64 ==> if minus then (Clamp(v, minus) + v) % TWO_64 == 0 else Clamp(v, minus) == v
    ensures v >= TWO_64 ==> Clamp(v, minus) == TWO_64 - 1
  {
  }

  /** Prefix and digits, behind `before` characters of white space and sign; (0, 0) if there is no digit. */
  function ReadDigits(t: string, minus: bool, before: nat): (r: (nat, nat))
    ensures r.1 <= before + |t|
  {
    if DigitCount(t) == 0 then (0, 0) else (Clamp(NumberAt(t), minus), before + Prefix(t) + DigitCount(t))
  }

  /** The same with a sign in front. */
  function ReadSigned(u: string, before: nat): (r: (nat, nat))
    ensures r.1 <= before + |u|
  {
    if u != "" && (u[0] == '-' || u[0] == '+') then ReadDigits(u[1..], u[0] == '-', before + 1)
    else ReadDigits(u, false, before)
  }

  /** strtoul(s, &end, 0): the value and the number of characters used. */
  function StrToUl(s: string): (r: (nat, nat))
    ensures r.1 <= |s|
  {
    var k := LeadSpaces(s, |s|);
    ReadSigned(s[k..], k)
  }

  /** The characters strtoul uses up, 0 if there is no number. */
  function Consumed(s: string): (n: nat)
    ensures n <= |s|
  {
    StrToUl(s).1
  }

  /**
    cfs_str2num_check: whether the token is a number in the interval, and the number stored, which
    is stored even when the test fails.
  */
  function Str2Num(src: Lstr, min: nat, max: nat): (r: (bool, nat))
    requires src.len <= |src.text|
  {
    Judge(src, StrToUl(src.text), min, max)
  }

  function Judge(src: Lstr, read: (nat, nat), min: nat, max: nat): (bool, nat)
    requires src.len <= |src.text| && read.1 <= |src.text|
  {
    var num := read.0 % TWO_32;
    if read.1 == 0 then (false, num)
    else if read.1 < src.len && !AllSpaces(src.text[read.1..src.len]) then (false, num)
    else (min <= num <= max, num)
  }

  predicate AllSpaces(s: string) {
    forall i | 0 <= i < |s| :: IsSpace(s[i])
  }

  // ----- printing

  function DigitChar(d: nat): char
    requires d < 10
  {
    '0' + d as char
  }

  /** "%u" */
  function PrintNum(n: nat): (s: string)
    ensures s != ""
  {
    if n < 10 then [DigitChar(n)] else PrintNum(n / 10) + [DigitChar(n % 10)]
  }

  predicate AllDigits(s: string) {
    forall i | 0 <= i < |s| :: '0' <= s[i] <= '9'
  }

  lemma {:induction false} PrintedDigits(n: nat)
    ensures AllDigits(PrintNum(n)) && ValueOf(PrintNum(n), 10) == n
    ensures n > 0 ==> PrintNum(n)[0] != '0'
  {
    var s := PrintNum(n);
    if n >= 10 {
      PrintedDigits(n / 10);
      assert s[..|s| - 1] == PrintNum(n / 10);
    } else {
      assert s[..|s| - 1] == "";
    }
  }

  /** The text after a number can neither continue it nor turn it into another. */
  predicate Ends(rest: string) {
    rest == "" || !('0' <= rest[0] <= '9' || 'a' <= rest[0] <= 'z' || 'A' <= rest[0] <= 'Z')
  }

  /** strtoul reads back what "%u" wrote. */
  lemma ReadsBack(n: nat, rest: string)
    requires n < TWO_32 && Ends(rest)
    ensures StrToUl(PrintNum(n) + rest) == (n, |PrintNum(n)|)
  {
    var t := PrintNum(n) + rest;
    PrintedDigits(n);
    assert t[0] == PrintNum(n)[0];
    assert "" + ("" + t) == t;
    PartsExact("", "", t);
    PrintedRead(n, rest);
  }

  lemma PrintedRead(n: nat, rest: string)
    requires n < TWO_32 && Ends(rest)
    ensures ReadDigits(PrintNum(n) + rest, false, 0) == (n, |PrintNum(n)|)
  {
    PrintedWritten(n, rest);
    DigitsExact("", PrintNum(n), rest, if n == 0 then 8 else 10, false, 0);
    assert "" + PrintNum(n) + rest == PrintNum(n) + rest;
  }

  lemma PrintedWritten(n: nat, rest: string)
    requires Ends(rest)
    ensures var base := if n == 0 then 8 else 10; Written("", PrintNum(n), rest, base) && ValueOf(PrintNum(n), base) == n
  {
    PrintedDigits(n);
    if rest != "" {
      assert DigitOf(rest[0]) == 16;
    }
    if n == 0 {
      assert PrintNum(0)[..0] == "";
    }
  }

  lemma JudgeWhole(src: Lstr, n: nat, used: nat, min: nat, max: nat)
    requires n < TWO_32 && 0 < used == src.len <= |src.text|
    ensures Judge(src, (n, used), min, max) == (min <= n <= max, n)
  {
  }

  lemma JudgeLonger(src: Lstr, n: nat, used: nat, min: nat, max: nat)
    requires n < TWO_32 && 0 < used < src.len <= |src.text| && !IsSpace(src.text[used])
    ensures Judge(src, (n, used), min, max) == (false, n)
  {
    assert src.text[used..src.len][0] == src.text[used];
  }

  /** A token that is one printed number passes the check exactly when it is in the interval. */
  lemma NumberToken(n: nat, rest: string, min: nat, max: nat)
    requires n < TWO_32 && Ends(rest)
    ensures Str2Num(Lstr(PrintNum(n) + rest, |PrintNum(n)|), min, max) == (min <= n <= max, n)
  {
    ReadsBack(n, rest);
    JudgeWhole(Lstr(PrintNum(n) + rest, |PrintNum(n)|), n, |PrintNum(n)|, min, max);
  }

  /** A token with something else after its number is not a number; the number is stored all the same. */
  lemma LongerToken(n: nat, rest: string, len: nat, min: nat, max: nat)
    requires n < TWO_32 && Ends(rest) && rest != "" && !IsSpace(rest[0]) && |PrintNum(n)| < len <= |PrintNum(n)| + |rest|
    ensures Str2Num(Lstr(PrintNum(n) + rest, len), min, max) == (false, n)
  {
    ReadsBack(n, rest);
    JudgeLonger(Lstr(PrintNum(n) + rest, len), n, |PrintNum(n)|, min, max);
  }

  // ----- what strtoul reads, for any text

  function Power(base: nat, n: nat): nat {
    if n == 0 then 1 else base * Power(base, n - 1)
  }

  /** Each digit counts for its place. */
  lemma {:induction false} ValueByPlace(c: char, s: string, base: nat)
    ensures ValueOf([c] + s, base) == DigitOf(c) * Power(base, |s|) + ValueOf(s, base)
  {
    if s == "" {
      assert [c] + s == [c] && [c][..0] == "";
    } else {
      var t := s[..|s| - 1];
      ValueByPlace(c, t, base);
      assert ([c] + s)[..|s|] == [c] + t;
      PlaceShift(DigitOf(c), Power(base, |t|), ValueOf(t, base), base);
    }
  }

  lemma PlaceShift(d: nat, p: nat, v: nat, base: nat)
    ensures (d * p + v) * base == d * (base * p) + v * base
  {
  }

  /** The sixteen digits, and no other characters. */
  lemma HexDigits(c: char, low: string, high: string)
    requires low == "0123456789abcdef" && high == "ABCDEF"
    ensures forall d | 0 <= d < 16 :: DigitOf(low[d]) == d
    ensures forall d | 0 <= d < 6 :: DigitOf(high[d]) == d + 10
    ensures DigitOf(c) < 16 ==> c == low[DigitOf(c)] || (DigitOf(c) >= 10 && c == high[DigitOf(c) - 10])
  {
  }

  lemma {:induction false} LeadingSpaces(lead: string, s: string)
    requires AllSpaces(lead) && (s == "" || !IsSpace(s[0]))
    ensures LeadSpaces(lead + s, |lead + s|) == |lead|
  {
    if lead == "" {
      assert lead + s == s;
    } else {
      assert (lead + s)[1..] == lead[1..] + s;
      LeadingSpaces(lead[1..], s);
    }
  }

  lemma {:induction false} ScanExact(digits: string, rest: string, base: nat)
    requires forall i | 0 <= i < |digits| :: DigitOf(digits[i]) < base
    requires rest == "" || DigitOf(rest[0]) >= base
    ensures ScanDigits(digits + rest, base) == |digits|
  {
    if digits == "" {
      assert digits + rest == rest;
    } else {
      assert (digits + rest)[1..] == digits[1..] + rest;
      ScanExact(digits[1..], rest, base);
    }
  }

  /** The prefix decides the base: "0x" in front of a hexadecimal digit, a leading zero, or neither. */
  predicate Written(prefix: string, digits: string, rest: string, base: nat) {
    && digits != "" && (forall i | 0 <= i < |digits| :: DigitOf(digits[i]) < base)
    && (rest == "" || DigitOf(rest[0]) >= base)
    && match base
       case 16 => prefix == "0x" || prefix == "0X"
       case 8 =>
         // the digits are not the zero of a "0x" prefix
         && prefix == "" && digits[0] == '0'
         && (digits == "0" && |rest| >= 2 && (rest[0] == 'x' || rest[0] == 'X') ==> DigitOf(rest[1]) == 16)
       case 10 => prefix == "" && digits[0] != '0'
       case _ => false
  }

  lemma BaseExact(prefix: string, digits: string, rest: string, base: nat)
    requires Written(prefix, digits, rest, base)
    ensures var t := prefix + digits + rest;
            Base(t) == base && Prefix(t) == |prefix| && t[|prefix|..] == digits + rest && !IsSpace(t[0]) && t[0] != '-' && t[0] != '+'
  {
    var t := prefix + digits + rest;
    assert t[0] == if prefix == "" then digits[0] else '0';
    if base == 16 {
      assert t[0] == '0' && t[1] == prefix[1] && t[2] == digits[0];
    } else {
      assert t == digits + rest && t[0] == digits[0];
      if |digits| >= 2 {
        assert t[1] == digits[1];
      } else if |rest| >= 2 {
        assert t[1] == rest[0] && t[2] == rest[1];
      }
    }
  }

  lemma DigitsRead(prefix: string, digits: string, rest: string, base: nat)
    requires Written(prefix, digits, rest, base)
    ensures var t := prefix + digits + rest;
            Prefix(t) == |prefix| && Base(t) == base && DigitCount(t) == |digits| && t[Prefix(t)..Prefix(t) + |digits|] == digits
  {
    BaseExact(prefix, digits, rest, base);
    ScanExact(digits, rest, base);
  }

  /** Prefix and digits give the value in the base the prefix stands for. */
  lemma DigitsExact(prefix: string, digits: string, rest: string, base: nat, minus: bool, before: nat)
    requires Written(prefix, digits, rest, base)
    ensures ReadDigits(prefix + digits + rest, minus, before) ==
            (Clamp(ValueOf(digits, base), minus), before + |prefix| + |digits|)
  {
    DigitsRead(prefix, digits, rest, base);
  }

  lemma SignExactly(sign: string, t: string, before: nat)
    requires sign == "" || sign == "+" || sign == "-"
    requires t == "" || (t[0] != '-' && t[0] != '+')
    ensures ReadSigned(sign + t, before) == ReadDigits(t, sign == "-", before + |sign|)
  {
    if sign == "" {
      assert sign + t == t;
    } else {
      assert (sign + t)[1..] == t && (sign + t)[0] == sign[0];
    }
  }

  lemma LeadExactly(lead: string, u: string)
    requires AllSpaces(lead) && (u == "" || !IsSpace(u[0]))
    ensures StrToUl(lead + u) == ReadSigned(u, |lead|)
  {
    LeadingSpaces(lead, u);
    assert (lead + u)[|lead|..] == u;
  }

  lemma SignedFirst(sign: string, t: string)
    requires (sign == "" || sign == "+" || sign == "-") && (t == "" || !IsSpace(t[0]))
    ensures sign + t == "" || !IsSpace((sign + t)[0])
  {
    assert sign + t != "" ==> (sign + t)[0] == if sign == "" then t[0] else sign[0];
  }

  /** strtoul on any text: white space and a sign are skipped, then it is up to the digits. */
  lemma PartsExact(lead: string, sign: string, t: string)
    requires AllSpaces(lead) && (sign == "" || sign == "+" || sign == "-")
    requires t == "" || (!IsSpace(t[0]) && t[0] != '-' && t[0] != '+')
    ensures StrToUl(lead + (sign + t)) == ReadDigits(t, sign == "-", |lead| + |sign|)
  {
    SignedFirst(sign, t);
    LeadExactly(lead, sign + t);
    SignExactly(sign, t, |lead|);
  }

  /** A text without a digit behind white space and sign is no number. */
  lemma NoDigitsNoNumber(lead: string, sign: string, rest: string)
    requires AllSpaces(lead) && (sign == "" || sign == "+" || sign == "-")
    requires rest == "" || (DigitOf(rest[0]) >= 10 && !IsSpace(rest[0]) && rest[0] != '-' && rest[0] != '+')
    ensures StrToUl(lead + (sign + rest)) == (0, 0)
  {
    NoDigits(rest);
    PartsExact(lead, sign, rest);
  }

  lemma NoDigits(rest: string)
    requires rest == "" || DigitOf(rest[0]) >= 10
    ensures DigitCount(rest) == 0
  {
    assert rest[0..] == rest;
  }

  /** cfs_str2num_check: a number, nothing but white space behind it up to the end of the token, and in the interval. */
  lemma Str2NumExact(src: Lstr, min: nat, max: nat)
    requires src.len <= |src.text|
    ensures var (v, used) := StrToUl(src.text);
            && Str2Num(src, min, max).1 == v % TWO_32
            && (Str2Num(src, min, max).0 <==>
                  used > 0 && (forall i | used <= i < src.len :: IsSpace(src.text[i])) && min <= v % TWO_32 <= max)
  {
    JudgeExact(src, StrToUl(src.text), min, max);
  }

  lemma JudgeExact(src: Lstr, read: (nat, nat), min: nat, max: nat)
    requires src.len <= |src.text| && read.1 <= |src.text|
    ensures Judge(src, read, min, max).1 == read.0 % TWO_32
    ensures Judge(src, read, min, max).0 <==>
              read.1 > 0 && (forall i | read.1 <= i < src.len :: IsSpace(src.text[i])) && min <= read.0 % TWO_32 <= max
  {
    if 0 < read.1 < src.len {
      var tail := src.text[read.1..src.len];
      assert forall i | read.1 <= i < src.len :: src.text[i] == tail[i - read.1];
    }
  }
}
