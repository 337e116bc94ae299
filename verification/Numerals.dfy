// Numbers as text, printed and read back.  A number's digits are a sequence, the most
// significant first; the numeral is the digits, or one zero.  The loops that print
// produce the digits from the other end, so what they have put into the buffer is the
// text backwards, and Finish turns it round.  The loops that read keep the value of the
// digits read so far.
module Numerals {

  // ----- digits, the most significant first -----

  function Digits(n: nat, base: nat): (ds: seq<nat>)
    requires base >= 2
  {
    if n == 0 then [] else Digits(n / base, base) + [n % base]
  }

  function Numeral(n: nat, base: nat): seq<nat>
    requires base >= 2
  {
    if n == 0 then [0] else Digits(n, base)
  }

  function Value(ds: seq<nat>, base: nat): nat
  {
    if ds == [] then 0 else Value(ds[..|ds| - 1], base) * base + ds[|ds| - 1]
  }

  predicate AllBelow(ds: seq<nat>, bound: nat)
  {
    forall i :: 0 <= i < |ds| ==> ds[i] < bound
  }

  // Without a needless zero in front.
  predicate Proper(ds: seq<nat>, base: nat)
  {
    ds != [] && AllBelow(ds, base) && (|ds| > 1 ==> ds[0] != 0)
  }

  lemma DivMod(n: nat, base: nat)
    requires base >= 2
    ensures n == n / base * base + n % base && n % base < base
  {
  }

  lemma ValueAppend(ds: seq<nat>, d: nat, base: nat)
    ensures Value(ds + [d], base) == Value(ds, base) * base + d
  {
    assert (ds + [d])[..|ds|] == ds;
  }

  lemma Shrinks(n: nat, base: nat)
    requires base >= 2
    ensures n / base >= 0 && n % base < base && (n > 0 ==> n / base < n)
  {
    var q := n / base;
    assert n == q * base + n % base;
    assert q >= 1 ==> q * base >= q * 2;
  }

  lemma {:induction false} DigitsValue(n: nat, base: nat)
    requires base >= 2
    ensures Value(Digits(n, base), base) == n && AllBelow(Digits(n, base), base)
    ensures n > 0 ==> Digits(n, base) != [] && Digits(n, base)[0] != 0
  {
    if n > 0 {
      hide Value;
      Shrinks(n, base);
      var q, r := n / base, n % base;
      DigitsValue(q, base);
      ValueAppend(Digits(q, base), r, base);
      DivMod(n, base);
    }
  }

  lemma {:induction false} LeadingDigitCounts(ds: seq<nat>, base: nat)
    requires base >= 2 && ds != [] && ds[0] != 0
    ensures Value(ds, base) > 0
  {
    if |ds| > 1 {
      LeadingDigitCounts(ds[..|ds| - 1], base);
    }
  }

  lemma {:induction false} DigitsUnique(ds: seq<nat>, base: nat)
    requires base >= 2 && AllBelow(ds, base) && ds != [] && ds[0] != 0
    ensures Digits(Value(ds, base), base) == ds
  {
    var front, last := ds[..|ds| - 1], ds[|ds| - 1];
    LeadingDigitCounts(ds, base);
    QuotientOf(Value(front, base), last, base);
    if front == [] {
      assert ds == [last];
    } else {
      DigitsUnique(front, base);
      assert ds == front + [last];
    }
  }

  lemma QuotientOf(q: nat, r: nat, base: nat)
    requires r < base
    ensures (q * base + r) / base == q && (q * base + r) % base == r
  {
    var m := q * base + r;
    var k := q - m / base;
    assert m == m / base * base + m % base;
    assert k * base == m % base - r;
    SmallMultiple(k, base);
    SmallMultiple(-k, base);
  }

  lemma SmallMultiple(k: int, base: nat)
    ensures k > 0 ==> k * base >= base
  {
    if k > 0 {
      assert k * base == base + (k - 1) * base;
    }
  }

  // The numeral is the one proper digit string of its value.
  lemma NumeralUnique(ds: seq<nat>, n: nat, base: nat)
    requires base >= 2
    ensures ds == Numeral(n, base) <==> Proper(ds, base) && Value(ds, base) == n
  {
    DigitsValue(n, base);
    assert n == 0 ==> Value([0], base) == 0;
    if Proper(ds, base) {
      if ds[0] != 0 {
        DigitsUnique(ds, base);
        LeadingDigitCounts(ds, base);
      } else {
        assert ds == [0];
      }
    }
  }

  // ----- characters -----

  function DigitChar(d: nat): char
    requires d < 36
  {
    if d < 10 then ('0' as int + d) as char else ('A' as int + (d - 10)) as char
  }

  predicate IsDecimal(c: char)
  {
    '0' <= c <= '9'
  }

  predicate IsHex(c: char)
  {
    IsDecimal(c) || 'A' <= c <= 'F' || 'a' <= c <= 'f'
  }

  function CharDigit(c: char): nat
  {
    if '0' <= c <= '9' then c as int - '0' as int
    else if 'A' <= c <= 'F' then c as int - 'A' as int + 10
    else if 'a' <= c <= 'f' then c as int - 'a' as int + 10
    else 0
  }

  function Chars(ds: seq<nat>): (t: seq<char>)
    requires AllBelow(ds, 36)
    ensures |t| == |ds| && forall i :: 0 <= i < |ds| ==> t[i] == DigitChar(ds[i])
  {
    seq(|ds|, i requires 0 <= i < |ds| => DigitChar(ds[i]))
  }

  function CharDigits(t: seq<char>): (ds: seq<nat>)
    ensures |ds| == |t| && forall i :: 0 <= i < |t| ==> ds[i] == CharDigit(t[i])
  {
    seq(|t|, i requires 0 <= i < |t| => CharDigit(t[i]))
  }

  function Abs(v: int): nat
  {
    if v < 0 then -v else v
  }

  // What intToStr leaves in the buffer, up to the terminator.
  function IntText(v: int, base: nat): seq<char>
    requires 2 <= base <= 32
  {
    NumeralUnique(Numeral(Abs(v), base), Abs(v), base);
    (if v < 0 && base == 10 then ['-'] else []) + Chars(Numeral(Abs(v), base))
  }

  // ----- reading -----

  function DigitRun(t: seq<char>): (k: nat)
    ensures k <= |t| && (k < |t| ==> !IsDecimal(t[k]))
    ensures forall i :: 0 <= i < k ==> IsDecimal(t[i])
  {
    if t == [] || !IsDecimal(t[0]) then 0 else 1 + DigitRun(t[1..])
  }

  predicate Negative(t: seq<char>)
  {
    t != [] && t[0] == '-'
  }

  function Unsigned(t: seq<char>): seq<char>
  {
    if Negative(t) then t[1..] else t
  }

  // The value and the size strToInt answers.  The sign is only applied when
  // nothing but digits follows it.
  function ParseInt(t: seq<char>): (int, nat)
  {
    var k := DigitRun(Unsigned(t));
    var v: int := Value(CharDigits(Unsigned(t)[..k]), 10);
    (if Negative(t) && k == |Unsigned(t)| then -v else v, if Negative(t) then k + 1 else k)
  }

  function ParseHex(t: seq<char>): int
  {
    if forall i :: 0 <= i < |t| ==> IsHex(t[i]) then Value(CharDigits(t), 16) else -1
  }

  lemma CharsAndBack(ds: seq<nat>, base: nat)
    requires base <= 16 && AllBelow(ds, base)
    ensures CharDigits(Chars(ds)) == ds
    ensures forall i :: 0 <= i < |ds| ==> IsHex(Chars(ds)[i]) && (base <= 10 ==> IsDecimal(Chars(ds)[i]))
    ensures ds != [] ==> !Negative(Chars(ds))
  {
  }

  // Reading what was printed gives the number back, and its length.
  lemma PrintThenReadInt(v: int)
    ensures ParseInt(IntText(v, 10)) == (v, |IntText(v, 10)|)
  {
    hide Value, ParseInt, Numeral;
    var ds := Numeral(Abs(v), 10);
    NumeralUnique(ds, Abs(v), 10);
    ReadSigned(IntText(v, 10), v < 0, ds);
  }

  lemma ReadSigned(t: seq<char>, negative: bool, ds: seq<nat>)
    requires AllBelow(ds, 10) && ds != [] && t == (if negative then ['-'] else []) + Chars(ds)
    ensures var v: int := Value(ds, 10);
            ParseInt(t) == (if negative then -v else v, |t|)
  {
    hide Value, IsDecimal, IsHex, CharDigit, DigitChar;
    CharsAndBack(ds, 10);
    assert Unsigned(t) == Chars(ds);
    assert Chars(ds)[..DigitRun(Chars(ds))] == Chars(ds);
  }

  lemma PrintThenReadHex(v: nat)
    ensures ParseHex(IntText(v, 16)) == v
  {
    var ds := Numeral(v, 16);
    NumeralUnique(ds, v, 16);
    CharsAndBack(ds, 16);
    assert IntText(v, 16) == Chars(ds);
  }

  // ----- every text -----

  // The characters of the digits: the n-th of the printed ones stands for n, and of
  // those read as hexadecimal the last six stand for the same as the six before them.
  const PRINTED := "0123456789ABCDEFGHIJKLMNOPQRSTUVWXYZ"
  const HEXADECIMAL := "0123456789ABCDEFabcdef"

  lemma DigitCharIs(d: nat)
    requires d < 36
    ensures |PRINTED| == 36 && DigitChar(d) == PRINTED[d]
  {
  }

  lemma CharDigitIs(i: nat)
    requires i < 22
    ensures |HEXADECIMAL| == 22 && IsHex(HEXADECIMAL[i])
    ensures CharDigit(HEXADECIMAL[i]) == if i < 16 then i else i - 6
  {
  }

  lemma HexIsListed(c: char)
    ensures IsHex(c) <==> c in HEXADECIMAL
  {
    if IsHex(c) {
      var i := if c <= '9' then c as int - '0' as int
               else if c <= 'F' then c as int - 'A' as int + 10 else c as int - 'a' as int + 16;
      assert HEXADECIMAL[i] == c;
    }
  }

  // What a number prints as, in every base: a sign in base ten only, and the one proper
  // digit string of its absolute value.
  lemma IntTextIs(v: int, base: nat) returns (ds: seq<nat>)
    requires 2 <= base <= 32
    ensures Proper(ds, base) && Value(ds, base) == if v < 0 then -v else v
    ensures IntText(v, base) == (if v < 0 && base == 10 then "-" else "") + Chars(ds)
  {
    ds := Numeral(Abs(v), base);
    hide Numeral, Value;
    NumeralUnique(ds, Abs(v), base);
  }

  lemma DecimalAndBack(t: seq<char>)
    requires forall i :: 0 <= i < |t| ==> IsDecimal(t[i])
    ensures AllBelow(CharDigits(t), 10) && Chars(CharDigits(t)) == t
  {
  }

  lemma DecimalIsListed(c: char)
    ensures IsDecimal(c) <==> c in "0123456789"
  {
    if IsDecimal(c) {
      assert "0123456789"[c as int - '0' as int] == c;
    }
  }

  lemma SignSplits(t: seq<char>, k: nat)
    requires k <= |Unsigned(t)|
    ensures t == (if Negative(t) then "-" else "") + Unsigned(t)[..k] + Unsigned(t)[k..]
  {
  }

  // What strToInt makes of any text at all: a sign if there is one, the digits up to the
  // first other character, and the rest, which is not looked at.  The value is that of the
  // digits, with the sign only if there is no rest; the size is that of sign and digits.
  lemma ParseIntIs(t: seq<char>) returns (ds: seq<nat>, rest: seq<char>)
    ensures AllBelow(ds, 10) && (rest != [] ==> rest[0] !in "0123456789")
    ensures var sign := if t != [] && t[0] == '-' then "-" else "";
            var v: int := Value(ds, 10);
            && t == sign + Chars(ds) + rest
            && ParseInt(t) == (if sign == "-" && rest == [] then -v else v, |sign| + |ds|)
  {
    hide Value, DigitRun, IsDecimal, CharDigits, CharDigit, Chars, DigitChar;
    var u := Unsigned(t);
    var k := DigitRun(u);
    ds, rest := CharDigits(u[..k]), u[k..];
    DecimalAndBack(u[..k]);
    if rest != [] {
      DecimalIsListed(rest[0]);
    }
    SignSplits(t, k);
  }

  // And strToHex: a value if all characters are hexadecimal digits, of either case.
  lemma ParseHexIs(t: seq<char>, ns: seq<nat>)
    requires |ns| == |t| && forall i :: 0 <= i < |t| ==> ns[i] < |HEXADECIMAL| && t[i] == HEXADECIMAL[ns[i]]
    ensures ParseHex(t) == Value(seq(|ns|, i requires 0 <= i < |ns| => if ns[i] < 16 then ns[i] else ns[i] - 6), 16)
  {
    var ds := seq(|ns|, i requires 0 <= i < |ns| => if ns[i] < 16 then ns[i] else ns[i] - 6);
    forall i | 0 <= i < |t|
      ensures IsHex(t[i]) && CharDigit(t[i]) == ds[i]
    {
      CharDigitIs(ns[i]);
    }
    assert CharDigits(t) == ds;
  }

  lemma ParseHexFails(t: seq<char>)
    ensures ParseHex(t) == -1 <==> exists i :: 0 <= i < |t| && t[i] !in HEXADECIMAL
  {
    forall i | 0 <= i < |t|
      ensures IsHex(t[i]) <==> t[i] in HEXADECIMAL
    {
      HexIsListed(t[i]);
    }
  }

  // Where a base other than ten is used the sign is lost.
  lemma SignIsLost(v: int, base: nat)
    requires 2 <= base <= 32
    ensures IntText(v, base) == IntText(-v, base) <==> v == 0 || base != 10
  {
    NumeralUnique(Numeral(Abs(v), base), Abs(v), base);
    var t, u := IntText(v, base), IntText(-v, base);
    if base == 10 && v != 0 {
      CharsAndBack(Numeral(Abs(v), base), 10);
      assert |t| != |u|;
    }
  }

  // ----- the loops -----

  // The string in a buffer ends before its first NUL.
  ghost predicate Holds(b: seq<char>, t: seq<char>)
  {
    |t| < |b| && b[..|t|] == t && b[|t|] == '\0' && forall i :: 0 <= i < |t| ==> t[i] != '\0'
  }

  method Reverse(buffer: array<char>, first: int, last: int)
    requires 0 <= first && last < buffer.Length && first <= last + 1
    modifies buffer
    ensures forall k :: 0 <= k < buffer.Length ==>
              buffer[k] == old(buffer[if first <= k <= last then first + last - k else k])
  {
    var i, j := first, last;
    while i < j
      invariant first <= i && i + j == first + last && i <= j + 1
      invariant forall k :: 0 <= k < buffer.Length ==>
                  buffer[k] == old(buffer[if (first <= k < i || j < k <= last) then first + last - k else k])
    {
      buffer[i], buffer[j] := buffer[j], buffer[i];
      i, j := i + 1, j - 1;
    }
  }

  // The buffer starts with this text, the last character first.
  ghost predicate Backwards(b: seq<char>, t: seq<char>)
  {
    |t| <= |b| && forall k :: 0 <= k < |t| ==> b[k] == t[|t| - 1 - k]
  }

  method PutChar(buffer: array<char>, i: nat, c: char, ghost t: seq<char>)
    requires i == |t| < buffer.Length && Backwards(buffer[..], t)
    modifies buffer
    ensures Backwards(buffer[..], [c] + t) && (forall k :: i < k < buffer.Length ==> buffer[k] == old(buffer[k]))
  {
    buffer[i] := c;
  }

  // Terminate the text, and turn it round.
  method Finish(buffer: array<char>, i: nat, ghost t: seq<char>)
    requires i == |t| < buffer.Length && Backwards(buffer[..], t) && forall k :: 0 <= k < |t| ==> t[k] != '\0'
    modifies buffer
    ensures Holds(buffer[..], t) && (forall k :: i < k < buffer.Length ==> buffer[k] == old(buffer[k]))
  {
    buffer[i] := '\0';
    Reverse(buffer, 0, i - 1);
  }

  // Some of the digits of value are written: low, the lowest ones.
  ghost predicate Written(value: nat, n: nat, base: nat, low: seq<nat>)
  {
    base >= 2 && AllBelow(low, base) && Digits(value, base) == Digits(n, base) + low
  }

  lemma CharsMore(d: nat, low: seq<nat>)
    requires d < 36 && AllBelow(low, 36)
    ensures Chars([d] + low) == [DigitChar(d)] + Chars(low)
  {
    hide DigitChar;
  }

  lemma OneMoreDigit(value: nat, n: nat, base: nat, low: seq<nat>)
    requires Written(value, n, base, low) && base <= 36
    ensures n % base < 36 && Chars([n % base] + low) == [DigitChar(n % base)] + Chars(low)
    ensures n > 0 ==> Written(value, n / base, base, [n % base] + low) && |low| < |Digits(value, base)|
  {
    hide DigitChar;
    DivMod(n, base);
    var q, r := n / base, n % base;
    CharsMore(r, low);
    if n > 0 {
      var ds := Digits(q, base);
      assert Digits(n, base) == ds + [r];
      hide Digits;
      assert (ds + [r]) + low == ds + ([r] + low);
      assert AllBelow([r] + low, base);
    }
  }

  lemma NoTerminator(ds: seq<nat>)
    requires AllBelow(ds, 36)
    ensures forall i :: 0 <= i < |ds| ==> Chars(ds)[i] != '\0'
  {
  }

  ghost predicate Progress(b: seq<char>, value: nat, n: nat, base: nat, low: seq<nat>)
  {
    base <= 36 && Written(value, n, base, low) && Backwards(b, Chars(low))
  }

  lemma ProgressStarts(b: seq<char>, value: nat, base: nat)
    requires 2 <= base <= 36
    ensures Progress(b, value, value, base, []) && (value == 0 ==> Digits(value, base) == [])
  {
  }

  lemma ProgressEnds(b: seq<char>, value: nat, base: nat, low: seq<nat>)
    requires Progress(b, value, 0, base, low)
    ensures low == Digits(value, base) && AllBelow(low, 36) && Backwards(b, Chars(low))
    ensures forall i :: 0 <= i < |low| ==> Chars(low)[i] != '\0'
  {
    NoTerminator(low);
  }

  // One turn of the printing loops.
  method PutDigit(buffer: array<char>, i: nat, n: nat, base: nat, ghost value: nat, ghost low: seq<nat>)
    returns (ghost longer: seq<nat>, rest: nat)
    requires Progress(buffer[..], value, n, base, low) && i == |low| && n > 0 && |Digits(value, base)| < buffer.Length
    modifies buffer
    ensures Progress(buffer[..], value, rest, base, longer) && |longer| == i + 1 <= |Digits(value, base)|
    ensures rest == n / base && rest < n && (forall k :: i < k < buffer.Length ==> buffer[k] == old(buffer[k]))
  {
    OneMoreDigit(value, n, base, low);
    Shrinks(n, base);
    hide Backwards, Written, Digits;
    PutChar(buffer, i, if n % base >= 10 then (65 + (n % base - 10)) as char else (48 + n % base) as char, Chars(low));
    longer := [n % base] + low;
    rest := n / base;
  }

  method IntToStr(value: int, buffer: array<char>, base: nat)
    requires 2 <= base <= 32 ==> |IntText(value, base)| < buffer.Length
    modifies buffer
    ensures !(2 <= base <= 32) ==> buffer[..] == old(buffer[..])
    ensures 2 <= base <= 32 ==>
              && Holds(buffer[..], IntText(value, base))
              && (forall k :: |IntText(value, base)| < k < buffer.Length ==> buffer[k] == old(buffer[k]))
  {
    if base < 2 || base > 32 { return; }
    hide Progress, Holds, Digits, Backwards;
    var n: nat := Abs(value);
    var i := 0;
    ghost var low: seq<nat> := [];
    ProgressStarts(buffer[..], n, base);
    while n != 0
      invariant i == |low| <= |Digits(Abs(value), base)| && Progress(buffer[..], Abs(value), n, base, low)
      invariant forall k :: i < k < buffer.Length ==> buffer[k] == old(buffer[k])
      invariant (i == 0 ==> n == Abs(value)) && (value == 0 ==> i == 0)
    {
      low, n := PutDigit(buffer, i, n, base, Abs(value), low);
      i := i + 1;
    }
    ProgressEnds(buffer[..], Abs(value), base, low);
    ghost var text := Chars(low);
    if i == 0 {
      PutChar(buffer, i, '0', text);
      text := ['0'] + text;
      i := i + 1;
    }
    assert text == Chars(Numeral(Abs(value), base));
    if value < 0 && base == 10 {
      PutChar(buffer, i, '-', text);
      text := ['-'] + text;
      i := i + 1;
    }
    assert text == IntText(value, base);
    Finish(buffer, i, text);
  }

  // ----- reading -----

  // The string a buffer holds is the one before its first NUL.
  lemma HoldsOne(b: seq<char>, t: seq<char>, i: nat)
    requires Holds(b, t) && i <= |t|
    ensures |t| < |b|
    ensures b[i] == '\0' <==> i == |t|
    ensures i < |t| ==> b[i] == t[i]
  {
  }

  method StrToInt(str: array<char>, ghost t: seq<char>) returns (res: int, size: nat)
    requires Holds(str[..], t)
    ensures (res, size) == ParseInt(t)
  {
    hide Holds, DigitRun, Value, CharDigits;
    size, res := 0, 0;
    var sign, i := 1, 0;
    HoldsOne(str[..], t, 0);
    if str[0] == '-' {
      sign, size, i := -1, 1, 1;
    }
    ghost var u := Unsigned(t);
    ghost var k := 0;
    HoldsOne(str[..], t, i);
    ReadNothing(u);
    while str[i] != '\0'
      invariant sign == if Negative(t) then -1 else 1
      invariant k <= |u| && i == |t| - |u| + k && size == i
      invariant res == Value(CharDigits(u[..k]), 10) && DigitRun(u) == k + DigitRun(u[k..])
      decreases |u| - k
    {
      HoldsOne(str[..], t, i);
      OneMoreChar(u, k, 10);
      assert Negative(t) ==> t[i] == u[k];
      if str[i] < '0' || str[i] > '9' { return; }
      res := res * 10 + (str[i] as int - '0' as int);
      size := size + 1;
      i, k := i + 1, k + 1;
    }
    HoldsOne(str[..], t, i);
    ReadAll(u, k);
    return sign * res, size;
  }

  lemma ReadNothing(u: seq<char>)
    ensures Value(CharDigits(u[..0]), 10) == 0 && DigitRun(u[0..]) == DigitRun(u)
  {
    assert u[0..] == u;
  }

  lemma ReadAll(u: seq<char>, k: nat)
    ensures k == |u| ==> u[..k] == u && DigitRun(u[k..]) == 0
  {
  }

  lemma OneMoreChar(u: seq<char>, k: nat, base: nat)
    requires k < |u|
    ensures Value(CharDigits(u[..k + 1]), base) == Value(CharDigits(u[..k]), base) * base + CharDigit(u[k])
    ensures DigitRun(u[k..]) == if IsDecimal(u[k]) then 1 + DigitRun(u[k + 1..]) else 0
  {
    assert CharDigits(u[..k + 1])[..k] == CharDigits(u[..k]);
    assert u[k..][1..] == u[k + 1..];
  }

  method StrToHex(str: array<char>, ghost t: seq<char>) returns (val: int)
    requires Holds(str[..], t)
    ensures val == ParseHex(t)
  {
    val := 0;
    var i := 0;
    HoldsOne(str[..], t, 0);
    while str[i] != '\0'
      invariant i <= |t| && val == Value(CharDigits(t[..i]), 16)
      invariant forall k :: 0 <= k < i ==> IsHex(t[k])
      decreases |t| - i
    {
      HoldsOne(str[..], t, i);
      if !IsHex(str[i]) { return -1; }
      OneMoreChar(t, i, 16);
      if IsDecimal(str[i]) {
        val := val * 16 + (str[i] as int - '0' as int);
      } else if 'A' <= str[i] <= 'F' {
        val := val * 16 + (str[i] as int - 'A' as int + 10);
      } else {
        val := val * 16 + (str[i] as int - 'a' as int + 10);
      }
      i := i + 1;
      HoldsOne(str[..], t, i);
    }
    HoldsOne(str[..], t, i);
    assert t[..i] == t;
  }
}
