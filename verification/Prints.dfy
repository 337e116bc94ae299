// The kernel's integer logarithm, and its printing of numbers.
module Prints {
  import opened Bits
  import opened Numerals

  function FloorLog2(n: nat): int
  {
    if n == 0 then -1 else 1 + FloorLog2(n / 2)
  }

  lemma {:induction false} FloorLog2Bounds(n: nat)
    requires n > 0
    ensures FloorLog2(n) >= 0
    ensures Pow2(FloorLog2(n)) <= n < Pow2(FloorLog2(n) + 1)
  {
    if n > 1 {
      FloorLog2Bounds(n / 2);
    }
  }

  lemma {:induction false} FloorLog2Upper(n: nat, k: nat)
    requires n < Pow2(k)
    ensures FloorLog2(n) < k
  {
    if n > 0 {
      if k > 0 {
        FloorLog2Upper(n / 2, k - 1);
      }
    }
  }

  // log2: shift the number out, counting.
  method Log2(number: nat) returns (result: int)
    ensures result == FloorLog2(number)
  {
    if number == 0 {
      return -1;
    }
    result := -1;
    var n := number;
    while n != 0
      invariant FloorLog2(number) == result + 1 + FloorLog2(n)
    {
      result := result + 1;
      n := n / 2;
    }
  }

  ghost predicate PrintsZero(b: seq<char>, low: seq<nat>)
  {
    low == [0] && Backwards(b, ['0'])
  }

  method PutZero(buffer: array<char>) returns (ghost low: seq<nat>)
    requires buffer.Length > 1
    modifies buffer
    ensures PrintsZero(buffer[..], low) && Chars(low) == ['0']
    ensures forall k :: 0 < k < buffer.Length ==> buffer[k] == old(buffer[k])
  {
    buffer[0] := '0';
    low := [0];
  }

  method UintToBase(value: nat, buffer: array<char>, base: nat) returns (digits: nat)
    requires 2 <= base <= 36 && |Numeral(value, base)| < buffer.Length
    modifies buffer
    ensures AllBelow(Numeral(value, base), 36) && Holds(buffer[..], Chars(Numeral(value, base)))
    ensures digits == |Numeral(value, base)| && (forall k :: digits < k < buffer.Length ==> buffer[k] == old(buffer[k]))
  {
    hide Progress, Holds, Digits;
    ProgressStarts(buffer[..], value, base);
    ghost var low: seq<nat> := [];
    var n: nat := value;
    digits := 0;
    var more := true;
    while more
      invariant digits == |low| <= |Numeral(value, base)|
      invariant forall k :: digits < k < buffer.Length ==> buffer[k] == old(buffer[k])
      invariant value > 0 ==> Progress(buffer[..], value, n, base, low) && (n > 0 <==> more)
      invariant value == 0 ==> n == 0 && (if more then low == [] else PrintsZero(buffer[..], low))
      decreases more, n
    {
      if n > 0 {
        low, n := PutDigit(buffer, digits, n, base, value, low);
      } else {
        low := PutZero(buffer);
      }
      digits := digits + 1;
      more := n != 0;
    }
    if value > 0 {
      ProgressEnds(buffer[..], value, base, low);
    }
    Finish(buffer, digits, Chars(low));
  }
}
