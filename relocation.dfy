/** The size converter and experiment constants of
    homework5/relocation_graph.py. Python exceptions (an empty string, a
    malformed integer, a zero range step) are None. */
module Relocation {
  import opened Wrappers

  const KB: nat := 1024

  // --------------------------------------------------------- int / str

  predicate IsDigit(c: char)
  {
    '0' <= c <= '9'
  }

  predicate AllDigits(s: string)
  {
    forall i :: 0 <= i < |s| ==> IsDigit(s[i])
  }

  /** The value of a string of decimal digits. */
  function DigitsValue(s: string): nat
    requires AllDigits(s)
  {
    if s == [] then 0 else 10 * DigitsValue(s[..|s| - 1]) + (s[|s| - 1] - '0') as nat
  }

  /** int(s) for an optional sign followed by decimal digits. */
  function ParseInt(s: string): (r: Option<int>)
    ensures r.Some? ==> s != []
  {
    var sign := if s != [] && (s[0] == '-' || s[0] == '+') then 1 else 0;
    var digits := s[sign..];
    if digits == [] || !AllDigits(digits) then None
    else
      var v: int := DigitsValue(digits);
      if sign == 1 && s[0] == '-' then Some(-v) else Some(v)
  }

  /** The decimal digits of n, most significant first. */
  function NatToDigits(n: nat): (s: string)
    ensures s != [] && AllDigits(s)
  {
    if n < 10 then ['0' + n as char] else NatToDigits(n / 10) + ['0' + (n % 10) as char]
  }

  /** str(n) */
  function IntToString(n: int): (s: string)
    ensures s != [] && IsDigit(s[|s| - 1])
  {
    if n < 0 then "-" + NatToDigits(-n) else NatToDigits(n)
  }

  lemma {:induction false} DigitsRoundTrip(n: nat)
    ensures DigitsValue(NatToDigits(n)) == n
  {
    if n >= 10 {
      var s := NatToDigits(n);
      assert s[..|s| - 1] == NatToDigits(n / 10);
      DigitsRoundTrip(n / 10);
    }
  }

  /** int(str(n)) == n */
  lemma ParseIntToString(n: int)
    ensures ParseInt(IntToString(n)) == Some(n)
  {
    var s := IntToString(n);
    if n < 0 {
      var digits := NatToDigits(-n);
      assert s[0] == '-' && s[1..] == digits;
      DigitsRoundTrip(-n);
      assert DigitsValue(s[1..]) == -n;
    } else {
      assert s == NatToDigits(n) && IsDigit(s[0]);
      assert s[0..] == s;
      DigitsRoundTrip(n);
    }
  }

  // ------------------------------------------------------------- convert

  /** What convert receives: a string such as "4m", or a Python int. */
  datatype SizeArg = Text(s: string) | Number(n: int)

  /** The multiplier a trailing unit letter stands for, if it is one. */
  function UnitScale(c: char): (m: Option<nat>)
    ensures m.Some? <==> c in "kKmMgG"
  {
    if c == 'k' || c == 'K' then Some(KB)
    else if c == 'm' || c == 'M' then Some(KB * KB)
    else if c == 'g' || c == 'G' then Some(KB * KB * KB)
    else None
  }

  /** convert: the argument as a string; a trailing k/m/g (either case)
      scales the integer before it by 1024, 1024^2 or 1024^3; any other
      last character makes the whole string the integer. */
  function Convert(arg: SizeArg): Option<int>
  {
    var s := match arg case Text(t) => t case Number(n) => IntToString(n);
    if s == [] then None
    else
      var last := s[|s| - 1];
      match UnitScale(last)
      case Some(m) =>
        (match ParseInt(s[..|s| - 1]) case Some(v) => Some(v * m) case None => None)
      case None => ParseInt(s)
  }

  /** An integer converts to itself. */
  lemma ConvertNumber(n: int)
    ensures Convert(Number(n)) == Some(n)
  {
    var s := IntToString(n);
    assert !(s[|s| - 1] in "kKmMgG");
    ParseIntToString(n);
  }

  /** A number written with a unit letter converts to the number times the
      unit. */
  lemma ConvertWithUnit(n: int, unit: char)
    requires unit in "kKmMgG"
    ensures Convert(Text(IntToString(n) + [unit])) == Some(n * UnitScale(unit).value)
  {
    var s := IntToString(n) + [unit];
    assert s[..|s| - 1] == IntToString(n);
    ParseIntToString(n);
  }

  /** The empty string, a lone unit letter and a non-number are errors. */
  lemma ConvertErrors()
    ensures Convert(Text("")) == None
    ensures Convert(Text("k")) == None
    ensures Convert(Text("12x")) == None
  {
    assert !AllDigits("12x") by { assert !IsDigit("12x"[2]); }
  }

  // ----------------------------------------------------------- the sweep

  /** list(range(start, stop, step)); a zero step raises ValueError. */
  function Range(start: int, stop: int, step: int): Option<seq<int>>
  {
    if step == 0 then None else Some(RangeFrom(start, stop, step))
  }

  function RangeFrom(start: int, stop: int, step: int): seq<int>
    requires step != 0
    decreases if step > 0 then stop - start else start - stop
  {
    if (step > 0 && start >= stop) || (step < 0 && start <= stop) then []
    else [start] + RangeFrom(start + step, stop, step)
  }

  /** A rising range is start, start + step, ..., every value below stop,
      and the next one would not be. */
  lemma {:induction false} RangeUp(start: int, stop: int, step: int)
    requires step > 0
    ensures var r := RangeFrom(start, stop, step);
      (forall i :: 0 <= i < |r| ==> r[i] == start + i * step && r[i] < stop)
      && start + |r| * step >= stop
    decreases stop - start
  {
    if start < stop {
      RangeUp(start + step, stop, step);
      var rest := RangeFrom(start + step, stop, step);
      forall i | 1 <= i <= |rest| ensures start + step + (i - 1) * step == start + i * step {
        StepMul(i, step);
      }
    }
  }

  lemma MulCancel(a: int, b: int, step: int)
    requires step > 0
    ensures a * step < b * step ==> a < b
  {
    if a >= b {
      assert a * step - b * step == (a - b) * step;
    }
  }

  lemma StepMul(i: int, step: int)
    ensures step + (i - 1) * step == i * step
  {
  }

  /** The address-space and physical-memory sizes main uses. */
  lemma MainSizes()
    ensures Convert(Text("1k")) == Some(1024)
    ensures Convert(Text("16k")) == Some(16384)
  {
    assert "1k"[..1] == "1" && "1"[0..] == "1" && "1"[..0] == "";
    assert DigitsValue("1") == 1;
    assert "16k"[..2] == "16" && "16"[0..] == "16" && "16"[..1] == "1";
    assert DigitsValue("16") == 16;
  }

  /** The limits main sweeps: 0 to asize in steps of asize // 20. */
  function Limits(asize: int): Option<seq<int>>
  {
    Range(0, asize + 1, asize / 20)
  }

  /** A rising range whose last value falls in the final step before
      stop has exactly k values. */
  lemma RangeOfLength(start: int, stop: int, step: int, k: nat)
    requires step > 0 && start + (k - 1) * step < stop <= start + k * step
    ensures RangeFrom(start, stop, step) == seq(k, i => start + i * step)
  {
    RangeUp(start, stop, step);
    var r := RangeFrom(start, stop, step);
    MulCancel(k - 1, |r|, step);
    if |r| > 0 {
      assert r[|r| - 1] == start + (|r| - 1) * step;
      MulCancel(|r| - 1, k, step);
    }
    assert |r| == k;
    assert forall i :: 0 <= i < k ==> r[i] == start + i * step;
  }

  /** For the 1 KB address space: 21 limits, 0, 51, ..., 1020. */
  lemma SweepFor1k()
    ensures Limits(1024).Some? && |Limits(1024).value| == 21
    ensures forall i :: 0 <= i < 21 ==> Limits(1024).value[i] == 51 * i
  {
    var step := 1024 / 20;
    assert step == 51;
    RangeOfLength(0, 1025, step, 21);
  }

  /** An address space under 20 bytes gives a zero step, which Python
      rejects. */
  lemma SmallSpaceHasNoSweep(asize: int)
    requires 0 <= asize < 20
    ensures Limits(asize) == None
  {
  }
}
