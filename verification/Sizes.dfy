/** Target sizes on the command line (`tp_parse_size`) and estimated entry costs (`tp_estimate_entry_cost`). */
module Sizes {
  import opened Decimals
  import opened Int64
  import opened Types

  predicate IsLetter(c: char) { 'a' <= c <= 'z' || 'A' <= c <= 'Z' }

  function Upper(c: char): char
    requires IsLetter(c)
  {
    if 'a' <= c <= 'z' then (c as int - 'a' as int + 'A' as int) as char else c
  }

  /** What the spelling `s` denotes in exact arithmetic: digits, then at most one of K, M, G in either case. */
  function Denoted(s: string): Option<nat> {
    if s != "" && AllDigits(s) then Some(Decimal(s))
    else if |s| >= 2 && AllDigits(s[..|s| - 1]) then
      match s[|s| - 1]
      case 'k' => Some(Decimal(s[..|s| - 1]) * 1024)
      case 'K' => Some(Decimal(s[..|s| - 1]) * 1024)
      case 'm' => Some(Decimal(s[..|s| - 1]) * 1048576)
      case 'M' => Some(Decimal(s[..|s| - 1]) * 1048576)
      case 'g' => Some(Decimal(s[..|s| - 1]) * 1073741824)
      case 'G' => Some(Decimal(s[..|s| - 1]) * 1073741824)
      case _ => None
    else None
  }

  /** Each suffix is 1024 times the one before, and case does not matter. */
  lemma SuffixesScale(s: string)
    requires s != "" && AllDigits(s)
    ensures Denoted(s).Some? && Denoted(s + "K") == Some(1024 * Denoted(s).value)
    ensures Denoted(s + "M") == Some(1024 * Denoted(s + "K").value)
    ensures Denoted(s + "G") == Some(1024 * Denoted(s + "M").value)
    ensures Denoted(s + "k") == Denoted(s + "K") && Denoted(s + "m") == Denoted(s + "M")
    ensures Denoted(s + "g") == Denoted(s + "G")
  {
    forall x: char | !IsDigit(x) ensures !AllDigits(s + [x]) && (s + [x])[..|s|] == s && (s + [x])[|s|] == x {
      assert !IsDigit((s + [x])[|s|]);
    }
  }

  /** A longer run of digits denotes no smaller number. */
  lemma {:induction false} DecimalPrefix(s: string, i: nat)
    requires AllDigits(s) && i <= |s|
    ensures Decimal(s[..i]) <= Decimal(s)
    decreases |s|
  {
    if i < |s| {
      DecimalPrefix(s[..|s| - 1], i);
      assert s[..|s| - 1][..i] == s[..i];
    } else {
      assert s[..i] == s;
    }
  }

  /** Reads digits into 64 unsigned bits, giving up as soon as the next digit would not fit. */
  method ParseDigits(s: string) returns (val: Option<nat>)
    requires AllDigits(s)
    ensures val == if Decimal(s) <= UINT64_MAX then Some(Decimal(s)) else None
  {
    var v := 0;
    for i := 0 to |s|
      invariant 0 <= v <= UINT64_MAX && v == Decimal(s[..i])
    {
      var d := s[i] as int - '0' as int;
      assert s[..i + 1][..i] == s[..i];
      if v > (UINT64_MAX - d) / 10 {
        DecimalPrefix(s, i + 1);
        return None;
      }
      v := v * 10 + d;
    }
    assert s[..|s|] == s;
    return Some(v);
  }

  method ParseSize(s: string) returns (bytes: Option<int>)
    ensures bytes.Some? <==> Denoted(s).Some? && Denoted(s).value <= INT64_MAX
    ensures bytes.Some? ==> bytes.value == Denoted(s).value
  {
    if s == "" { return None; }
    var suffix: Option<char> := None;
    var digitsLen := |s|;
    var last := s[|s| - 1];
    if IsLetter(last) {
      suffix := Some(Upper(last));
      digitsLen := |s| - 1;
    }
    if digitsLen == 0 { return None; }
    var digits := s[..digitsLen];
    for i := 0 to digitsLen
      invariant forall j :: 0 <= j < i ==> IsDigit(s[j])
    {
      if !IsDigit(s[i]) {
        assert s[..|s| - 1][i..] != [] ==> !IsDigit(s[..|s| - 1][i]);
        return None;
      }
    }
    assert digitsLen == |s| ==> digits == s;
    var val := ParseDigits(digits);
    var multiplier;
    match suffix {
      case None => multiplier := 1;
      case Some('K') => multiplier := 1024;
      case Some('M') => multiplier := 1024 * 1024;
      case Some('G') => multiplier := 1024 * 1024 * 1024;
      case _ => return None;
    }
    if val.None? || val.value > INT64_MAX / multiplier { return None; }
    return Some(val.value * multiplier);
  }

  /** A header block, the data in whole blocks, and an allowance for extended headers. */
  function EstimateEntryCost(size: nat): (cost: int)
    ensures cost >= 2048 && cost % 512 == 0 && cost >= 2048 + size && cost < 2048 + size + 512
  {
    512 + (size + 511) / 512 * 512 + 1536
  }

  /** The estimate stays in `int64_t`, at every step, exactly for sizes at least 2559 below its end. */
  lemma EstimateFitsExactly(size: nat)
    ensures size <= INT64_MAX - 2559
            <==> IsInt64(size + 511) && IsInt64((size + 511) / 512 * 512) && IsInt64(EstimateEntryCost(size))
  {}
}
