/** UTF-8 as section 3 of RFC 3629 defines it, and the validator `tp_utf8_valid`. */
module Utf8 {
  import opened Types

  /** A Unicode scalar value: a code point that is no surrogate. */
  type Scalar = cp: int | 0 <= cp < 0xD800 || 0xE000 <= cp <= 0x10FFFF

  function Encode(cp: Scalar): (s: Bytes)
    ensures s != []
  {
    if cp < 0x80 then [cp]
    else if cp < 0x800 then [0xC0 + cp / 64, 0x80 + cp % 64]
    else if cp < 0x10000 then [0xE0 + cp / 4096, 0x80 + cp / 64 % 64, 0x80 + cp % 64]
    else [0xF0 + cp / 262144, 0x80 + cp / 4096 % 64, 0x80 + cp / 64 % 64, 0x80 + cp % 64]
  }

  function EncodeAll(cps: seq<Scalar>): Bytes {
    if cps == [] then [] else Encode(cps[0]) + EncodeAll(cps[1..])
  }

  ghost predicate IsUtf8(s: Bytes) { exists cps :: EncodeAll(cps) == s }

  // ---------------------------------------------------------------- one character

  /** How many continuation bytes a leading byte calls for; 4 for a byte that leads nothing. */
  function Extra(b: byte): (k: nat)
    ensures k <= 4
  {
    if b < 0x80 then 0
    else if b / 32 == 6 then 1
    else if b / 16 == 14 then 2
    else if b / 8 == 30 then 3
    else 4
  }

  /** The bits a leading byte contributes. */
  function Payload(b: byte): nat {
    match Extra(b)
    case 0 => b
    case 1 => b % 32
    case 2 => b % 16
    case _ => b % 8
  }

  /** The smallest code point a sequence with this many continuation bytes may stand for. */
  function MinimumOf(extra: nat): nat {
    match extra
    case 0 => 0
    case 1 => 0x80
    case 2 => 0x800
    case _ => 0x10000
  }

  /** The bits a continuation byte contributes. */
  function Low(b: byte): nat { b % 64 }

  predicate IsContinuation(b: byte) { b / 64 == 2 }

  /** The number spelled by a leading byte and the `k` bytes behind it. */
  function Accumulated(s: Bytes, k: nat): nat
    requires k < |s|
  {
    if k == 0 then Payload(s[0]) else Accumulated(s, k - 1) * 64 + Low(s[k])
  }

  predicate Continues(s: Bytes, k: nat)
    requires k < |s|
  {
    forall j :: 1 <= j <= k ==> IsContinuation(s[j])
  }

  lemma LeadByte(cp: Scalar)
    ensures Extra(Encode(cp)[0]) == |Encode(cp)| - 1
  {}

  lemma TwoBytes(b0: byte, b1: byte, cp: Scalar)
    requires b0 / 32 == 6
    ensures 0x80 <= cp < 0x800 && b0 == 0xC0 + cp / 64 && b1 == 0x80 + cp % 64
            <==> IsContinuation(b1) && b0 % 32 * 64 + b1 % 64 == cp && 0x80 <= cp
  {}

  lemma ThreeBytes(b0: byte, b1: byte, b2: byte, cp: Scalar)
    requires b0 / 16 == 14
    ensures 0x800 <= cp < 0x10000 && b0 == 0xE0 + cp / 4096 && b1 == 0x80 + cp / 64 % 64 && b2 == 0x80 + cp % 64
            <==> && IsContinuation(b1) && IsContinuation(b2)
                 && (b0 % 16 * 64 + b1 % 64) * 64 + b2 % 64 == cp && 0x800 <= cp
  {}

  lemma FourBytesSpelled(b0: byte, b1: byte, b2: byte, b3: byte, cp: Scalar)
    requires b0 / 8 == 30 && IsContinuation(b1) && IsContinuation(b2) && IsContinuation(b3)
    requires ((b0 % 8 * 64 + b1 % 64) * 64 + b2 % 64) * 64 + b3 % 64 == cp
    ensures b0 == 0xF0 + cp / 262144 && b1 == 0x80 + cp / 4096 % 64 && b2 == 0x80 + cp / 64 % 64 && b3 == 0x80 + cp % 64
  {
    assert cp / 64 == (b0 % 8 * 64 + b1 % 64) * 64 + b2 % 64;
    assert cp / 4096 == b0 % 8 * 64 + b1 % 64;
  }

  lemma FourBytesSpell(b0: byte, b1: byte, b2: byte, b3: byte, cp: Scalar)
    requires 0x10000 <= cp && b0 == 0xF0 + cp / 262144 && b1 == 0x80 + cp / 4096 % 64 && b2 == 0x80 + cp / 64 % 64
    requires b3 == 0x80 + cp % 64
    ensures IsContinuation(b1) && IsContinuation(b2) && IsContinuation(b3)
    ensures ((b0 % 8 * 64 + b1 % 64) * 64 + b2 % 64) * 64 + b3 % 64 == cp
  {
    assert b0 % 8 == cp / 262144;
    assert cp / 262144 * 64 + cp / 4096 % 64 == cp / 4096;
    assert cp / 4096 * 64 + cp / 64 % 64 == cp / 64;
  }

  lemma TwoExactly(s: Bytes, cp: Scalar)
    requires |s| >= 2 && Extra(s[0]) == 1 && |Encode(cp)| == 2
    ensures Encode(cp) <= s <==> Spells(s, cp)
  {
    PrefixAt(Encode(cp), s);
    TwoBytes(s[0], s[1], cp);
    assert Accumulated(s, 1) == Payload(s[0]) * 64 + Low(s[1]);
  }

  lemma ThreeExactly(s: Bytes, cp: Scalar)
    requires |s| >= 3 && Extra(s[0]) == 2 && |Encode(cp)| == 3
    ensures Encode(cp) <= s <==> Spells(s, cp)
  {
    assert Encode(cp) <= s <==> s[0] == Encode(cp)[0] && s[1] == Encode(cp)[1] && s[2] == Encode(cp)[2];
    ThreeBytes(s[0], s[1], s[2], cp);
    assert Accumulated(s, 1) == Payload(s[0]) * 64 + Low(s[1]);
    assert Accumulated(s, 2) == (Payload(s[0]) * 64 + Low(s[1])) * 64 + Low(s[2]);
  }

  lemma FourExactly(s: Bytes, cp: Scalar)
    requires |s| >= 4 && Extra(s[0]) == 3 && |Encode(cp)| == 4
    ensures Encode(cp) <= s <==> Spells(s, cp)
  {
    assert Accumulated(s, 1) == Payload(s[0]) * 64 + Low(s[1]);
    assert Accumulated(s, 2) == (Payload(s[0]) * 64 + Low(s[1])) * 64 + Low(s[2]);
    assert Accumulated(s, 3) == ((Payload(s[0]) * 64 + Low(s[1])) * 64 + Low(s[2])) * 64 + Low(s[3]);
    if Encode(cp) <= s {
      FourBytesSpell(s[0], s[1], s[2], s[3], cp);
    }
    if Spells(s, cp) {
      assert IsContinuation(s[1]) && IsContinuation(s[2]) && IsContinuation(s[3]);
      FourBytesSpelled(s[0], s[1], s[2], s[3], cp);
    }
  }

  lemma PrefixAt(e: Bytes, s: Bytes)
    ensures e <= s <==> |e| <= |s| && forall i :: 0 <= i < |e| ==> e[i] == s[i]
  {}

  /** The sequence at the start of `s` is whole, shortest possible, and stands for `cp`. */
  predicate Spells(s: Bytes, cp: int)
    requires s != [] && Extra(s[0]) < 4
  {
    var k := Extra(s[0]);
    k < |s| && Continues(s, k) && Accumulated(s, k) == cp && MinimumOf(k) <= cp
  }

  lemma SpelledSize(s: Bytes, cp: Scalar)
    requires s != [] && Extra(s[0]) < 4 && Spells(s, cp)
    ensures |Encode(cp)| == Extra(s[0]) + 1
  {
    var k := Extra(s[0]);
    if k == 1 {
      assert Accumulated(s, 1) == Payload(s[0]) * 64 + Low(s[1]);
    } else if k == 2 {
      assert Accumulated(s, 1) == Payload(s[0]) * 64 + Low(s[1]);
      assert Accumulated(s, 2) == (Payload(s[0]) * 64 + Low(s[1])) * 64 + Low(s[2]);
    }
  }

  /** A scalar value's encoding starts `s` exactly when the sequence there is well formed and spells that value. */
  lemma EncodingExactly(s: Bytes, cp: Scalar)
    requires s != [] && Extra(s[0]) < 4
    ensures Encode(cp) <= s <==> Spells(s, cp)
  {
    LeadByte(cp);
    if Spells(s, cp) { SpelledSize(s, cp); }
    var k := Extra(s[0]);
    if k < |s| && k == |Encode(cp)| - 1 {
      match k {
        case 0 => assert Accumulated(s, 0) == s[0];
        case 1 => TwoExactly(s, cp);
        case 2 => ThreeExactly(s, cp);
        case 3 => FourExactly(s, cp);
      }
    }
  }

  // ---------------------------------------------------------------- whole strings

  lemma PrefixFree(s: Bytes, x: Scalar, y: Scalar)
    requires Encode(x) <= s && Encode(y) <= s
    ensures x == y
  {
    LeadByte(x);
    assert s[0] == Encode(x)[0];
    EncodingExactly(s, x);
    EncodingExactly(s, y);
  }

  lemma HeadOf(cps: seq<Scalar>)
    requires cps != []
    ensures Encode(cps[0]) <= EncodeAll(cps)
    ensures EncodeAll(cps)[|Encode(cps[0])|..] == EncodeAll(cps[1..])
  {}

  lemma AfterHead(s: Bytes, cp: Scalar, cps: seq<Scalar>)
    requires Encode(cp) <= s && EncodeAll(cps) == s[|Encode(cp)|..]
    ensures EncodeAll([cp] + cps) == s
  {
    assert ([cp] + cps)[1..] == cps;
  }

  lemma OneCharacter(s: Bytes, cp: Scalar)
    requires Encode(cp) <= s
    ensures IsUtf8(s) <==> IsUtf8(s[|Encode(cp)|..])
  {
    hide Encode, EncodeAll;
    if cps :| EncodeAll(cps) == s {
      assert cps != [] by { EncodeNone(); }
      HeadOf(cps);
      PrefixFree(s, cp, cps[0]);
    }
    if cps :| EncodeAll(cps) == s[|Encode(cp)|..] { AfterHead(s, cp, cps); }
  }

  lemma EncodeNone()
    ensures EncodeAll([]) == []
  {}

  lemma NoCharacter(s: Bytes)
    requires s != [] && forall cp: Scalar :: !(Encode(cp) <= s)
    ensures !IsUtf8(s)
  {
    hide Encode, EncodeAll;
    if cps :| EncodeAll(cps) == s {
      EncodeNone();
      HeadOf(cps);
    }
  }

  /** Bytes are UTF-8 in at most one way. */
  lemma {:induction false} UniqueDecoding(a: seq<Scalar>, b: seq<Scalar>)
    requires EncodeAll(a) == EncodeAll(b)
    ensures a == b
  {
    hide Encode;
    if a != [] && b != [] {
      HeadOf(a);
      HeadOf(b);
      PrefixFree(EncodeAll(a), a[0], b[0]);
      UniqueDecoding(a[1..], b[1..]);
    }
  }

  lemma NoLead(s: Bytes)
    requires s != [] && Extra(s[0]) == 4
    ensures !IsUtf8(s)
  {
    forall cp: Scalar ensures !(Encode(cp) <= s) { LeadByte(cp); }
    NoCharacter(s);
  }

  lemma NotSpelled(s: Bytes)
    requires s != [] && Extra(s[0]) < 4 && forall cp: Scalar :: !Spells(s, cp)
    ensures !IsUtf8(s)
  {
    forall cp: Scalar ensures !(Encode(cp) <= s) { EncodingExactly(s, cp); }
    NoCharacter(s);
  }

  lemma TooShort(s: Bytes)
    requires s != [] && |s| <= Extra(s[0]) < 4
    ensures !IsUtf8(s)
  {
    NotSpelled(s);
  }

  lemma BadContinuation(s: Bytes, k: nat)
    requires s != [] && Extra(s[0]) < 4 && 1 <= k <= Extra(s[0]) && k < |s| && !IsContinuation(s[k])
    ensures !IsUtf8(s)
  {
    NotSpelled(s);
  }

  lemma BadValue(s: Bytes)
    requires s != [] && Extra(s[0]) < 4 && Extra(s[0]) < |s|
    requires var v := Accumulated(s, Extra(s[0])); v < MinimumOf(Extra(s[0])) || 0xD800 <= v <= 0xDFFF || v > 0x10FFFF
    ensures !IsUtf8(s)
  {
    NotSpelled(s);
  }

  lemma AccumulateStep(s: Bytes, k: nat)
    requires 1 <= k < |s|
    ensures Accumulated(s, k) == Accumulated(s, k - 1) * 64 + s[k] % 64
    ensures Continues(s, k) <==> Continues(s, k - 1) && s[k] / 64 == 2
  {}

  lemma Spelled(s: Bytes, cp: Scalar)
    requires s != [] && Extra(s[0]) < 4 && Spells(s, cp)
    ensures Extra(s[0]) < |s| && (IsUtf8(s) <==> IsUtf8(s[Extra(s[0]) + 1..]))
  {
    EncodingExactly(s, cp);
    SpelledSize(s, cp);
    OneCharacter(s, cp);
  }

  lemma EmptyIsUtf8()
    ensures IsUtf8([])
  {
    EncodeNone();
  }

  /** Accepts exactly the concatenations of encoded scalar values. */
  method Utf8Valid(s: Bytes) returns (valid: bool)
    ensures valid <==> IsUtf8(s)
  {
    hide IsUtf8, Accumulated, Continues, Encode, EncodeAll;
    var i, n := 0, |s|;
    assert s[0..] == s;
    while i < n
      invariant 0 <= i <= n && (IsUtf8(s) <==> IsUtf8(s[i..]))
    {
      ghost var t := s[i..];
      var b0 := s[i];
      var extra: nat, cp: nat, minCp: nat;
      if b0 <= 0x7F {
        AsciiSpelled(t);
        i := i + 1;
        continue;
      } else if b0 / 32 == 6 {
        extra, cp, minCp := 1, b0 % 32, 0x80;
      } else if b0 / 16 == 14 {
        extra, cp, minCp := 2, b0 % 16, 0x800;
      } else if b0 / 8 == 30 {
        extra, cp, minCp := 3, b0 % 8, 0x10000;
      } else {
        NoLead(t);
        return false;
      }
      if i + extra >= n {
        TooShort(t);
        return false;
      }
      AccumulateNone(t);
      for k := 1 to extra + 1
        invariant Continues(t, k - 1) && cp == Accumulated(t, k - 1)
      {
        AccumulateStep(t, k);
        if s[i + k] / 64 != 2 {
          BadContinuation(t, k);
          return false;
        }
        cp := cp * 64 + s[i + k] % 64;
      }
      if cp < minCp || 0xD800 <= cp <= 0xDFFF || cp > 0x10FFFF {
        BadValue(t);
        return false;
      }
      Spelled(t, cp);
      i := i + extra + 1;
    }
    assert s[i..] == [];
    EmptyIsUtf8();
    return true;
  }

  lemma AccumulateNone(s: Bytes)
    requires s != []
    ensures Accumulated(s, 0) == Payload(s[0]) && Continues(s, 0)
  {}

  lemma AsciiSpelled(s: Bytes)
    requires s != [] && s[0] <= 0x7F
    ensures IsUtf8(s) <==> IsUtf8(s[1..])
  {
    AccumulateNone(s);
    Spelled(s, s[0]);
  }
}
