/** UTF-8 (RFC 3629) on byte strings: encoding of code points, and the byte
    sequences that encode something. */
module Unicode {

  /** The bytes of a code point (section 3). */
  function Utf8(cp: nat): string
    requires cp < 0x110000
  {
    if cp < 0x80 then [cp as char]
    else if cp < 0x800 then [(0xC0 + cp / 64) as char, (0x80 + cp % 64) as char]
    else if cp < 0x10000 then
      [(0xE0 + cp / 4096) as char, (0x80 + cp / 64 % 64) as char, (0x80 + cp % 64) as char]
    else
      [(0xF0 + cp / 262144) as char, (0x80 + cp / 4096 % 64) as char,
       (0x80 + cp / 64 % 64) as char, (0x80 + cp % 64) as char]
  }

  predicate Between(c: char, lo: int, hi: int) {
    lo <= c as int <= hi
  }

  predicate IsTail(c: char) {
    Between(c, 0x80, 0xBF)
  }

  /** First two bytes of a sequence of three, and of one of four (section 4). */
  predicate StartsThree(a: char, b: char) {
    || (a as int == 0xE0 && Between(b, 0xA0, 0xBF))
    || ((Between(a, 0xE1, 0xEC) || Between(a, 0xEE, 0xEF)) && IsTail(b))
    || (a as int == 0xED && Between(b, 0x80, 0x9F))
  }

  predicate StartsFour(a: char, b: char) {
    || (a as int == 0xF0 && Between(b, 0x90, 0xBF))
    || (Between(a, 0xF1, 0xF3) && IsTail(b))
    || (a as int == 0xF4 && Between(b, 0x80, 0x8F))
  }

  /** Length of the sequence at the start of `s`, 0 if there is none. */
  function LeadLength(s: string): (n: nat)
    ensures n <= |s|
  {
    if s == "" then 0
    else if s[0] as int < 0x80 then 1
    else if |s| >= 2 && Between(s[0], 0xC2, 0xDF) && IsTail(s[1]) then 2
    else if |s| >= 3 && StartsThree(s[0], s[1]) && IsTail(s[2]) then 3
    else if |s| >= 4 && StartsFour(s[0], s[1]) && IsTail(s[2]) && IsTail(s[3]) then 4
    else 0
  }

  predicate WellFormed(s: string)
    decreases |s|
  {
    s == "" || (LeadLength(s) > 0 && WellFormed(s[LeadLength(s)..]))
  }

  // ------------------------------------- well-formed is what encodes something

  /** Code points other than surrogates. */
  predicate IsScalar(cp: nat) {
    cp < 0xD800 || 0xE000 <= cp < 0x110000
  }

  predicate AreScalars(cps: seq<nat>) {
    forall i :: 0 <= i < |cps| ==> IsScalar(cps[i])
  }

  function Encoded(cps: seq<nat>): string
    requires AreScalars(cps)
  {
    if cps == [] then "" else Utf8(cps[0]) + Encoded(cps[1..])
  }

  lemma TwoBytes(a: nat, b: nat)
    requires 0xC2 <= a <= 0xDF && 0x80 <= b <= 0xBF
    ensures var cp := (a - 0xC0) * 64 + (b - 0x80);
            0x80 <= cp < 0x800 && cp / 64 == a - 0xC0 && cp % 64 == b - 0x80
  {
  }

  lemma ThreeBytes(a: nat, b: nat, c: nat)
    requires 0xE0 <= a <= 0xEF && 0x80 <= b <= 0xBF && 0x80 <= c <= 0xBF
    ensures var cp := ((a - 0xE0) * 64 + (b - 0x80)) * 64 + (c - 0x80);
            cp < 0x10000 && cp / 4096 == a - 0xE0 && cp / 64 % 64 == b - 0x80 && cp % 64 == c - 0x80
  {
    var cp := ((a - 0xE0) * 64 + (b - 0x80)) * 64 + (c - 0x80);
    assert cp / 64 == (a - 0xE0) * 64 + (b - 0x80);
  }

  lemma FourBytes(a: nat, b: nat, c: nat, d: nat)
    requires 0xF0 <= a <= 0xF4 && 0x80 <= b <= 0xBF && 0x80 <= c <= 0xBF && 0x80 <= d <= 0xBF
    ensures var cp := (((a - 0xF0) * 64 + (b - 0x80)) * 64 + (c - 0x80)) * 64 + (d - 0x80);
            && cp / 262144 == a - 0xF0 && cp / 4096 % 64 == b - 0x80
            && cp / 64 % 64 == c - 0x80 && cp % 64 == d - 0x80
  {
    var cp := (((a - 0xF0) * 64 + (b - 0x80)) * 64 + (c - 0x80)) * 64 + (d - 0x80);
    assert cp / 64 == ((a - 0xF0) * 64 + (b - 0x80)) * 64 + (c - 0x80);
    assert cp / 4096 == (a - 0xF0) * 64 + (b - 0x80);
  }

  /** The code point at the start of `s`. */
  function Lead(s: string): nat
    requires LeadLength(s) > 0
  {
    var a := s[0] as int;
    var b := if |s| >= 2 then s[1] as int - 0x80 else 0;
    var c := if |s| >= 3 then s[2] as int - 0x80 else 0;
    var d := if |s| >= 4 then s[3] as int - 0x80 else 0;
    match LeadLength(s)
    case 1 => a
    case 2 => (a - 0xC0) * 64 + b
    case 3 => ((a - 0xE0) * 64 + b) * 64 + c
    case _ => (((a - 0xF0) * 64 + b) * 64 + c) * 64 + d
  }

  lemma LeadOfThree(s: string)
    requires LeadLength(s) == 3
    ensures IsScalar(Lead(s)) && Utf8(Lead(s)) == s[..3]
  {
    ThreeBytes(s[0] as int, s[1] as int, s[2] as int);
    assert s[..3] == [s[0], s[1], s[2]];
  }

  lemma LeadOfFour(s: string)
    requires LeadLength(s) == 4
    ensures IsScalar(Lead(s)) && Utf8(Lead(s)) == s[..4]
  {
    FourBytes(s[0] as int, s[1] as int, s[2] as int, s[3] as int);
    assert s[..4] == [s[0], s[1], s[2], s[3]];
  }

  lemma LeadEncodes(s: string)
    requires LeadLength(s) > 0
    ensures IsScalar(Lead(s)) && Utf8(Lead(s)) == s[..LeadLength(s)]
  {
    if LeadLength(s) == 4 {
      LeadOfFour(s);
    } else if LeadLength(s) == 3 {
      LeadOfThree(s);
    } else if LeadLength(s) == 2 {
      TwoBytes(s[0] as int, s[1] as int);
    }
  }

  lemma EncodedLeads(cp: nat, rest: string)
    requires IsScalar(cp)
    ensures LeadLength(Utf8(cp) + rest) == |Utf8(cp)|
  {
    var s := Utf8(cp) + rest;
    assert forall i :: 0 <= i < |Utf8(cp)| ==> s[i] == Utf8(cp)[i];
  }

  lemma {:induction false} EncodedIsWellFormed(cps: seq<nat>)
    requires AreScalars(cps)
    ensures WellFormed(Encoded(cps))
  {
    if cps != [] {
      var head, more := Utf8(cps[0]), Encoded(cps[1..]);
      EncodedIsWellFormed(cps[1..]);
      EncodedLeads(cps[0], more);
      assert (head + more)[|head|..] == more;
    }
  }

  lemma {:induction false} WellFormedIsEncoded(s: string) returns (cps: seq<nat>)
    requires WellFormed(s)
    ensures AreScalars(cps) && Encoded(cps) == s
    decreases |s|
  {
    if s == "" {
      cps := [];
    } else {
      var more := WellFormedIsEncoded(s[LeadLength(s)..]);
      LeadEncodes(s);
      cps := [Lead(s)] + more;
      assert cps[1..] == more;
      assert s == s[..LeadLength(s)] + s[LeadLength(s)..];
    }
  }

  /** Well-formed byte strings are exactly the encodings of scalar values. */
  lemma WellFormedIff(s: string)
    ensures WellFormed(s) <==> exists cps :: AreScalars(cps) && Encoded(cps) == s
  {
    if WellFormed(s) {
      var cps := WellFormedIsEncoded(s);
    }
    if exists cps :: AreScalars(cps) && Encoded(cps) == s {
      var cps :| AreScalars(cps) && Encoded(cps) == s;
      EncodedIsWellFormed(cps);
    }
  }

  /** No encoding holds a byte of 0xF8 or more. */
  lemma HighByteIsRefused(c: char, rest: string)
    requires c as int >= 0xF8
    ensures !WellFormed([c] + rest)
  {
  }
}
