// clif/rpc.py, _bytes20_to_cb58: a node id with its checksum, printed in base 58.
module Cb58 {
  import opened Hex

  type Bytes = seq<Byte>

  // The alphabet: digits, capitals and small letters, without 0, I, O and l.
  function Symbol(d: nat): char
    requires d < 58
  {
    if d < 9 then '1' + d as char
    else if d < 17 then 'A' + (d - 9) as char
    else if d < 22 then 'J' + (d - 17) as char
    else if d < 33 then 'P' + (d - 22) as char
    else if d < 44 then 'a' + (d - 33) as char
    else 'm' + (d - 44) as char
  }

  // The symbols are the digits and letters in the order of their codes, without 0, I, O and l.
  lemma SymbolExactly(c: char)
    ensures forall d: nat, e: nat :: d < e < 58 ==> Symbol(d) < Symbol(e)
    ensures (exists d: nat :: d < 58 && Symbol(d) == c) <==>
              ('0' <= c <= '9' || 'A' <= c <= 'Z' || 'a' <= c <= 'z') && c !in "0IOl"
  {
    if ('0' <= c <= '9' || 'A' <= c <= 'Z' || 'a' <= c <= 'z') && c !in "0IOl" {
      SymbolOf(c);
      assert Symbol(DigitOf(c)) == c;
    }
  }

  lemma SymbolOf(c: char)
    requires ('0' <= c <= '9' || 'A' <= c <= 'Z' || 'a' <= c <= 'z') && c !in "0IOl"
    ensures 0 <= DigitOf(c) < 58 && Symbol(DigitOf(c)) == c
  {
    assert "0IOl"[0] == '0' && "0IOl"[1] == 'I' && "0IOl"[2] == 'O' && "0IOl"[3] == 'l';
  }

  // int.from_bytes(_, "big").
  function Value(bs: Bytes): nat {
    if bs == [] then 0 else 256 * Value(bs[..|bs| - 1]) + bs[|bs| - 1]
  }

  // The digits of a number, most significant first and none for zero.
  function Base58(n: nat): string {
    if n == 0 then "" else Base58(n / 58) + [Symbol(n % 58)]
  }

  function Ones(n: nat): string {
    seq(n, _ => '1')
  }

  function ZeroBytes(bs: Bytes): nat {
    if bs == [] then 0 else ZeroBytes(bs[..|bs| - 1]) + if bs[|bs| - 1] == 0 then 1 else 0
  }

  function Reversed(s: string): string {
    if s == "" then "" else Reversed(s[1..]) + [s[0]]
  }

  lemma {:induction false} ReversedSnoc(s: string, c: char)
    ensures Reversed(s + [c]) == [c] + Reversed(s)
  {
    if s != "" {
      ReversedSnoc(s[1..], c);
      assert (s + [c])[1..] == s[1..] + [c];
    }
  }

  lemma {:induction false} ReversedOnes(s: string, n: nat)
    ensures Reversed(s + Ones(n)) == Ones(n) + Reversed(s)
  {
    if n == 0 {
      assert s + Ones(0) == s;
    } else {
      assert s + Ones(n) == s + Ones(n - 1) + ['1'];
      ReversedSnoc(s + Ones(n - 1), '1');
      ReversedOnes(s, n - 1);
      assert ['1'] + Ones(n - 1) == Ones(n);
    }
  }

  // checksum: the last four bytes of the SHA-256 digest.
  type Checksum = Bytes -> Bytes

  method Bytes20ToCb58(checksum: Checksum, b: Bytes) returns (s: string)
    ensures s == Ones(ZeroBytes(b + checksum(b))) + Base58(Value(b + checksum(b)))
  {
    var payload := b + checksum(b);
    var n, result := Value(payload), "";
    while n > 0
      invariant Base58(Value(payload)) == Base58(n) + Reversed(result)
    {
      hide Symbol;
      ReversedSnoc(result, Symbol(n % 58));
      result := result + [Symbol(n % 58)];
      n := n / 58;
    }
    var leading := ZeroBytes(payload);
    ReversedOnes(result, leading);
    s := Reversed(result + Ones(leading));
  }

  // --- Reading it back ---------------------------------------------------------------------------------------

  function DigitOf(c: char): int {
    if '1' <= c <= '9' then (c - '1') as int
    else if 'A' <= c <= 'H' then (c - 'A') as int + 9
    else if 'J' <= c <= 'N' then (c - 'J') as int + 17
    else if 'P' <= c <= 'Z' then (c - 'P') as int + 22
    else if 'a' <= c <= 'k' then (c - 'a') as int + 33
    else if 'm' <= c <= 'z' then (c - 'm') as int + 44
    else 0
  }

  function ReadBase58(s: string): int {
    if s == "" then 0 else 58 * ReadBase58(s[..|s| - 1]) + DigitOf(s[|s| - 1])
  }

  function WithoutOnes(s: string): string {
    if s != "" && s[0] == '1' then WithoutOnes(s[1..]) else s
  }

  // The low bytes of a number, most significant first.
  function ToBytes(n: nat, width: nat): Bytes {
    if width == 0 then [] else ToBytes(n / 256, width - 1) + [n % 256]
  }

  function Decode(s: string): Bytes {
    var n := ReadBase58(WithoutOnes(s));
    ToBytes(if n < 0 then 0 else n, 24)
  }

  lemma DigitRoundTrip(d: nat)
    requires d < 58
    ensures DigitOf(Symbol(d)) == d && (Symbol(d) == '1' <==> d == 0)
  {}

  lemma {:induction false} BaseRoundTrip(n: nat)
    ensures ReadBase58(Base58(n)) == n
    ensures n > 0 ==> Base58(n) != "" && Base58(n)[0] != '1'
  {
    if n > 0 {
      var s := Base58(n);
      BaseRoundTrip(n / 58);
      DigitRoundTrip(n % 58);
      assert s[..|s| - 1] == Base58(n / 58);
      if n < 58 { assert Base58(n / 58) == ""; }
    }
  }

  lemma {:induction false} OnesDrop(n: nat, s: string)
    requires s == "" || s[0] != '1'
    ensures WithoutOnes(Ones(n) + s) == s
  {
    if n == 0 {
      assert Ones(0) + s == s;
    } else {
      assert (Ones(n) + s)[1..] == Ones(n - 1) + s;
      OnesDrop(n - 1, s);
    }
  }

  lemma {:induction false} BytesRoundTrip(bs: Bytes)
    ensures ToBytes(Value(bs), |bs|) == bs
  {
    if bs != [] {
      BytesRoundTrip(bs[..|bs| - 1]);
      assert Value(bs) / 256 == Value(bs[..|bs| - 1]) && Value(bs) % 256 == bs[|bs| - 1];
    }
  }

  // The printed form reads back as the payload, for any four-byte checksum,
  lemma PrintedIsRead(checksum: Checksum, b: Bytes)
    requires |b| == 20 && |checksum(b)| == 4
    ensures Decode(Ones(ZeroBytes(b + checksum(b))) + Base58(Value(b + checksum(b)))) == b + checksum(b)
  {
    var payload := b + checksum(b);
    BaseRoundTrip(Value(payload));
    OnesDrop(ZeroBytes(payload), Base58(Value(payload)));
    BytesRoundTrip(payload);
  }

  // so no two node ids share one.
  lemma PrintingIsInjective(checksum: Checksum, a: Bytes, b: Bytes)
    requires |a| == 20 && |b| == 20 && |checksum(a)| == 4 && |checksum(b)| == 4
    requires Ones(ZeroBytes(a + checksum(a))) + Base58(Value(a + checksum(a))) ==
             Ones(ZeroBytes(b + checksum(b))) + Base58(Value(b + checksum(b)))
    ensures a == b
  {
    PrintedIsRead(checksum, a);
    PrintedIsRead(checksum, b);
    assert a == (a + checksum(a))[..20] && b == (b + checksum(b))[..20];
  }

  // --- The usual leading-zero form ---------------------------------------------------------------------------

  function LeadingZeros(bs: Bytes): nat {
    if bs == [] || bs[0] != 0 then 0 else 1 + LeadingZeros(bs[1..])
  }

  lemma {:induction false} ZeroBytesCons(b: Byte, bs: Bytes)
    ensures ZeroBytes([b] + bs) == (if b == 0 then 1 else 0) + ZeroBytes(bs)
  {
    if bs == [] {
      assert [b] + bs == [b] && [b][..0] == [];
      assert ZeroBytes([b][..0]) == 0;
    } else {
      ZeroBytesCons(b, bs[..|bs| - 1]);
      assert ([b] + bs)[..|bs|] == [b] + bs[..|bs| - 1];
    }
  }

  lemma {:induction false} ZeroCounts(bs: Bytes)
    ensures LeadingZeros(bs) <= ZeroBytes(bs) && LeadingZeros(bs) <= |bs|
    ensures LeadingZeros(bs) == ZeroBytes(bs) <==> forall i :: LeadingZeros(bs) <= i < |bs| ==> bs[i] != 0
  {
    if bs != [] {
      ZeroBytesCons(bs[0], bs[1..]);
      assert bs == [bs[0]] + bs[1..];
      ZeroCounts(bs[1..]);
      if bs[0] != 0 {
        NoZeroBytes(bs);
      } else {
        assert forall i :: 1 <= i < |bs| ==> bs[i] == bs[1..][i - 1];
      }
    }
  }

  lemma {:induction false} NoZeroBytes(bs: Bytes)
    ensures ZeroBytes(bs) == 0 <==> forall i :: 0 <= i < |bs| ==> bs[i] != 0
  {
    if bs != [] { NoZeroBytes(bs[..|bs| - 1]); }
  }

  // Every zero byte prints a '1', not just the leading ones: this is the usual base-58 form exactly when all zero
  // bytes of the payload lead.
  lemma {:induction false} UsualFormWhenZerosLead(payload: Bytes)
    ensures Ones(ZeroBytes(payload)) + Base58(Value(payload)) ==
            Ones(LeadingZeros(payload)) + Base58(Value(payload)) <==>
            forall i :: LeadingZeros(payload) <= i < |payload| ==> payload[i] != 0
  {
    ZeroCounts(payload);
    var a, b := Ones(ZeroBytes(payload)) + Base58(Value(payload)), Ones(LeadingZeros(payload)) + Base58(Value(payload));
    assert |a| - |b| == ZeroBytes(payload) - LeadingZeros(payload);
  }
}
