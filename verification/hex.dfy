// Text and bytes: the hexadecimal strings that the source passes hashes and addresses around in.
module Hex {
  datatype Option<+T> = None | Some(value: T)

  type Byte = b: int | 0 <= b < 256

  function LowerChar(c: char): char {
    if 'A' <= c <= 'Z' then c + 32 as char else c
  }

  function Lower(s: string): (r: string)
    ensures |r| == |s|
    ensures forall i | 0 <= i < |s| :: r[i] == LowerChar(s[i])
  {
    seq(|s|, i requires 0 <= i < |s| => LowerChar(s[i]))
  }

  function HexValue(c: char): Option<nat> {
    if '0' <= c <= '9' then Some((c - '0') as nat)
    else if 'a' <= c <= 'f' then Some((c - 'a') as nat + 10)
    else if 'A' <= c <= 'F' then Some((c - 'A') as nat + 10)
    else None
  }

  predicate IsSpace(c: char) {
    c == ' ' || '\U{9}' <= c <= '\U{d}'
  }

  // bytes.fromhex: pairs of hexadecimal digits of either case, white space allowed between pairs.
  function FromHex(s: string): Option<seq<Byte>> {
    if s == "" then Some([])
    else if IsSpace(s[0]) then FromHex(s[1..])
    else if |s| >= 2 && HexValue(s[0]).Some? && HexValue(s[1]).Some? then
      match FromHex(s[2..])
      case None => None
      case Some(rest) => Some([ByteOf(s[0], s[1])] + rest)
    else None
  }

  function ByteOf(high: char, low: char): Byte
    requires HexValue(high).Some? && HexValue(low).Some?
  {
    16 * HexValue(high).value + HexValue(low).value
  }

  function Digit(v: nat): (c: char)
    requires v < 16
    ensures HexValue(c) == Some(v) && LowerChar(c) == c && !IsSpace(c)
  {
    if v < 10 then '0' + v as char else 'a' + (v - 10) as char
  }

  // bytes.hex.
  function ToHex(bs: seq<Byte>): (s: string)
    ensures |s| == 2 * |bs|
  {
    if bs == [] then "" else [Digit(bs[0] / 16), Digit(bs[0] % 16)] + ToHex(bs[1..])
  }

  // str <= str: code point by code point, a prefix first.
  predicate LexLeq(s: string, t: string) {
    s == "" || (t != "" && (s[0] < t[0] || (s[0] == t[0] && LexLeq(s[1..], t[1..]))))
  }

  lemma {:induction false} HexRoundTrip(bs: seq<Byte>)
    ensures FromHex(ToHex(bs)) == Some(bs)
  {
    if bs != [] {
      var s := ToHex(bs);
      HexRoundTrip(bs[1..]);
      assert s[2..] == ToHex(bs[1..]);
      assert ByteOf(s[0], s[1]) == bs[0];
      assert bs == [bs[0]] + bs[1..];
    }
  }

  lemma {:induction false} HexIsLower(bs: seq<Byte>)
    ensures Lower(ToHex(bs)) == ToHex(bs)
  {
    if bs != [] {
      var s := ToHex(bs);
      HexIsLower(bs[1..]);
      forall i | 2 <= i < |s|
        ensures LowerChar(s[i]) == s[i]
      {
        assert s[i] == ToHex(bs[1..])[i - 2];
      }
    }
  }

  lemma LowerCharMeansTheSame(c: char, d: char)
    requires LowerChar(c) == LowerChar(d)
    ensures HexValue(c) == HexValue(d) && IsSpace(c) == IsSpace(d)
  {}

  lemma LowerDrop(s: string, k: nat)
    requires k <= |s|
    ensures Lower(s[k..]) == Lower(s)[k..]
  {}

  // Hexadecimal digits mean the same in either case.
  lemma {:induction false} FromHexIgnoresCase(s: string, t: string)
    requires Lower(s) == Lower(t)
    ensures FromHex(s) == FromHex(t)
    decreases |s|
  {
    hide LowerChar, HexValue, IsSpace;
    assert |s| == |Lower(t)|;
    if s != "" {
      assert Lower(s)[0] == Lower(t)[0];
      LowerCharMeansTheSame(s[0], t[0]);
      LowerDrop(s, 1);
      LowerDrop(t, 1);
      FromHexIgnoresCase(s[1..], t[1..]);
      if |s| >= 2 {
        assert Lower(s)[1] == Lower(t)[1];
        LowerCharMeansTheSame(s[1], t[1]);
        LowerDrop(s, 2);
        LowerDrop(t, 2);
        FromHexIgnoresCase(s[2..], t[2..]);
      }
    }
  }

  lemma {:induction false} LexTotal(s: string, t: string)
    ensures LexLeq(s, t) || LexLeq(t, s)
    ensures LexLeq(s, t) && LexLeq(t, s) ==> s == t
  {
    if s != "" && t != "" && s[0] == t[0] {
      LexTotal(s[1..], t[1..]);
    }
  }

  lemma {:induction false} LexTransitive(s: string, t: string, u: string)
    requires LexLeq(s, t) && LexLeq(t, u)
    ensures LexLeq(s, u)
  {
    if s != "" && s[0] == t[0] == u[0] {
      LexTransitive(s[1..], t[1..], u[1..]);
    }
  }

  // --- What these functions mean -----------------------------------------------------------------------------

  const UPPER := "ABCDEFGHIJKLMNOPQRSTUVWXYZ"
  const LOWER := "abcdefghijklmnopqrstuvwxyz"

  lemma LettersAt(i: nat)
    requires i < 26
    ensures |UPPER| == |LOWER| == 26 && UPPER[i] == 'A' + i as char && LOWER[i] == 'a' + i as char
  {}

  // A capital letter becomes its small one, and nothing else changes.
  lemma LowerCharExactly(c: char)
    ensures |UPPER| == |LOWER| && (c !in UPPER ==> LowerChar(c) == c)
    ensures forall i :: 0 <= i < |UPPER| && UPPER[i] == c ==> LowerChar(c) == LOWER[i]
  {
    LettersAt(0);
    hide UPPER, LOWER;
    if 'A' <= c <= 'Z' {
      LettersAt((c - 'A') as nat);
      assert UPPER[(c - 'A') as nat] == c;
    }
    forall i | 0 <= i < |UPPER| && UPPER[i] == c
      ensures LowerChar(c) == LOWER[i]
    {
      LettersAt(i);
    }
  }

  lemma HexValueExactly(c: char)
    ensures var low, high := "0123456789abcdef", "0123456789ABCDEF";
            && (HexValue(c).Some? <==> c in low || c in high)
            && forall i :: 0 <= i < 16 && (low[i] == c || high[i] == c) ==> HexValue(c) == Some(i)
  {
    var low, high := "0123456789abcdef", "0123456789ABCDEF";
    if HexValue(c).Some? { assert low[HexValue(c).value] == c || high[HexValue(c).value] == c; }
  }

  // A text of digits only is read exactly if their number is even, two digits a byte.
  lemma {:induction false} FromHexExactly(s: string)
    requires forall i :: 0 <= i < |s| ==> !IsSpace(s[i])
    ensures FromHex(s).Some? <==> |s| % 2 == 0 && forall i :: 0 <= i < |s| ==> HexValue(s[i]).Some?
    ensures FromHex(s).Some? ==>
              && |s| == 2 * |FromHex(s).value|
              && forall i :: 0 <= i < |FromHex(s).value| ==>
                               FromHex(s).value[i] == 16 * HexValue(s[2 * i]).value + HexValue(s[2 * i + 1]).value
  {
    hide HexValue, IsSpace;
    if |s| >= 2 {
      var rest := s[2..];
      FromHexExactly(rest);
      assert forall i :: 2 <= i < |s| ==> s[i] == rest[i - 2];
      if FromHex(s).Some? {
        var r := FromHex(s).value;
        forall i | 0 <= i < |r|
          ensures r[i] == 16 * HexValue(s[2 * i]).value + HexValue(s[2 * i + 1]).value
        {
          if i > 0 { assert r[i] == FromHex(rest).value[i - 1] && s[2 * i] == rest[2 * (i - 1)]; }
        }
      }
    }
  }

  // White space is passed over in front of a pair of digits, and so is nothing else.
  lemma SpaceExactly(c: char, s: string)
    ensures c in " \t\n\U{B}\U{C}\r" ==> FromHex([c] + s) == FromHex(s)
    ensures c !in " \t\n\U{B}\U{C}\r" && HexValue(c).None? ==> FromHex([c] + s).None?
  {
    var spaces := " \t\n\U{B}\U{C}\r";
    assert ([c] + s)[1..] == s;
    if IsSpace(c) {
      assert spaces[if c == ' ' then 0 else (c - '\U{9}') as int + 1] == c;
    }
  }

  // The first place where two texts differ.
  ghost predicate DifferAt(s: string, t: string, k: nat) {
    k < |s| && k < |t| && s[..k] == t[..k] && s[k] != t[k]
  }

  lemma DifferLater(s: string, t: string, k: nat)
    requires s != "" && t != "" && s[0] == t[0]
    ensures DifferAt(s, t, k + 1) <==> DifferAt(s[1..], t[1..], k)
    ensures !DifferAt(s, t, 0)
  {
    if k < |s| - 1 && k < |t| - 1 {
      assert s[..k + 1] == [s[0]] + s[1..][..k] && t[..k + 1] == [t[0]] + t[1..][..k];
      assert s[1..][..k] == s[..k + 1][1..] && t[1..][..k] == t[..k + 1][1..];
    }
  }

  // A text is at most another if it is its start, or is lower where they first differ.
  lemma {:induction false} LexLeqExactly(s: string, t: string)
    ensures LexLeq(s, t) <==> s <= t || exists k: nat :: DifferAt(s, t, k) && s[k] < t[k]
  {
    if s != "" && t != "" {
      if s[0] == t[0] {
        LexLeqExactly(s[1..], t[1..]);
        assert s == [s[0]] + s[1..] && t == [t[0]] + t[1..];
        if k: nat :| DifferAt(s[1..], t[1..], k) && s[1..][k] < t[1..][k] { DifferLater(s, t, k); }
        if k: nat :| DifferAt(s, t, k) && s[k] < t[k] { DifferLater(s, t, if k > 0 then k - 1 else 0); }
      } else {
        assert DifferAt(s, t, 0) by { assert s[..0] == t[..0]; }
        assert forall k: nat :: DifferAt(s, t, k) ==> k == 0 || s[..k][0] == t[..k][0];
      }
    }
  }

  lemma LexLeqAt(s: string, t: string, k: nat)
    requires DifferAt(s, t, k)
    ensures LexLeq(s, t) <==> s[k] < t[k]
  {
    LexLeqExactly(s, t);
    assert forall i :: 0 <= i < k ==> s[i] == s[..k][i] == t[..k][i] == t[i];
    forall j: nat | DifferAt(s, t, j)
      ensures j == k
    {
      assert forall i :: 0 <= i < j ==> s[i] == s[..j][i] == t[..j][i] == t[i];
    }
  }

  lemma {:induction false} ToHexAt(bs: seq<Byte>, i: nat)
    requires i < |bs|
    ensures ToHex(bs)[2 * i] == Digit(bs[i] / 16) && ToHex(bs)[2 * i + 1] == Digit(bs[i] % 16)
  {
    if i > 0 { ToHexAt(bs[1..], i - 1); }
  }

  // The first byte in which two byte strings of one length differ.
  ghost predicate BytesDifferAt(g: seq<Byte>, h: seq<Byte>, k: nat) {
    k < |g| && k < |h| && g[k] != h[k] && forall i :: 0 <= i < k ==> g[i] == h[i]
  }

  lemma SameDigits(g: seq<Byte>, h: seq<Byte>, k: nat)
    requires BytesDifferAt(g, h, k)
    ensures ToHex(g)[..2 * k] == ToHex(h)[..2 * k]
    ensures g[k] / 16 == h[k] / 16 ==> ToHex(g)[..2 * k + 1] == ToHex(h)[..2 * k + 1]
  {
    hide ToHex, Digit;
    forall i | 0 <= i < 2 * k
      ensures ToHex(g)[i] == ToHex(h)[i]
    {
      ToHexAt(g, i / 2);
      ToHexAt(h, i / 2);
    }
    ToHexAt(g, k);
    ToHexAt(h, k);
  }

  // Hexadecimal texts are ordered like their bytes.
  lemma HexOrder(g: seq<Byte>, h: seq<Byte>, k: nat)
    requires BytesDifferAt(g, h, k)
    ensures LexLeq(ToHex(g), ToHex(h)) <==> g[k] < h[k]
  {
    hide ToHex, Digit, LexLeq;
    ToHexAt(g, k);
    ToHexAt(h, k);
    SameDigits(g, h, k);
    if g[k] / 16 != h[k] / 16 {
      DigitsDiffer(g[k] / 16, h[k] / 16);
      LexLeqAt(ToHex(g), ToHex(h), 2 * k);
    } else {
      DigitsDiffer(g[k] % 16, h[k] % 16);
      LexLeqAt(ToHex(g), ToHex(h), 2 * k + 1);
    }
  }

  lemma DigitsDiffer(v: nat, w: nat)
    requires v < 16 && w < 16 && v != w
    ensures Digit(v) != Digit(w) && (Digit(v) < Digit(w) <==> v < w)
  {}

  lemma {:induction false} LexLeqBehind(p: string, s: string, t: string)
    ensures LexLeq(p + s, p + t) <==> LexLeq(s, t)
  {
    if p == "" {
      assert p + s == s && p + t == t;
    } else {
      assert (p + s)[1..] == p[1..] + s && (p + t)[1..] == p[1..] + t;
      LexLeqBehind(p[1..], s, t);
    }
  }
}
