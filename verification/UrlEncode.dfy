/**
 The encoder of names in S3 listings: spaces become '+', unreserved bytes and '/' and '*' stand for
 themselves, every other byte becomes a percent sign and two hexadecimal digits.
 */
module UrlEncode {
  import opened Options
  import opened Bytes

  const SPACE: byte := 0x20
  const PLUS: byte := 0x2b
  const PERCENT: byte := 0x25

  predicate ShouldEscape(c: byte) {
    if 0x41 <= c <= 0x5a || 0x61 <= c <= 0x7a || 0x30 <= c <= 0x39 then false
    else !(c == 0x2d || c == 0x5f || c == 0x2e || c == 0x2f || c == 0x2a)
  }

  function HexDigit(n: byte): byte
    requires n < 16
  {
    if n < 10 then 0x30 + n else 0x41 + (n - 10)
  }

  // ---- The encoding, byte by byte ----

  function EncodeByte(c: byte): seq<byte> {
    if c == SPACE then [PLUS]
    else if ShouldEscape(c) then [PERCENT, HexDigit(c / 16), HexDigit(c % 16)]
    else [c]
  }

  function EncodeAll(s: seq<byte>): seq<byte> { if s == [] then [] else EncodeByte(s[0]) + EncodeAll(s[1..]) }

  function Spaces(s: seq<byte>): nat {
    if s == [] then 0 else Spaces(s[..|s| - 1]) + if s[|s| - 1] == SPACE then 1 else 0
  }

  function Hexes(s: seq<byte>): nat {
    if s == [] then 0
    else Hexes(s[..|s| - 1]) + if s[|s| - 1] != SPACE && ShouldEscape(s[|s| - 1]) then 1 else 0
  }

  lemma {:induction false} EncodeSnoc(s: seq<byte>, c: byte)
    ensures EncodeAll(s + [c]) == EncodeAll(s) + EncodeByte(c)
  {
    if s != [] {
      EncodeSnoc(s[1..], c);
      assert (s + [c])[1..] == s[1..] + [c];
    }
  }

  lemma EncodeUpTo(s: seq<byte>, i: nat)
    requires i < |s|
    ensures EncodeAll(s[..i + 1]) == EncodeAll(s[..i]) + EncodeByte(s[i])
    ensures Hexes(s[..i + 1]) == Hexes(s[..i]) + if s[i] != SPACE && ShouldEscape(s[i]) then 1 else 0
    ensures Spaces(s[..i + 1]) == Spaces(s[..i]) + if s[i] == SPACE then 1 else 0
  {
    assert s[..i + 1] == s[..i] + [s[i]] && s[..i + 1][..i] == s[..i];
    EncodeSnoc(s[..i], s[i]);
  }

  lemma {:induction false} CountsFrom(s: seq<byte>, i: nat)
    requires i <= |s|
    ensures Hexes(s[..i]) <= Hexes(s) && Spaces(s[..i]) <= Spaces(s)
    decreases |s| - i
  {
    if i < |s| {
      EncodeUpTo(s, i);
      CountsFrom(s, i + 1);
    } else {
      assert s[..i] == s;
    }
  }

  lemma {:induction false} EncodedLength(s: seq<byte>)
    ensures |EncodeAll(s)| == |s| + 2 * Hexes(s)
  {
    if s != [] {
      var n := |s| - 1;
      EncodedLength(s[..n]);
      EncodeUpTo(s, n);
      assert s[..n + 1] == s;
    }
  }

  /** The bytes that stand for themselves. */
  predicate Stands(c: byte) {
    var letter := c as int as char;
    'A' <= letter <= 'Z' || 'a' <= letter <= 'z' || '0' <= letter <= '9' || letter in {'-', '_', '.', '/', '*'}
  }

  function Ascii(s: string): seq<byte>
    requires forall i :: 0 <= i < |s| ==> s[i] as int < 0x80
  {
    seq(|s|, i requires 0 <= i < |s| => s[i] as int as byte)
  }

  lemma DigitExactly(n: byte)
    requires n < 16
    ensures HexDigit(n) as int == "0123456789ABCDEF"[n] as int
  {}

  /** What becomes of each byte: itself, a plus sign, or a percent sign and two upper-case digits. */
  lemma ByteExactly(c: byte)
    ensures EncodeAll([c])
            == if Stands(c) then [c]
               else if c as int as char == ' ' then ['+' as int as byte]
               else ['%' as int as byte, "0123456789ABCDEF"[c / 16] as int as byte,
                     "0123456789ABCDEF"[c % 16] as int as byte]
  {
    DigitExactly(c / 16);
    DigitExactly(c % 16);
    assert EncodeAll([c]) == EncodeByte(c) + EncodeAll([]);
  }

  /** And byte by byte. */
  lemma {:induction false} EncodeJoins(s: seq<byte>, t: seq<byte>)
    ensures EncodeAll(s + t) == EncodeAll(s) + EncodeAll(t)
  {
    if s == [] {
      assert s + t == t;
    } else {
      assert (s + t)[1..] == s[1..] + t;
      EncodeJoins(s[1..], t);
    }
  }

  lemma TildeIsEscaped()
    ensures EncodeAll(Ascii("~")) == Ascii("%7E") && EncodeAll(Ascii("/")) == Ascii("/")
  {
    assert Ascii("~") == [0x7e] && Ascii("/") == [0x2f] && Ascii("%7E") == [0x25, 0x37, 0x45];
    ByteExactly(0x7e);
    ByteExactly(0x2f);
  }

  // ---- The encoder ----

  /** Every path of the encoder yields the encoding, and the buffer is filled to its end and no further. */
  method Encode(s: seq<byte>) returns (r: seq<byte>)
    ensures r == EncodeAll(s)
  {
    var spaceCount, hexCount := 0, 0;
    for i := 0 to |s|
      invariant spaceCount == Spaces(s[..i]) && hexCount == Hexes(s[..i])
    {
      EncodeUpTo(s, i);
      if ShouldEscape(s[i]) {
        if s[i] == SPACE { spaceCount := spaceCount + 1; } else { hexCount := hexCount + 1; }
      }
    }
    assert s[..|s|] == s;
    EncodedLength(s);
    if spaceCount == 0 && hexCount == 0 {
      NothingToEscape(s);
      return s;
    }
    var required := |s| + 2 * hexCount;
    var t := new byte[required];
    if hexCount == 0 {
      SpacesOnly(s, t);
    } else {
      Fill(s, t);
    }
    return t[..];
  }

  lemma {:induction false} NothingToEscape(s: seq<byte>)
    requires Spaces(s) == 0 && Hexes(s) == 0
    ensures EncodeAll(s) == s
  {
    if s != [] {
      var n := |s| - 1;
      NothingToEscape(s[..n]);
      EncodeUpTo(s, n);
      assert s[..n + 1] == s;
    }
  }

  /** The bytes with every space replaced. */
  function Plussed(s: seq<byte>): seq<byte> {
    seq(|s|, i requires 0 <= i < |s| => if s[i] == SPACE then PLUS else s[i])
  }

  lemma {:induction false} PlussedIsEncoded(s: seq<byte>)
    requires Hexes(s) == 0
    ensures EncodeAll(s) == Plussed(s)
  {
    if s != [] {
      var n := |s| - 1;
      assert s[..n + 1] == s;
      EncodeUpTo(s, n);
      PlussedIsEncoded(s[..n]);
      assert Plussed(s) == Plussed(s[..n]) + EncodeByte(s[n]);
    }
  }

  /** The path with nothing but spaces to escape: copy, then replace. */
  method SpacesOnly(s: seq<byte>, t: array<byte>)
    requires Hexes(s) == 0 && t.Length == |s|
    modifies t
    ensures t[..] == EncodeAll(s)
  {
    forall i | 0 <= i < |s| { t[i] := s[i]; }
    for i := 0 to |s|
      invariant forall k :: 0 <= k < i ==> t[k] == if s[k] == SPACE then PLUS else s[k]
      invariant forall k :: i <= k < |s| ==> t[k] == s[k]
    {
      if s[i] == SPACE { t[i] := PLUS; }
    }
    PlussedIsEncoded(s);
    assert t[..] == Plussed(s);
  }

  /** Writes one encoded byte at `j`. */
  method Put(t: array<byte>, j: nat, c: byte) returns (next: nat)
    requires j + |EncodeByte(c)| <= t.Length
    modifies t
    ensures next == j + |EncodeByte(c)| && t[..next] == old(t[..j]) + EncodeByte(c)
  {
    if c == SPACE {
      t[j] := PLUS;
      next := j + 1;
    } else if ShouldEscape(c) {
      t[j] := PERCENT;
      t[j + 1] := HexDigit(c / 16);
      t[j + 2] := HexDigit(c % 16);
      next := j + 3;
    } else {
      t[j] := c;
      next := j + 1;
    }
  }

  /** The general path. */
  method Fill(s: seq<byte>, t: array<byte>)
    requires t.Length == |s| + 2 * Hexes(s)
    modifies t
    ensures t[..] == EncodeAll(s)
  {
    var j := 0;
    for i := 0 to |s|
      invariant j == i + 2 * Hexes(s[..i]) && j <= t.Length
      invariant t[..j] == EncodeAll(s[..i])
    {
      EncodeUpTo(s, i);
      CountsFrom(s, i + 1);
      j := Put(t, j, s[i]);
    }
    assert s[..|s|] == s;
    assert t[..j] == t[..];
  }

  // ---- Decoding ----

  function HexValue(c: byte): (r: Option<byte>)
    ensures r.Some? ==> r.value < 16
  {
    if 0x30 <= c <= 0x39 then Some(c - 0x30)
    else if 0x41 <= c <= 0x46 then Some(c - 0x41 + 10)
    else if 0x61 <= c <= 0x66 then Some(c - 0x61 + 10)
    else None
  }

  /** '+' and percent decoding, as in a query string. */
  function Decode(t: seq<byte>): Option<seq<byte>> {
    if t == [] then Some([])
    else if t[0] == PERCENT then
      if |t| < 3 || HexValue(t[1]).None? || HexValue(t[2]).None? then None
      else
        var more := Decode(t[3..]);
        if more.None? then None else Some([HexValue(t[1]).value * 16 + HexValue(t[2]).value] + more.value)
    else
      var more := Decode(t[1..]);
      if more.None? then None else Some([if t[0] == PLUS then SPACE else t[0]] + more.value)
  }

  lemma HexRoundTrip(n: byte)
    requires n < 16
    ensures HexValue(HexDigit(n)) == Some(n)
  {}

  /** Decoding undoes the encoding of every byte string. */
  lemma {:induction false} DecodeUndoesEncode(s: seq<byte>)
    ensures Decode(EncodeAll(s)) == Some(s)
  {
    if s != [] {
      var c, more := s[0], EncodeAll(s[1..]);
      DecodeUndoesEncode(s[1..]);
      var t := EncodeByte(c) + more;
      assert EncodeAll(s) == t;
      if c != SPACE && ShouldEscape(c) {
        HexRoundTrip(c / 16);
        HexRoundTrip(c % 16);
        assert t[3..] == more && t[0] == PERCENT && t[1] == HexDigit(c / 16) && t[2] == HexDigit(c % 16);
      } else {
        assert t[1..] == more;
      }
      assert [c] + s[1..] == s;
    }
  }

  lemma EncodeInjective(a: seq<byte>, b: seq<byte>)
    requires EncodeAll(a) == EncodeAll(b)
    ensures a == b
  {
    DecodeUndoesEncode(a);
    DecodeUndoesEncode(b);
  }
}
