/** The standard base64 encoding of section 4 of RFC 4648 ("base64" with the
    alphabet A-Z a-z 0-9 + / and '=' padding), as the Go standard library's
    `base64.StdEncoding` provides it to the simhash package: `Encode` is
    `EncodeToString`, `Decode` is `DecodeString`. The decoder follows Go's
    non-strict mode: carriage returns and line feeds anywhere in the input are
    skipped, padding is mandatory, and the unused low bits of the last
    character of a padded group are ignored. */
module Base64 {
  import opened Wrappers
  import opened Bytes

  predicate IsAlphabet(c: char)
  {
    ('A' <= c <= 'Z') || ('a' <= c <= 'z') || ('0' <= c <= '9') || c == '+' || c == '/'
  }

  /** The character for the 6-bit value `k` (table 1 of RFC 4648). */
  function EncodeSextet(k: int): (c: char)
    requires 0 <= k < 64
    ensures IsAlphabet(c)
  {
    if k < 26 then ('A' as int + k) as char
    else if k < 52 then ('a' as int + (k - 26)) as char
    else if k < 62 then ('0' as int + (k - 52)) as char
    else if k == 62 then '+'
    else '/'
  }

  /** The 6-bit value of an alphabet character. */
  function DecodeSextet(c: char): (k: int)
    requires IsAlphabet(c)
    ensures 0 <= k < 64 && EncodeSextet(k) == c
  {
    if 'A' <= c <= 'Z' then c as int - 'A' as int
    else if 'a' <= c <= 'z' then c as int - 'a' as int + 26
    else if '0' <= c <= '9' then c as int - '0' as int + 52
    else if c == '+' then 62
    else 63
  }

  lemma SextetRoundTrip(k: int)
    requires 0 <= k < 64
    ensures DecodeSextet(EncodeSextet(k)) == k
  {
  }

  /** Four sextets put back together as three bytes; a padded group keeps the first one or two. */
  function DecodeQuad(d0: int, d1: int, d2: int, d3: int): (bs: seq<byte>)
    requires 0 <= d0 < 64 && 0 <= d1 < 64 && 0 <= d2 < 64 && 0 <= d3 < 64
    ensures |bs| == 3
  {
    [d0 * 4 + d1 / 16, (d1 % 16) * 16 + d2 / 4, (d2 % 4) * 64 + d3]
  }

  /** Three bytes as four characters. */
  function EncodeTriple(b0: byte, b1: byte, b2: byte): (s: string)
    ensures |s| == 4 && forall i :: 0 <= i < 4 ==> IsAlphabet(s[i])
  {
    var x0, x1, x2: int := b0, b1, b2;
    [EncodeSextet(x0 / 4), EncodeSextet((x0 % 4) * 16 + x1 / 16),
     EncodeSextet((x1 % 16) * 4 + x2 / 64), EncodeSextet(x2 % 64)]
  }

  /** `EncodeToString`: each group of three bytes becomes four characters, and a
      final group of one or two bytes is padded with '=' to four characters. */
  function Encode(bs: seq<byte>): (s: string)
    ensures |s| == 4 * Groups(|bs|)
  {
    if |bs| == 0 then ""
    else if |bs| == 1 then EncodeTriple(bs[0], 0, 0)[..2] + "=="
    else if |bs| == 2 then EncodeTriple(bs[0], bs[1], 0)[..3] + "="
    else EncodeTriple(bs[0], bs[1], bs[2]) + Encode(bs[3..])
  }

  /** The number of four-character groups `n` bytes encode to. */
  function Groups(n: nat): nat
  {
    if n == 0 then 0 else if n <= 3 then 1 else 1 + Groups(n - 3)
  }

  /** The group count is the `(n + 2) / 3` of `EncodedLen`. */
  lemma {:induction false} GroupsOfLength(n: nat)
    ensures Groups(n) == (n + 2) / 3
  {
    if n > 3 {
      GroupsOfLength(n - 3);
    }
  }

  predicate IsNewline(c: char)
  {
    c == '\r' || c == '\n'
  }

  /** The input with every carriage return and line feed removed. */
  function StripNewlines(s: string): (t: string)
    ensures |t| <= |s|
    ensures forall i :: 0 <= i < |t| ==> !IsNewline(t[i])
  {
    if s == [] then []
    else if IsNewline(s[0]) then StripNewlines(s[1..])
    else [s[0]] + StripNewlines(s[1..])
  }

  /** Decodes newline-free input one group of four characters at a time; a
      group with padding must be the last one. */
  function DecodeGroups(t: string): (r: Option<seq<byte>>)
    decreases |t|
  {
    if |t| == 0 then Some([])
    else if |t| < 4 then None
    else if IsAlphabet(t[0]) && IsAlphabet(t[1]) && IsAlphabet(t[2]) && IsAlphabet(t[3]) then
      var group := DecodeQuad(DecodeSextet(t[0]), DecodeSextet(t[1]), DecodeSextet(t[2]), DecodeSextet(t[3]));
      match DecodeGroups(t[4..])
      case None => None
      case Some(rest) => Some(group + rest)
    else if |t| == 4 && IsAlphabet(t[0]) && IsAlphabet(t[1]) && t[2] == '=' && t[3] == '=' then
      Some(DecodeQuad(DecodeSextet(t[0]), DecodeSextet(t[1]), 0, 0)[..1])
    else if |t| == 4 && IsAlphabet(t[0]) && IsAlphabet(t[1]) && IsAlphabet(t[2]) && t[3] == '=' then
      Some(DecodeQuad(DecodeSextet(t[0]), DecodeSextet(t[1]), DecodeSextet(t[2]), 0)[..2])
    else None
  }

  /** `DecodeString`: `None` stands for Go's `CorruptInputError`. Line
      breaks are skipped; what is left must be whole groups of four
      characters, each giving three bytes, with `=` padding only in the last
      two places. */
  function Decode(s: string): (r: Option<seq<byte>>)
    ensures var t := StripNewlines(s);
      r.Some? ==>
        && |t| % 4 == 0 && 4 * |r.value| <= 3 * |t| <= 4 * |r.value| + 8
        && forall i :: 0 <= i < |t| && t[i] == '=' ==> i >= |t| - 2
  {
    DecodeGroupsShape(StripNewlines(s));
    DecodeGroups(StripNewlines(s))
  }

  /** Input that decodes is whole groups of four characters, three bytes per
      group less at most two for padding, and `=` only in the last two places. */
  lemma {:induction false} DecodeGroupsShape(t: string)
    ensures var r := DecodeGroups(t);
      r.Some? ==>
        && |t| % 4 == 0 && 4 * |r.value| <= 3 * |t| <= 4 * |r.value| + 8
        && forall i :: 0 <= i < |t| && t[i] == '=' ==> i >= |t| - 2
    decreases |t|
  {
    if |t| >= 4 && IsAlphabet(t[0]) && IsAlphabet(t[1]) && IsAlphabet(t[2]) && IsAlphabet(t[3]) {
      var rest := DecodeGroups(t[4..]);
      if rest.Some? {
        DecodeGroupsShape(t[4..]);
        var r := DecodeGroups(t);
        assert |r.value| == 3 + |rest.value| && |t| == 4 + |t[4..]|;
        assert (4 + |t[4..]|) % 4 == |t[4..]| % 4;
        assert t[0] != '=' && t[1] != '=' && t[2] != '=' && t[3] != '=';
        forall i | 4 <= i < |t| && t[i] == '='
          ensures i >= |t| - 2
        {
          assert t[i] == t[4..][i - 4];
        }
      }
    }
  }

  /** Stripping line breaks works piece by piece. */
  lemma {:induction false} StripNewlinesAppend(a: string, b: string)
    ensures StripNewlines(a + b) == StripNewlines(a) + StripNewlines(b)
  {
    if a != [] {
      assert (a + b)[0] == a[0] && (a + b)[1..] == a[1..] + b;
      StripNewlinesAppend(a[1..], b);
    } else {
      assert a + b == b;
    }
  }

  /** A carriage return or line feed inserted anywhere does not change what
      the input decodes to. */
  lemma DecodeIgnoresNewline(s: string, i: nat, c: char)
    requires i <= |s| && IsNewline(c)
    ensures Decode(s[..i] + [c] + s[i..]) == Decode(s)
  {
    StripNewlinesAppend(s[..i] + [c], s[i..]);
    StripNewlinesAppend(s[..i], [c]);
    StripNewlinesAppend(s[..i], s[i..]);
    assert StripNewlines([c]) == [] by {
      assert [c][1..] == [];
    }
    assert s[..i] + s[i..] == s;
    assert StripNewlines(s[..i] + [c] + s[i..]) == StripNewlines(s);
  }

  /** What Encode produces is made of alphabet characters and padding only. */
  lemma {:induction false} EncodeHasNoNewlines(bs: seq<byte>)
    ensures forall i :: 0 <= i < |Encode(bs)| ==> !IsNewline(Encode(bs)[i])
    ensures StripNewlines(Encode(bs)) == Encode(bs)
  {
    if |bs| >= 3 {
      EncodeHasNoNewlines(bs[3..]);
    }
    NoNewlinesStripped(Encode(bs));
  }

  lemma {:induction false} NoNewlinesStripped(s: string)
    requires forall i :: 0 <= i < |s| ==> !IsNewline(s[i])
    ensures StripNewlines(s) == s
  {
    if s != [] {
      NoNewlinesStripped(s[1..]);
    }
  }

  /** The sextets of three bytes put back together (integer arithmetic). */
  lemma TripleArith(x0: int, x1: int, x2: int)
    requires 0 <= x0 < 256 && 0 <= x1 < 256 && 0 <= x2 < 256
    ensures var d0, d1, d2, d3 := x0 / 4, (x0 % 4) * 16 + x1 / 16, (x1 % 16) * 4 + x2 / 64, x2 % 64;
      d0 * 4 + d1 / 16 == x0 && (d1 % 16) * 16 + d2 / 4 == x1 && (d2 % 4) * 64 + d3 == x2
  {
    var d1, d2 := (x0 % 4) * 16 + x1 / 16, (x1 % 16) * 4 + x2 / 64;
    assert d1 / 16 == x0 % 4 && d1 % 16 == x1 / 16;
    assert d2 / 4 == x1 % 16 && d2 % 4 == x2 / 64;
  }

  /** The sextets read back from an encoded group. */
  lemma SextetsOfTriple(b0: byte, b1: byte, b2: byte)
    ensures var t, x0, x1, x2 := EncodeTriple(b0, b1, b2), b0, b1, b2;
      && DecodeSextet(t[0]) == x0 / 4
      && DecodeSextet(t[1]) == (x0 % 4) * 16 + x1 / 16
      && DecodeSextet(t[2]) == (x1 % 16) * 4 + x2 / 64
      && DecodeSextet(t[3]) == x2 % 64
  {
    var x0, x1, x2: int := b0, b1, b2;
    SextetRoundTrip(x0 / 4);
    SextetRoundTrip((x0 % 4) * 16 + x1 / 16);
    SextetRoundTrip((x1 % 16) * 4 + x2 / 64);
    SextetRoundTrip(x2 % 64);
  }

  /** Decoding the four characters of an encoded group gives back its three bytes. */
  lemma TripleRoundTrip(b0: byte, b1: byte, b2: byte)
    ensures var t := EncodeTriple(b0, b1, b2);
      DecodeQuad(DecodeSextet(t[0]), DecodeSextet(t[1]), DecodeSextet(t[2]), DecodeSextet(t[3])) == [b0, b1, b2]
  {
    var t := EncodeTriple(b0, b1, b2);
    SextetsOfTriple(b0, b1, b2);
    var d0, d1, d2, d3 := DecodeSextet(t[0]), DecodeSextet(t[1]), DecodeSextet(t[2]), DecodeSextet(t[3]);
    TripleArith(b0, b1, b2);
    assert d0 * 4 + d1 / 16 == b0;
    assert (d1 % 16) * 16 + d2 / 4 == b1;
    assert (d2 % 4) * 64 + d3 == b2;
  }

  /** Decoding undoes encoding, for byte strings of every length. */
  lemma {:induction false} DecodeEncode(bs: seq<byte>)
    ensures Decode(Encode(bs)) == Some(bs)
  {
    EncodeHasNoNewlines(bs);
    GroupsRoundTrip(bs);
  }

  lemma {:induction false} GroupsRoundTrip(bs: seq<byte>)
    ensures DecodeGroups(Encode(bs)) == Some(bs)
    decreases |bs|
  {
    if |bs| == 1 {
      OneByteRoundTrip(bs[0]);
      assert bs == [bs[0]];
    } else if |bs| == 2 {
      TwoBytesRoundTrip(bs[0], bs[1]);
      assert bs == [bs[0], bs[1]];
    } else if |bs| >= 3 {
      assert bs == [bs[0], bs[1], bs[2]] + bs[3..];
      GroupsRoundTrip(bs[3..]);
      FullGroup(bs[0], bs[1], bs[2], Encode(bs[3..]), bs[3..]);
    }
  }

  /** A group of four alphabet characters decodes to its three bytes, followed by the rest. */
  lemma FullGroup(b0: byte, b1: byte, b2: byte, rest: string, tail: seq<byte>)
    requires DecodeGroups(rest) == Some(tail)
    ensures DecodeGroups(EncodeTriple(b0, b1, b2) + rest) == Some([b0, b1, b2] + tail)
  {
    var t := EncodeTriple(b0, b1, b2) + rest;
    TripleRoundTrip(b0, b1, b2);
    assert t[4..] == rest;
    assert t[..4] == EncodeTriple(b0, b1, b2);
  }

  /** A final group holding one byte ("xx=="). */
  lemma OneByteRoundTrip(b0: byte)
    ensures DecodeGroups(Encode([b0])) == Some([b0])
  {
    var e := EncodeTriple(b0, 0, 0);
    var t := Encode([b0]);
    SextetsOfTriple(b0, 0, 0);
    TripleRoundTrip(b0, 0, 0);
    assert t == e[..2] + "==";
    assert t[0] == e[0] && t[1] == e[1] && t[2] == '=' && t[3] == '=';
    assert DecodeSextet(e[2]) == 0 && DecodeSextet(e[3]) == 0;
    var q := DecodeQuad(DecodeSextet(e[0]), DecodeSextet(e[1]), 0, 0);
    assert q == [b0, 0, 0];
    assert q[..1] == [b0];
    assert !IsAlphabet(t[3]) && |t| == 4;
    assert DecodeGroups(t) == Some(q[..1]);
  }

  /** A final group holding two bytes ("xxx="). */
  lemma TwoBytesRoundTrip(b0: byte, b1: byte)
    ensures DecodeGroups(Encode([b0, b1])) == Some([b0, b1])
  {
    var e := EncodeTriple(b0, b1, 0);
    var t := Encode([b0, b1]);
    SextetsOfTriple(b0, b1, 0);
    TripleRoundTrip(b0, b1, 0);
    assert t == e[..3] + "=";
    assert t[0] == e[0] && t[1] == e[1] && t[2] == e[2] && t[3] == '=';
    assert DecodeSextet(e[3]) == 0;
    var q := DecodeQuad(DecodeSextet(e[0]), DecodeSextet(e[1]), DecodeSextet(e[2]), 0);
    assert q == [b0, b1, 0];
    assert q[..2] == [b0, b1];
    assert !IsAlphabet(t[3]) && |t| == 4;
    assert DecodeGroups(t) == Some(q[..2]);
  }

  /** Different byte strings never share an encoding. */
  lemma EncodeInjective(a: seq<byte>, b: seq<byte>)
    requires Encode(a) == Encode(b)
    ensures a == b
  {
    DecodeEncode(a);
    DecodeEncode(b);
  }
}
