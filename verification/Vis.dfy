/** The visual encoding of src/vis.c: with the flags the process title uses, every byte string can
    be read back, and the bounded form writes whole characters only. */
module Vis {
  import opened Words

  type Bytes = seq<Byte>

  datatype Flags = Flags(all: bool, sp: bool, tab: bool, nl: bool, safe: bool, glob: bool,
                         dq: bool, noSlash: bool, cStyle: bool, octal: bool)

  /** VIS_CSTYLE|VIS_NL|VIS_TAB|VIS_OCTAL */
  const TITLE := Flags(false, false, true, true, false, false, false, false, true, true)

  const BACKSLASH: Byte := 92
  const SPACE: Byte := 32
  const QUOTE: Byte := 34

  predicate IsGraph(c: Byte) { 33 <= c <= 126 }
  predicate IsOctal(c: Byte) { 48 <= c <= 55 }
  predicate IsControl(c: Byte) { c < 32 || c == 127 }
  predicate IsGlob(c: Byte) { c == 42 || c == 63 || c == 91 || c == 35 }

  predicate Visible(c: Byte, f: Flags) {
    && (c == BACKSLASH || !f.all)
    && (|| ((!IsGlob(c) || !f.glob) && IsGraph(c))
        || (!f.sp && c == SPACE)
        || (!f.tab && c == 9)
        || (!f.nl && c == 10)
        || (f.safe && (c == 8 || c == 7 || c == 13 || IsGraph(c))))
  }

  /** The letter of a C escape, or 0. */
  function CLetter(c: Byte): (l: Byte) {
    if c == 10 then 110 else if c == 13 then 114 else if c == 8 then 98 else if c == 7 then 97
    else if c == 11 then 118 else if c == 9 then 116 else if c == 12 then 102 else if c == SPACE then 115 else 0
  }

  /** One character, knowing the one that follows. */
  function Encode1(c: Byte, f: Flags, next: Byte): (out: Bytes)
    ensures 1 <= |out| <= 4
  {
    if Visible(c, f) then
      (if (c == QUOTE && f.dq) || (c == BACKSLASH && !f.noSlash) then [BACKSLASH] else []) + [c]
    else if f.cStyle && CLetter(c) != 0 then [BACKSLASH, CLetter(c)]
    else if f.cStyle && c == 0 then [BACKSLASH, 48] + (if IsOctal(next) then [48, 48] else [])
    else if c % 128 == SPACE || f.octal || (f.glob && IsGlob(c)) then
      [BACKSLASH, c / 64 + 48, c / 8 % 8 + 48, c % 8 + 48]
    else
      var d := c % 128;
      (if f.noSlash then [] else [BACKSLASH]) + (if c >= 128 then [77] else [])
      + (if IsControl(d) then [94, if d == 127 then 63 else d + 64] else [45, d])
  }

  /** The whole block; the last character is followed by 0. */
  function Encode(s: Bytes, f: Flags): (out: Bytes) {
    if s == [] then [] else Encode1(s[0], f, if |s| > 1 then s[1] else 0) + Encode(s[1..], f)
  }

  // ---- Reading it back ----

  function CValue(l: Byte): (c: Option<Byte>) {
    if l == 110 then Some(10) else if l == 114 then Some(13) else if l == 98 then Some(8)
    else if l == 97 then Some(7) else if l == 118 then Some(11) else if l == 116 then Some(9)
    else if l == 102 then Some(12) else if l == BACKSLASH then Some(BACKSLASH) else None
  }

  /** One character and how many bytes it took. */
  function Decode1(s: Bytes): (o: Option<(Byte, nat)>)
    requires s != []
    ensures o.Some? ==> 1 <= o.value.1 <= |s|
  {
    if s[0] != BACKSLASH then Some((s[0], 1))
    else if |s| == 1 then None
    else if CValue(s[1]).Some? then Some((CValue(s[1]).value, 2))
    else if |s| >= 4 && 48 <= s[1] <= 51 && IsOctal(s[2]) && IsOctal(s[3])
    then Some(((s[1] - 48) * 64 + (s[2] - 48) * 8 + (s[3] - 48), 4))
    else if s[1] == 48 then Some((0, 2))
    else None
  }

  function Decode(s: Bytes): (o: Option<Bytes>)
    decreases |s|
  {
    if s == [] then Some([])
    else
      match Decode1(s)
      case None => None
      case Some((c, n)) =>
        match Decode(s[n..])
        case None => None
        case Some(t) => Some([c] + t)
  }

  /** The first byte of an encoding is an octal digit only if the character itself is one. */
  lemma FirstByte(s: Bytes)
    requires s != []
    ensures Encode(s, TITLE) != [] && (IsOctal(Encode(s, TITLE)[0]) ==> IsOctal(s[0]))
  {
  }

  lemma OctalDigits(c: Byte)
    ensures c == c / 64 * 64 + c / 8 % 8 * 8 + c % 8 && c / 64 <= 3
  {
  }

  lemma Decode1Inverts(c: Byte, next: Byte, rest: Bytes)
    requires rest != [] && IsOctal(rest[0]) ==> IsOctal(next)
    ensures var e := Encode1(c, TITLE, next); Decode1(e + rest) == Some((c, |e|))
  {
    OctalDigits(c);
  }

  /** Every byte string, NULs included, is recovered from its encoding. */
  lemma {:induction false} RoundTrip(s: Bytes)
    ensures Decode(Encode(s, TITLE)) == Some(s)
  {
    hide Encode1, Decode1;
    if s != [] {
      var next: Byte := if |s| > 1 then s[1] else 0;
      var e, rest := Encode1(s[0], TITLE, next), Encode(s[1..], TITLE);
      RoundTrip(s[1..]);
      if |s| > 1 {
        FirstByte(s[1..]);
      }
      Decode1Inverts(s[0], next, rest);
      assert (e + rest)[|e|..] == rest;
      assert [s[0]] + s[1..] == s;
    }
  }

  /** So no two byte strings share an encoding. */
  lemma Injective(s: Bytes, t: Bytes)
    requires Encode(s, TITLE) == Encode(t, TITLE)
    ensures s == t
  {
    RoundTrip(s);
    RoundTrip(t);
  }

  // ---- The bounded form ----

  /** C strings: the terminating 0 does not occur inside. */
  ghost predicate NoNul(s: Bytes) { forall i :: 0 <= i < |s| ==> s[i] != 0 }

  lemma NextIrrelevant(c: Byte, f: Flags, a: Byte, b: Byte)
    requires c != 0
    ensures Encode1(c, f, a) == Encode1(c, f, b)
  {
  }

  /** Without NULs, encoding is character by character. */
  lemma {:induction false} EncodeSnoc(s: Bytes, f: Flags, k: nat)
    requires NoNul(s) && k < |s|
    ensures Encode(s[..k + 1], f) == Encode(s[..k], f) + Encode1(s[k], f, 0)
    decreases k
  {
    hide Encode1;
    if k == 0 {
      assert s[..1] == [s[0]] && [s[0]][1..] == [] && s[..0] == [];
      assert Encode([s[0]], f) == Encode1(s[0], f, 0) + [];
      assert [] + Encode1(s[0], f, 0) == Encode1(s[0], f, 0);
    } else {
      EncodeSnoc(s[1..], f, k - 1);
      assert s[..k + 1][1..] == s[1..][..k] && s[..k][1..] == s[1..][..k - 1];
      NextIrrelevant(s[0], f, s[1], if k > 1 then s[1] else 0);
      assert s[..k + 1][1] == s[1] && (k > 1 ==> s[..k][1] == s[1]);
    }
  }

  /** strvisx, and strvis on a C string: each character with its successor, the last with 0. */
  method StrVis(src: Bytes, f: Flags) returns (out: Bytes)
    ensures out == Encode(src, f)
  {
    hide Encode, Encode1;
    out := [];
    var k := 0;
    assert src[0..] == src;
    while k < |src|
      invariant k <= |src| && Encode(src, f) == out + Encode(src[k..], f)
    {
      var e := Encode1(src[k], f, if k + 1 < |src| then src[k + 1] else 0);
      EncodeStep(src, k, f);
      assert out + (e + Encode(src[k + 1..], f)) == (out + e) + Encode(src[k + 1..], f);
      out := out + e;
      k := k + 1;
    }
    EncodeStep(src, k, f);
  }

  lemma EncodeStep(s: Bytes, k: nat, f: Flags)
    requires k <= |s|
    ensures Encode(s[k..], f) == if k == |s| then []
                                 else Encode1(s[k], f, if k + 1 < |s| then s[k + 1] else 0) + Encode(s[k + 1..], f)
  {
    hide Encode1;
    assert k < |s| ==> s[k..][1..] == s[k + 1..];
  }

  /** strnvis: writes the encoding of the longest prefix that fits siz - 1 bytes, whole characters
      only. The documented return value, the length of the full encoding, holds exactly unless the
      buffer has one byte and there is something to encode: that is answered with 0. */
  method StrNVis(src: Bytes, siz: nat, f: Flags) returns (out: Bytes, ret: nat, ghost k: nat)
    requires NoNul(src)
    ensures k <= |src| && out == Encode(src[..k], f)
    ensures |out| <= (if siz == 0 then 0 else siz - 1)
    ensures k < |src| ==> |Encode(src[..k + 1], f)| > siz - 1
    ensures ret == if siz == 1 then 0 else |Encode(src, f)|
    ensures ret == |Encode(src, f)| <==> siz != 1 || src == []
  {
    hide Encode, Encode1;
    EncodeSome(src, f);
    var end := siz - 1;
    var at, i := 0, 0;
    out, k := [], 0;
    EmptyEncodes(src, f);
    while at < |src| && |out| < end
      invariant at <= |src| && k == at && out == Encode(src[..at], f)
      invariant |out| <= (if siz == 0 then 0 else siz - 1)
      invariant 0 <= i <= |out| && (at > 0 ==> i > 0)
    {
      var e := Encode1(src[at], f, if at + 1 < |src| then src[at + 1] else 0);
      NextIrrelevant(src[at], f, if at + 1 < |src| then src[at + 1] else 0, 0);
      EncodeSnoc(src, f, at);
      i := |e|;
      if |out| + i > end {
        break;
      }
      out := out + e;
      at := at + 1;
      k := at;
    }
    if at < |src| {
      EncodeSnoc(src, f, at);
    }
    var length := |out|;
    if length + i > end {
      while at < |src|
        invariant at <= |src| && length == |Encode(src[..at], f)|
      {
        var e := Encode1(src[at], f, if at + 1 < |src| then src[at + 1] else 0);
        NextIrrelevant(src[at], f, if at + 1 < |src| then src[at + 1] else 0, 0);
        EncodeSnoc(src, f, at);
        length := length + |e|;
        at := at + 1;
      }
    }
    assert src[..|src|] == src;
    ret := length;
  }

  lemma EmptyEncodes(src: Bytes, f: Flags)
    ensures Encode(src[..0], f) == []
  {
  }

  lemma EncodeSome(src: Bytes, f: Flags)
    ensures |Encode(src, f)| == 0 <==> src == []
  {
    if src != [] {
      assert |Encode1(src[0], f, if |src| > 1 then src[1] else 0)| >= 1;
    }
  }
}
