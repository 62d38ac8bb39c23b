/** Unpadded base64url, as hardware.py stores credential ids and public keys (RFC 4648, sections 3.2
  and 5). A symbol is one of the 64 letters of the alphabet, given by its value, or the pad sign.
 */
module Base64Url {
  type Byte = x: nat | x < 256

  datatype Option<T> = None | Some(value: T)

  datatype Symbol = Letter(value: nat) | Pad

  type Six = x: nat | x < 64

  /** The four letters of three bytes. */
  function LetterA(x: Byte): Six { x / 4 }

  function LetterB(x: Byte, y: Byte): Six { x % 4 * 16 + y / 16 }

  function LetterC(y: Byte, z: Byte): Six { y % 16 * 4 + z / 64 }

  function LetterD(z: Byte): Six { z % 64 }

  /** The three bytes of four letters. */
  function ByteX(a: Six, b: Six): Byte { a * 4 + b / 16 }

  function ByteY(b: Six, c: Six): Byte { b % 16 * 16 + c / 4 }

  function ByteZ(c: Six, d: Six): Byte { c % 4 * 64 + d }

  /** Three bytes make four letters; one or two left over are padded. */
  function Encode(bytes: seq<Byte>): seq<Symbol> {
    if |bytes| == 0 then []
    else if |bytes| == 1 then [Letter(LetterA(bytes[0])), Letter(LetterB(bytes[0], 0)), Pad, Pad]
    else if |bytes| == 2 then
      [Letter(LetterA(bytes[0])), Letter(LetterB(bytes[0], bytes[1])), Letter(LetterC(bytes[1], 0)), Pad]
    else
      [Letter(LetterA(bytes[0])), Letter(LetterB(bytes[0], bytes[1])),
       Letter(LetterC(bytes[1], bytes[2])), Letter(LetterD(bytes[2]))] + Encode(bytes[3..])
  }

  predicate IsLetter(s: Symbol) {
    s.Letter? && s.value < 64
  }

  /** Decoding of padded text; None stands for a malformed text. Left-over low bits are dropped, as
    the library does. */
  function Decode(text: seq<Symbol>): Option<seq<Byte>>
    decreases |text|
  {
    if text == [] then Some([])
    else if |text| < 4 || !IsLetter(text[0]) || !IsLetter(text[1]) then None
    else
      var x := ByteX(text[0].value, text[1].value);
      if text[2] == Pad then
        if text[3] == Pad && |text| == 4 then Some([x]) else None
      else if !IsLetter(text[2]) then None
      else
        var y := ByteY(text[1].value, text[2].value);
        if text[3] == Pad then
          if |text| == 4 then Some([x, y]) else None
        else if !IsLetter(text[3]) then None
        else
          var rest := Decode(text[4..]);
          if rest.None? then None else Some([x, y, ByteZ(text[2].value, text[3].value)] + rest.value)
  }

  /** rstrip("="). */
  function Strip(text: seq<Symbol>): seq<Symbol> {
    if text != [] && text[|text| - 1] == Pad then Strip(text[..|text| - 1]) else text
  }

  function Pads(n: nat): (p: seq<Symbol>)
    ensures |p| == n
  {
    seq(n, i => Pad)
  }

  /** The padding rule of the source: four less the length modulo four, unless that is four. */
  function PadUp(text: seq<Symbol>): seq<Symbol> {
    var pad := 4 - |text| % 4;
    if pad != 4 then text + Pads(pad) else text
  }

  /// The stored form

  datatype Credential = Credential(id: seq<Byte>, publicKey: seq<Byte>, signCount: int, name: string)

  datatype Stored = Stored(id: seq<Symbol>, publicKey: seq<Symbol>, signCount: int, name: string)

  function ToDict(c: Credential): Stored {
    Stored(Strip(Encode(c.id)), Strip(Encode(c.publicKey)), c.signCount, c.name)
  }

  function FromDict(d: Stored): Option<Credential> {
    var id, key := Decode(PadUp(d.id)), Decode(PadUp(d.publicKey));
    if id.None? || key.None? then None else Some(Credential(id.value, key.value, d.signCount, d.name))
  }

  /// Round trips

  /** Four letters hold three bytes. */
  lemma Regroup(x: Byte, y: Byte, z: Byte)
    ensures ByteX(LetterA(x), LetterB(x, y)) == x
    ensures ByteY(LetterB(x, y), LetterC(y, z)) == y
    ensures ByteZ(LetterC(y, z), LetterD(z)) == z
  {
  }

  /** The four letters of three bytes are the same number in base 64 that the bytes are in base 256, most
    significant first; bytes that are missing count as zero. */
  lemma LettersAreDigits(x: Byte, y: Byte, z: Byte)
    ensures ((LetterA(x) * 64 + LetterB(x, y)) * 64 + LetterC(y, z)) * 64 + LetterD(z) == (x * 256 + y) * 256 + z
    ensures ((LetterA(x) * 64 + LetterB(x, y)) * 64 + LetterC(y, 0)) * 64 == (x * 256 + y) * 256
    ensures (LetterA(x) * 64 + LetterB(x, 0)) * 64 * 64 == x * 256 * 256
  {
    assert x == x / 4 * 4 + x % 4 && y == y / 16 * 16 + y % 16 && z == z / 64 * 64 + z % 64;
  }

  /** An encoding starts with the digits of the first three bytes, or of the one or two that there are, and
    then pads or goes on with the rest. */
  lemma EncodingStarts(bytes: seq<Byte>)
    requires bytes != []
    ensures var e := Encode(bytes);
      var x, y, z := bytes[0], if |bytes| > 1 then bytes[1] else 0, if |bytes| > 2 then bytes[2] else 0;
      && |e| >= 4
      && e[0] == Letter(LetterA(x)) && e[1] == Letter(LetterB(x, y))
      && (|bytes| == 1 ==> e[2..] == [Pad, Pad])
      && (|bytes| == 2 ==> e[2..] == [Letter(LetterC(y, 0)), Pad])
      && (|bytes| > 2 ==> e[2] == Letter(LetterC(y, z)) && e[3] == Letter(LetterD(z)) && e[4..] == Encode(bytes[3..]))
  {
    hide LetterA, LetterB, LetterC, LetterD;
  }

  lemma DecodeFour(a: Six, b: Six, c: Six, d: Six, rest: seq<Symbol>)
    requires Decode(rest).Some?
    ensures Decode([Letter(a), Letter(b), Letter(c), Letter(d)] + rest)
         == Some([ByteX(a, b), ByteY(b, c), ByteZ(c, d)] + Decode(rest).value)
  {
    hide ByteX, ByteY, ByteZ;
    var text := [Letter(a), Letter(b), Letter(c), Letter(d)] + rest;
    assert text[4..] == rest;
  }

  lemma {:induction false} DecodeEncode(bytes: seq<Byte>)
    ensures Decode(Encode(bytes)) == Some(bytes)
    decreases |bytes|
  {
    hide ByteX, ByteY, ByteZ, LetterA, LetterB, LetterC, LetterD;
    if |bytes| < 3 {
      DecodeShort(bytes);
    } else {
      var x, y, z := bytes[0], bytes[1], bytes[2];
      Regroup(x, y, z);
      DecodeEncode(bytes[3..]);
      DecodeFour(LetterA(x), LetterB(x, y), LetterC(y, z), LetterD(z), Encode(bytes[3..]));
      assert bytes == [x, y, z] + bytes[3..];
      hide Decode;
    }
  }

  lemma DecodeShort(bytes: seq<Byte>)
    requires |bytes| < 3
    ensures Decode(Encode(bytes)) == Some(bytes)
  {
    hide ByteX, ByteY, ByteZ, LetterA, LetterB, LetterC, LetterD;
    if |bytes| == 1 {
      Regroup(bytes[0], 0, 0);
      assert bytes == [bytes[0]];
    } else if |bytes| == 2 {
      var x, y := bytes[0], bytes[1];
      Regroup(x, y, 0);
      assert bytes == [x, y];
    }
  }

  /** The text without its padding has no pad sign, and its length tells how much padding to restore. */
  lemma {:induction false} StripEncode(bytes: seq<Byte>)
    ensures PadUp(Strip(Encode(bytes))) == Encode(bytes)
    ensures Pad !in Strip(Encode(bytes))
    decreases |bytes|
  {
    var e := Encode(bytes);
    if |bytes| == 1 {
      assert Strip(e) == Strip(e[..3]) == Strip(e[..2]) == e[..2];
      assert e == e[..2] + Pads(2);
    } else if |bytes| == 2 {
      assert Strip(e) == Strip(e[..3]) == e[..3];
      assert e == e[..3] + Pads(1);
    } else if |bytes| >= 3 {
      StripEncode(bytes[3..]);
      StripAfterLetters(e[..4], Encode(bytes[3..]));
      assert e == e[..4] + Encode(bytes[3..]);
      PadUpAfterFour(e[..4], Strip(Encode(bytes[3..])));
    }
  }

  lemma {:induction false} StripAfterLetters(front: seq<Symbol>, text: seq<Symbol>)
    requires |front| == 4 && Pad !in front
    ensures Strip(front + text) == front + Strip(text)
  {
    if text != [] && text[|text| - 1] == Pad {
      assert (front + text)[..|front + text| - 1] == front + text[..|text| - 1];
      StripAfterLetters(front, text[..|text| - 1]);
    } else if text == [] {
      assert front + text == front && front[3] in front;
    }
  }

  lemma PadUpAfterFour(front: seq<Symbol>, text: seq<Symbol>)
    requires |front| == 4
    ensures PadUp(front + text) == front + PadUp(text)
  {
    assert |front + text| % 4 == |text| % 4;
    var pad := 4 - |text| % 4;
    if pad != 4 {
      assert front + text + Pads(pad) == front + (text + Pads(pad));
    }
  }

  /** A credential survives being stored without padding and read back, and what is stored is free of
    padding. */
  lemma CredentialRoundTrip(c: Credential)
    ensures FromDict(ToDict(c)) == Some(c)
    ensures Pad !in ToDict(c).id && Pad !in ToDict(c).publicKey
    ensures PadUp(ToDict(c).id) == Encode(c.id) && PadUp(ToDict(c).publicKey) == Encode(c.publicKey)
    ensures ToDict(c).signCount == c.signCount && ToDict(c).name == c.name
  {
    StripEncode(c.id);
    StripEncode(c.publicKey);
    DecodeEncode(c.id);
    DecodeEncode(c.publicKey);
  }

  /** Unpadded letters can be read exactly when their number is not one more than a multiple of four. */
  lemma {:induction false} ReadableIff(text: seq<Symbol>)
    requires forall s :: s in text ==> IsLetter(s)
    ensures Decode(PadUp(text)).Some? <==> |text| % 4 != 1
    decreases |text|
  {
    assert forall i :: 0 <= i < |text| ==> IsLetter(text[i]);
    var p := PadUp(text);
    if |text| >= 4 {
      ReadableIff(text[4..]);
      assert text == text[..4] + text[4..];
      PadUpAfterFour(text[..4], text[4..]);
      assert p[4..] == PadUp(text[4..]);
      assert p[0] == text[0] && p[1] == text[1] && p[2] == text[2] && p[3] == text[3];
    } else if text != [] {
      assert p == text + Pads(4 - |text|) && p[3] == Pad;
    }
  }
}
