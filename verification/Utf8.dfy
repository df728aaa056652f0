/** UTF-8 (section 3 of RFC 3629) and the character boundaries of an encoded text. */
module Utf8 {
  import opened Common

  function Continuation(n: nat): Byte { 0x80 + n % 64 }

  function EncodeChar(c: char): (bytes: seq<Byte>)
    ensures 1 <= |bytes| <= 4
  {
    var n := c as int;
    if n < 0x80 then [n]
    else if n < 0x800 then [0xC0 + n / 64, Continuation(n)]
    else if n < 0x10000 then [0xE0 + n / 4096, Continuation(n / 64), Continuation(n)]
    else [0xF0 + n / 262144, Continuation(n / 4096), Continuation(n / 64), Continuation(n)]
  }

  function LenUtf8(c: char): nat { |EncodeChar(c)| }

  function Encode(text: string): seq<Byte> {
    if text == "" then [] else EncodeChar(text[0]) + Encode(text[1..])
  }

  /** `str::len`. */
  function ByteLen(text: string): nat { |Encode(text)| }

  lemma {:induction false} EncodeConcat(a: string, b: string)
    ensures Encode(a + b) == Encode(a) + Encode(b)
  {
    if a == "" {
      assert a + b == b;
    } else {
      assert (a + b)[1..] == a[1..] + b;
      EncodeConcat(a[1..], b);
    }
  }

  lemma ByteLenConcat(a: string, b: string)
    ensures ByteLen(a + b) == ByteLen(a) + ByteLen(b)
  {
    EncodeConcat(a, b);
  }

  predicate IsContinuation(b: Byte) { 0x80 <= b < 0xC0 }

  /** `str::is_char_boundary`, on the bytes. */
  predicate IsBoundary(text: string, offset: nat) {
    var bytes := Encode(text);
    offset == 0 || offset == |bytes| || (offset < |bytes| && !IsContinuation(bytes[offset]))
  }

  lemma OnlyFirstByteLeads(c: char)
    ensures var bytes := EncodeChar(c);
            !IsContinuation(bytes[0]) && forall i :: 1 <= i < |bytes| ==> IsContinuation(bytes[i])
  {
  }

  lemma {:induction false} FirstByteLeads(text: string)
    ensures text != "" ==> Encode(text) != [] && !IsContinuation(Encode(text)[0])
  {
    if text != "" {
      OnlyFirstByteLeads(text[0]);
    }
  }

  /** The number of characters before a boundary. */
  ghost predicate At(text: string, index: nat, offset: nat) {
    index <= |text| && ByteLen(text[..index]) == offset
  }

  /** The boundaries of the bytes are exactly the ends of the text's prefixes. */
  lemma {:induction false} BoundariesArePrefixes(text: string, offset: nat)
    ensures IsBoundary(text, offset) <==> exists index :: At(text, index, offset)
  {
    if text == "" {
      if offset == 0 { assert At(text, 0, 0); }
    } else {
      var first, rest := LenUtf8(text[0]), text[1..];
      OnlyFirstByteLeads(text[0]);
      FirstByteLeads(rest);
      if offset == 0 {
        assert At(text, 0, 0);
      } else if offset < first {
        forall index | 0 <= index <= |text| ensures ByteLen(text[..index]) != offset {
          if index > 0 { assert text[..index][1..] == rest[..index - 1]; }
        }
      } else {
        var shifted: nat := offset - first;
        BoundariesArePrefixes(rest, shifted);
        assert IsBoundary(text, offset) <==> IsBoundary(rest, shifted);
        if index: nat :| At(rest, index, shifted) {
          assert text[..index + 1][1..] == rest[..index];
          assert At(text, index + 1, offset);
        }
        if index: nat :| At(text, index, offset) {
          if index > 0 {
            assert text[..index][1..] == rest[..index - 1];
            assert At(rest, index - 1, shifted);
          }
        }
      }
    }
  }

  /** A boundary ends one prefix only. */
  lemma {:induction false} PrefixLengthsGrow(text: string, i: nat, j: nat)
    requires i < j <= |text|
    ensures ByteLen(text[..i]) < ByteLen(text[..j])
  {
    assert text[..j] == text[..i] + text[i..j];
    ByteLenConcat(text[..i], text[i..j]);
  }

  /** The character index of a boundary. */
  function IndexOf(text: string, offset: nat): (index: nat)
    requires IsBoundary(text, offset) && offset <= ByteLen(text)
    ensures At(text, index, offset)
  {
    if offset == 0 then 0
    else
      FirstByteLeads(text[1..]);
      OnlyFirstByteLeads(text[0]);
      var index := 1 + IndexOf(text[1..], offset - LenUtf8(text[0]));
      assert text[..index][1..] == text[1..][..index - 1];
      index
  }

  /** The text between two boundaries. */
  function Slice(text: string, from: nat, to: nat): string
    requires IsBoundary(text, from) && IsBoundary(text, to) && from <= to <= ByteLen(text)
  {
    SliceIndexes(text, from, to);
    text[IndexOf(text, from)..IndexOf(text, to)]
  }

  lemma SliceIndexes(text: string, from: nat, to: nat)
    requires IsBoundary(text, from) && IsBoundary(text, to) && from <= to <= ByteLen(text)
    ensures IndexOf(text, from) <= IndexOf(text, to) <= |text|
  {
    if IndexOf(text, to) < IndexOf(text, from) {
      PrefixLengthsGrow(text, IndexOf(text, to), IndexOf(text, from));
    }
  }

  lemma IndexOfPrefix(text: string, index: nat)
    requires index <= |text|
    ensures IsBoundary(text, ByteLen(text[..index])) && ByteLen(text[..index]) <= ByteLen(text)
    ensures IndexOf(text, ByteLen(text[..index])) == index
  {
    var offset := ByteLen(text[..index]);
    assert At(text, index, offset);
    BoundariesArePrefixes(text, offset);
    assert text[..|text|] == text;
    if index < |text| { PrefixLengthsGrow(text, index, |text|); }
    var found := IndexOf(text, offset);
    if found < index {
      PrefixLengthsGrow(text, found, index);
    } else if index < found {
      PrefixLengthsGrow(text, index, found);
    }
  }
}
