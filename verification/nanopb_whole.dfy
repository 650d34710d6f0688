/** Encoding a message into a buffer and decoding it from there. */
module NanopbWhole {
  import opened Wrappers
  import opened LittleEndian
  import opened NanopbWire
  import opened NanopbMessage
  import opened NanopbReading
  import Encode = NanopbEncode
  import Decoder = NanopbDecode
  import Fields = NanopbFields
  import RoundTrip = NanopbRoundTrip

  /** A fitting message is one that the encoder may be given. */
  lemma {:induction false} FitsIsShaped(s: Schema, m: seq<Slot>)
    requires WellFormed(s) && Fits(s, m)
    ensures Encode.Shaped(s, m)
    decreases s
  {
    forall i | 0 <= i < |m| ensures Encode.ShapedSlot(s.fields[i], m[i]) {
      var f := s.fields[i];
      assert WellFormedField(f) && FitsSlot(f, m[i]) && WellFormedType(f.ltype);
      forall k | 0 <= k < |m[i]| ensures Encode.ShapedValue(f.ltype, m[i][k]) {
        assert FitsValue(f.ltype, m[i][k]);
        if f.ltype.Sub? {
          FitsIsShaped(f.ltype.schema, m[i][k].slots);
        }
      }
    }
  }

  lemma {:induction false} WellFormedTags(s: Schema)
    requires WellFormed(s)
    ensures Decoder.GoodTags(s)
    decreases s
  {
    forall i | 0 <= i < |s.fields| ensures s.fields[i].tag != 0 && Decoder.GoodType(s.fields[i].ltype) {
      var f := s.fields[i];
      assert WellFormedField(f) && WellFormedType(f.ltype);
      if f.ltype.Sub? {
        WellFormedTags(f.ltype.schema);
      }
    }
  }

  /** Below 4 GiB as a whole, a message needs no further bound on its parts. */
  lemma ReadsBack(s: Schema, m: seq<Slot>)
    requires WellFormed(s) && Fits(s, m) && MessageBytes(s, m).Some? && |MessageBytes(s, m).value| < U32
    ensures Decode(s, MessageBytes(s, m).value) == Some(m)
  {
    hide *;
    RoundTrip.PlainMessage(s, m);
    RoundTrip.ShortMessage(s, m, RoundTrip.NO_PADS);
    RoundTrip.MessageRoundTrip(s, m);
  }

  /** With room for it, and below 4 GiB, a message survives the way through a buffer. */
  method Transfer(s: Schema, m: seq<Slot>, buf: array<Byte>) returns (ok: bool, m': seq<Slot>)
    requires WellFormed(s) && Fits(s, m) && buf.Length < U32
    modifies buf
    ensures MessageBytes(s, m).Some? && (ok <==> |MessageBytes(s, m).value| <= buf.Length)
    ensures ok ==> m' == m
  {
    hide WellFormed, Fits, MessageBytes, Encode.Shaped, Decoder.GoodTags, Decode;
    FitsIsShaped(s, m);
    WellFormedTags(s);
    Fields.MessageHasBytes(s, m);
    m' := [];
    var size;
    ok, size := Encode.EncodeIntoBuffer(s, m, buf);
    if !ok {
      return;
    }
    var bytes := buf[..size];
    assert bytes == MessageBytes(s, m).value;
    ReadsBack(s, m);
    var stream := new Decoder.IStream(bytes, 0, size);
    assert stream.Rest() == bytes;
    ok, m' := Decoder.DecodeMessage(stream, s);
  }
}
