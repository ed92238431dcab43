/** The envelope of a captured screen frame: written by the node, read by the gateway. */
module ScreenFrame {
  import opened Bytes
  import opened Results

  const NODE_FRAME_MAGIC: Byte := 0xaf
  const HEADER_FIXED := 7

  /** A frame; the slot is named by the bytes of its id. */
  datatype NodeFrame = NodeFrame(slot: seq<Byte>, payload: seq<Byte>, keyFrame: bool, width: int, height: int)

  function High(n: nat): Byte
    requires n < 0x10000
  {
    n / 256
  }

  function Low(n: nat): Byte {
    n % 256
  }

  function Join(high: Byte, low: Byte): nat {
    high * 256 + low
  }

  /** The sizes fit the two bytes they are written to. */
  predicate Writable(f: NodeFrame) {
    0 <= f.width < 0x10000 && 0 <= f.height < 0x10000
  }

  function Header(f: NodeFrame): (h: seq<Byte>)
    requires Writable(f)
    ensures |h| == HEADER_FIXED
  {
    [NODE_FRAME_MAGIC, if f.keyFrame then 1 else 0, High(f.width), Low(f.width), High(f.height), Low(f.height),
      Low(|f.slot|)]
  }

  function Encoded(f: NodeFrame): seq<Byte>
    requires Writable(f)
  {
    Header(f) + f.slot + f.payload
  }

  function Decoded(raw: seq<Byte>): Option<NodeFrame> {
    if |raw| < HEADER_FIXED || |raw| < HEADER_FIXED + raw[6] then None
    else
      Some(NodeFrame(raw[HEADER_FIXED..HEADER_FIXED + raw[6]], raw[HEADER_FIXED + raw[6]..], raw[1] % 2 != 0,
                     Join(raw[2], raw[3]), Join(raw[4], raw[5])))
  }

  /** Fills a new buffer field by field; a size that does not fit throws, a slot length that does not fit wraps. */
  method EncodeNodeFrame(slot: seq<Byte>, payload: seq<Byte>, keyFrame: bool, width: int, height: int)
    returns (buf: Option<array<Byte>>)
    ensures var f := NodeFrame(slot, payload, keyFrame, width, height);
            && (buf.Some? <==> Writable(f))
            && (buf.Some? ==> fresh(buf.value) && buf.value[..] == Encoded(f))
  {
    var headerSize := HEADER_FIXED + |slot|;
    var b := new Byte[headerSize + |payload|](_ => 0);
    b[0] := NODE_FRAME_MAGIC;
    b[1] := if keyFrame then 1 else 0;
    if width < 0 || width >= 0x10000 {
      return None;
    }
    b[2], b[3] := High(width), Low(width);
    if height < 0 || height >= 0x10000 {
      return None;
    }
    b[4], b[5] := High(height), Low(height);
    b[6] := Low(|slot|);
    ghost var head := Header(NodeFrame(slot, payload, keyFrame, width, height));
    assert b[..HEADER_FIXED] == head;
    hide Header, High, Low;
    Copy(slot, b, HEADER_FIXED);
    assert b[..headerSize] == head + slot;
    Copy(payload, b, headerSize);
    buf := Some(b);
  }

  method Copy(bytes: seq<Byte>, b: array<Byte>, at: nat)
    requires at + |bytes| <= b.Length
    modifies b
    ensures b[..] == old(b[..at]) + bytes + old(b[at + |bytes|..])
  {
    var i := 0;
    while i < |bytes|
      invariant 0 <= i <= |bytes|
      invariant forall k :: at <= k < at + i ==> b[k] == bytes[k - at]
      invariant forall k :: 0 <= k < b.Length && !(at <= k < at + i) ==> b[k] == old(b[k])
    {
      b[at + i] := bytes[i];
      i := i + 1;
    }
  }

  method DecodeNodeFrame(raw: array<Byte>) returns (f: Option<NodeFrame>)
    ensures f == Decoded(raw[..])
    ensures f.None? <==> raw.Length < HEADER_FIXED || raw.Length < HEADER_FIXED + raw[6]
  {
    if raw.Length < HEADER_FIXED {
      return None;
    }
    var slotLength := raw[6];
    if raw.Length < HEADER_FIXED + slotLength {
      return None;
    }
    f := Some(NodeFrame(raw[HEADER_FIXED..HEADER_FIXED + slotLength], raw[HEADER_FIXED + slotLength..], raw[1] % 2 != 0,
                        Join(raw[2], raw[3]), Join(raw[4], raw[5])));
  }

  /** The layout of an envelope: seven bytes with the sizes high byte first, then the slot, then the payload. */
  lemma EncodedLayout(f: NodeFrame)
    requires Writable(f)
    ensures var raw, n := Encoded(f), 7 + |f.slot|;
            && |raw| == n + |f.payload| && raw[0] == 0xaf && raw[1] == (if f.keyFrame then 1 else 0)
            && 256 * raw[2] as nat + raw[3] as nat == f.width && 256 * raw[4] as nat + raw[5] as nat == f.height
            && raw[6] == |f.slot| % 256 && raw[7..n] == f.slot && raw[n..] == f.payload
  {
    var raw, n := Encoded(f), 7 + |f.slot|;
    assert forall i :: 0 <= i < 7 ==> raw[i] == Header(f)[i];
    assert raw[7..n] == f.slot && raw[n..] == f.payload;
  }

  /** What is read of a buffer: nothing if it is too short for its slot, and otherwise each field from its place. */
  lemma DecodedLayout(raw: seq<Byte>)
    ensures Decoded(raw) == None <==> |raw| < 7 || |raw| < 7 + raw[6] as nat
    ensures Decoded(raw).Some? ==>
              var f, n := Decoded(raw).value, 7 + raw[6] as nat;
              && f.slot == raw[7..n] && f.payload == raw[n..] && (f.keyFrame <==> raw[1] % 2 == 1)
              && f.width == 256 * raw[2] as nat + raw[3] as nat && f.height == 256 * raw[4] as nat + raw[5] as nat
  {
  }

  /** What a written frame reads back as: its slot is cut to its length modulo 256, the rest goes before the payload. */
  lemma DecodesTo(f: NodeFrame)
    requires Writable(f)
    ensures var n := |f.slot| % 256;
            Decoded(Encoded(f)) == Some(f.(slot := f.slot[..n], payload := f.slot[n..] + f.payload))
  {
    var n := |f.slot| % 256;
    var raw := Encoded(f);
    assert raw[HEADER_FIXED..] == f.slot + f.payload;
    assert raw[HEADER_FIXED..HEADER_FIXED + n] == f.slot[..n];
    assert raw[HEADER_FIXED + n..] == f.slot[n..] + f.payload;
  }

  /** Decoding undoes encoding exactly for slots of at most 255 bytes. */
  lemma DecodeEncode(f: NodeFrame)
    requires Writable(f)
    ensures Decoded(Encoded(f)) == Some(f) <==> |f.slot| <= 255
  {
    DecodesTo(f);
    var n := |f.slot| % 256;
    if |f.slot| <= 255 {
      assert f.slot[..n] == f.slot && f.slot[n..] + f.payload == f.payload;
    } else {
      assert |f.slot[..n]| < |f.slot|;
    }
  }

  /** Encoding undoes decoding exactly for envelopes with the magic byte and no flag but the key frame's. */
  lemma EncodeDecode(raw: seq<Byte>)
    requires Decoded(raw).Some?
    ensures Writable(Decoded(raw).value)
    ensures Encoded(Decoded(raw).value) == raw <==> raw[0] == NODE_FRAME_MAGIC && raw[1] <= 1
  {
    HeaderOf(raw);
    RestStays(raw);
    hide *;
    var h := Header(Decoded(raw).value);
    SameEnds(h, raw[..HEADER_FIXED], raw[HEADER_FIXED..]);
    assert raw == raw[..HEADER_FIXED] + raw[HEADER_FIXED..];
  }

  lemma RestStays(raw: seq<Byte>)
    requires Decoded(raw).Some? && Writable(Decoded(raw).value)
    ensures |raw| >= HEADER_FIXED
    ensures Encoded(Decoded(raw).value) == Header(Decoded(raw).value) + raw[HEADER_FIXED..]
  {
    hide Header;
    var f := Decoded(raw).value;
    assert f.slot + f.payload == raw[HEADER_FIXED..];
  }

  lemma SameEnds(a: seq<Byte>, b: seq<Byte>, rest: seq<Byte>)
    requires |a| == |b|
    ensures a + rest == b + rest <==> a == b
  {
    assert (a + rest)[..|a|] == a && (b + rest)[..|b|] == b;
  }

  /** A decoded envelope is written back with the same header, but for the magic byte and the flags. */
  lemma HeaderOf(raw: seq<Byte>)
    requires Decoded(raw).Some?
    ensures Writable(Decoded(raw).value)
    ensures Header(Decoded(raw).value) == raw[..HEADER_FIXED] <==> raw[0] == NODE_FRAME_MAGIC && raw[1] <= 1
  {
    var f := Decoded(raw).value;
    var h := Header(f);
    assert |f.slot| == raw[6];
    Splits(raw[2], raw[3]);
    Splits(raw[4], raw[5]);
    Small(raw[6]);
    hide High, Low, Join;
    assert h[0] == NODE_FRAME_MAGIC && h[1] == raw[1] % 2;
    assert h[2] == raw[2] && h[3] == raw[3] && h[4] == raw[4] && h[5] == raw[5] && h[6] == raw[6];
    var head := raw[..HEADER_FIXED];
    if raw[0] == NODE_FRAME_MAGIC && raw[1] <= 1 {
      assert h[0] == head[0] && h[1] == head[1];
    }
    if h == head {
      assert h[0] == raw[0] && h[1] == raw[1];
    }
  }

  lemma Small(n: Byte)
    ensures Low(n) == n
  {
  }

  lemma Splits(high: Byte, low: Byte)
    ensures Join(high, low) < 0x10000 && High(Join(high, low)) == high && Low(Join(high, low)) == low
  {
  }
}
