/**
 The fingerprint preview's record parser: the first finger view of a byte string, at the offsets and with
 the big-endian fields the script uses, and the pixels of an uncompressed image.
 */
module FingerprintRecord {

  type Byte = b: int | 0 <= b < 256

  type Bytes = seq<Byte>

  const GENERAL_HEADER := 32
  const VIEW_HEADER := 14

  datatype View = View(compression: Byte, depth: Byte, width: nat, height: nat, image: Bytes)

  datatype Problem =
    | TooShort | NoMagic | NoViews | LengthOutOfRange | ZeroDimension
    | DepthUnsupported | ImageTooShort | CompressionUnsupported

  datatype Parsed = Ok(view: View) | Error(problem: Problem)

  /** Big-endian, as struct.unpack with ">I" and ">H". */
  function Unpack(s: Bytes): (n: nat) {
    if s == [] then 0 else 256 * Unpack(s[..|s| - 1]) + s[|s| - 1]
  }

  function Pack(n: nat, k: nat): (s: Bytes)
    ensures |s| == k
  {
    if k == 0 then [] else Pack(n / 256, k - 1) + [n % 256]
  }

  function Power(k: nat): (p: nat)
    ensures p > 0
  {
    if k == 0 then 1 else 256 * Power(k - 1)
  }

  lemma {:induction false} UnpackPack(n: nat, k: nat)
    requires n < Power(k)
    ensures Unpack(Pack(n, k)) == n
  {
    if k > 0 {
      UnpackPack(n / 256, k - 1);
      assert Pack(n, k)[..k - 1] == Pack(n / 256, k - 1);
    }
  }

  lemma {:induction false} PackUnpack(s: Bytes)
    ensures Unpack(s) < Power(|s|) && Pack(Unpack(s), |s|) == s
  {
    if s != [] {
      PackUnpack(s[..|s| - 1]);
      assert Unpack(s) / 256 == Unpack(s[..|s| - 1]) && Unpack(s) % 256 == s[|s| - 1];
      assert s == s[..|s| - 1] + [s[|s| - 1]];
    }
  }

  /** "FIR" and a zero byte. */
  const MAGIC: Bytes := [0x46, 0x49, 0x52, 0]

  /** _parse_first_view. */
  function Parse(buf: Bytes): Parsed {
    if |buf| < GENERAL_HEADER + VIEW_HEADER then Error(TooShort)
    else if buf[0..4] != MAGIC then Error(NoMagic)
    else if buf[16] < 1 then Error(NoViews)
    else
      var off := GENERAL_HEADER;
      var viewLen := Unpack(buf[off..off + 4]);
      if viewLen < VIEW_HEADER || off + viewLen > |buf| then Error(LengthOutOfRange)
      else
        var width, height := Unpack(buf[off + 9..off + 11]), Unpack(buf[off + 11..off + 13]);
        if width < 1 || height < 1 then Error(ZeroDimension)
        else Ok(View(buf[27], buf[26], width, height, buf[off + VIEW_HEADER..off + viewLen]))
  }

  /** Which refusal a buffer gets: the first of the checks it fails, each in terms of the bytes. */
  lemma RefusedExactly(buf: Bytes)
    ensures var long := |buf| >= 46;
            var magic := long && buf[..4] == [0x46, 0x49, 0x52, 0];
            var viewed := magic && 1 <= buf[16];
            var fits := viewed && 14 <= Unpack(buf[32..36]) <= |buf| - 32;
            var sized := fits && 1 <= Unpack(buf[41..43]) && 1 <= Unpack(buf[43..45]);
            && (Parse(buf) == Error(TooShort) <==> !long)
            && (Parse(buf) == Error(NoMagic) <==> long && !magic)
            && (Parse(buf) == Error(NoViews) <==> magic && !viewed)
            && (Parse(buf) == Error(LengthOutOfRange) <==> viewed && !fits)
            && (Parse(buf) == Error(ZeroDimension) <==> fits && !sized)
            && (Parse(buf).Ok? <==> sized)
  {}

  // ---------- an encoder ----------

  /** The bytes the parser passes over: between the fields it reads, and after the first view. */
  datatype Rest = Rest(early: Bytes, views: Byte, middle: Bytes, late: Bytes, info: Bytes, last: Byte, trailing: Bytes)

  predicate Encodable(v: View, r: Rest) {
    && |r.early| == 12 && 1 <= r.views && |r.middle| == 9 && |r.late| == 4 && |r.info| == 5
    && 1 <= v.width < 0x1_0000 && 1 <= v.height < 0x1_0000 && VIEW_HEADER + |v.image| < 0x1_0000_0000
  }

  function Header(v: View, r: Rest): Bytes {
    MAGIC + r.early + [r.views] + r.middle + [v.depth, v.compression] + r.late
  }

  function ViewHeader(v: View, r: Rest): Bytes {
    Pack(VIEW_HEADER + |v.image|, 4) + r.info + Pack(v.width, 2) + Pack(v.height, 2) + [r.last]
  }

  function Encode(v: View, r: Rest): Bytes {
    Header(v, r) + ViewHeader(v, r) + v.image + r.trailing
  }

  lemma Powers()
    ensures Power(2) == 0x1_0000 && Power(4) == 0x1_0000_0000
  {}

  lemma HeaderFields(v: View, r: Rest)
    requires Encodable(v, r)
    ensures var h := Header(v, r);
            |h| == 32 && h[0..4] == MAGIC && h[16] == r.views && h[26] == v.depth && h[27] == v.compression
  {}

  lemma ViewFields(v: View, r: Rest)
    requires Encodable(v, r)
    ensures var h := ViewHeader(v, r);
            && |h| == 14 && h[0..4] == Pack(VIEW_HEADER + |v.image|, 4)
            && h[9..11] == Pack(v.width, 2) && h[11..13] == Pack(v.height, 2)
  {}

  lemma Slices(h: Bytes, w: Bytes, image: Bytes, trailing: Bytes)
    requires |h| == 32 && |w| == 14
    ensures var b := h + w + image + trailing;
            && b[0..4] == h[0..4] && b[16] == h[16] && b[26] == h[26] && b[27] == h[27]
            && b[32..36] == w[0..4] && b[41..43] == w[9..11] && b[43..45] == w[11..13]
            && b[46..46 + |image|] == image && b[46 + |image|..] == trailing
  {}

  /** Whatever follows the first view, and whatever the skipped bytes are, parsing gives back what was encoded. */
  lemma ParseUndoesEncode(v: View, r: Rest)
    requires Encodable(v, r)
    ensures Parse(Encode(v, r)) == Ok(v)
  {
    HeaderFields(v, r);
    ViewFields(v, r);
    Slices(Header(v, r), ViewHeader(v, r), v.image, r.trailing);
    Powers();
    UnpackPack(VIEW_HEADER + |v.image|, 4);
    UnpackPack(v.width, 2);
    UnpackPack(v.height, 2);
  }

  /** The bytes of an accepted buffer that the parser passed over. */
  function RestOf(buf: Bytes, v: View): Rest
    requires |buf| >= 46 + |v.image|
  {
    Rest(buf[4..16], buf[16], buf[17..26], buf[28..32], buf[36..41], buf[45], buf[46 + |v.image|..])
  }

  lemma HeaderAgain(buf: Bytes, v: View)
    requires |buf| >= 46 + |v.image| && buf[0..4] == MAGIC && buf[26] == v.depth && buf[27] == v.compression
    ensures Header(v, RestOf(buf, v)) == buf[0..32]
  {}

  lemma ViewHeaderAgain(buf: Bytes, v: View)
    requires |buf| >= 46 + |v.image|
    requires buf[32..36] == Pack(VIEW_HEADER + |v.image|, 4)
    requires buf[41..43] == Pack(v.width, 2) && buf[43..45] == Pack(v.height, 2)
    ensures ViewHeader(v, RestOf(buf, v)) == buf[32..46]
  {}

  /** What an accepting parse has established about the fields. */
  lemma ParsedFields(buf: Bytes)
    requires Parse(buf).Ok?
    ensures var v := Parse(buf).view;
            && |buf| >= 46 + |v.image| && buf[0..4] == MAGIC
            && buf[26] == v.depth && buf[27] == v.compression && 1 <= buf[16]
            && VIEW_HEADER + |v.image| == Unpack(buf[32..36])
            && v.width == Unpack(buf[41..43]) && v.height == Unpack(buf[43..45])
            && 1 <= v.width && 1 <= v.height && buf[46..46 + |v.image|] == v.image
  {}

  lemma FieldsPacked(buf: Bytes, v: View)
    requires |buf| >= 46 + |v.image|
    requires VIEW_HEADER + |v.image| == Unpack(buf[32..36])
    requires v.width == Unpack(buf[41..43]) && v.height == Unpack(buf[43..45])
    ensures buf[32..36] == Pack(VIEW_HEADER + |v.image|, 4)
    ensures buf[41..43] == Pack(v.width, 2) && buf[43..45] == Pack(v.height, 2)
    ensures v.width < 0x1_0000 && v.height < 0x1_0000 && VIEW_HEADER + |v.image| < 0x1_0000_0000
  {
    Powers();
    PackUnpack(buf[32..36]);
    PackUnpack(buf[41..43]);
    PackUnpack(buf[43..45]);
  }

  /** Every buffer the parser accepts is the encoding of what it returned; the image is a slice of the buffer. */
  lemma EncodeUndoesParse(buf: Bytes)
    requires Parse(buf).Ok?
    ensures var v := Parse(buf).view;
            && |buf| >= 46 + |v.image| && buf[46..46 + |v.image|] == v.image
            && Encodable(v, RestOf(buf, v)) && Encode(v, RestOf(buf, v)) == buf
  {
    var v := Parse(buf).view;
    ParsedFields(buf);
    FieldsPacked(buf, v);
    HeaderAgain(buf, v);
    ViewHeaderAgain(buf, v);
    assert buf == buf[0..32] + buf[32..46] + buf[46..46 + |v.image|] + buf[46 + |v.image|..];
  }

  /** A buffer is accepted exactly when it is the encoding of some view, with some trailing bytes. */
  lemma AcceptedExactly(buf: Bytes)
    ensures Parse(buf).Ok? <==> exists v, r :: Encodable(v, r) && Encode(v, r) == buf
  {
    if Parse(buf).Ok? { EncodeUndoesParse(buf); }
    if v, r :| Encodable(v, r) && Encode(v, r) == buf { ParseUndoesEncode(v, r); }
  }

  // ---------- the uncompressed image ----------

  datatype Decoded = Pixels(rows: seq<Bytes>) | Library(image: Bytes) | Refused(problem: Problem)

  /** _decode_inner: the compressed kinds go to the image library, which is not part of this model. */
  function Decode(v: View): Decoded {
    if v.compression in {2, 3, 4, 5} then Library(v.image)
    else if v.compression in {0, 1} then
      if v.depth != 8 then Refused(DepthUnsupported)
      else if |v.image| < v.width * v.height then Refused(ImageTooShort)
      else Pixels(Rows(v.image[..v.width * v.height], v.width, v.height))
    else Refused(CompressionUnsupported)
  }

  /** The kinds 2 to 5 go to the library as they are, 0 and 1 are raw, and no other kind is shown. */
  lemma KindsExactly(v: View)
    ensures Decode(v).Library? <==> 2 <= v.compression <= 5
    ensures Decode(v).Library? ==> Decode(v).image == v.image
    ensures Decode(v) == Refused(CompressionUnsupported) <==> 5 < v.compression
    ensures Decode(v) == Refused(DepthUnsupported) <==> v.compression < 2 && v.depth != 8
    ensures Decode(v) == Refused(ImageTooShort) <==>
            v.compression < 2 && v.depth == 8 && |v.image| < v.width * v.height
  {}

  lemma LastRow(width: nat, height: nat)
    requires height > 0
    ensures width * height == width * (height - 1) + width
  {}

  lemma {:induction false} OffsetInside(width: nat, height: nat, x: nat, y: nat)
    requires x < width && y < height
    ensures width * y + x < width * height
    decreases height
  {
    LastRow(width, height);
    if y < height - 1 { OffsetInside(width, height - 1, x, y); }
  }

  /** Row by row, as the image library lays out a raw greyscale buffer. */
  function Rows(pixels: Bytes, width: nat, height: nat): (rows: seq<Bytes>)
    requires |pixels| == width * height
    ensures |rows| == height && forall y :: 0 <= y < height ==> |rows[y]| == width
    decreases height
  {
    if height == 0 then []
    else
      var before := width * (height - 1);
      LastRow(width, height);
      Rows(pixels[..before], width, height - 1) + [pixels[before..]]
  }

  lemma {:induction false} PixelAt(pixels: Bytes, width: nat, height: nat, x: nat, y: nat, offset: nat)
    requires |pixels| == width * height && x < width && y < height && offset == width * y + x
    ensures offset < |pixels| && Rows(pixels, width, height)[y][x] == pixels[offset]
    decreases height
  {
    var before := width * (height - 1);
    LastRow(width, height);
    OffsetInside(width, height, x, y);
    if y < height - 1 {
      OffsetInside(width, height - 1, x, y);
      PixelAt(pixels[..before], width, height - 1, x, y, offset);
    }
  }

  lemma DecodeShows(v: View, x: nat, y: nat, offset: nat)
    requires v.compression in {0, 1} && x < v.width && y < v.height && offset == v.width * y + x
    ensures Decode(v).Refused? <==> v.depth != 8 || |v.image| < v.width * v.height
    ensures Decode(v).Pixels? || Decode(v).Refused?
    ensures Decode(v).Pixels? ==>
              && |Decode(v).rows| == v.height && |Decode(v).rows[y]| == v.width
              && offset < |v.image| && Decode(v).rows[y][x] == v.image[offset]
  {
    if Decode(v).Pixels? { PixelAt(v.image[..v.width * v.height], v.width, v.height, x, y, offset); }
  }

  /**
   A record accepted and uncompressed shows exactly width by height pixels, each read from the record itself,
   row after row from offset 46; it is refused exactly when its depth is not 8 or its view is too short.
   */
  lemma PreviewOfUncompressed(buf: Bytes, x: nat, y: nat, offset: nat)
    requires Parse(buf).Ok? && Parse(buf).view.compression in {0, 1}
    requires x < Parse(buf).view.width && y < Parse(buf).view.height && offset == Parse(buf).view.width * y + x
    ensures var v, d := Parse(buf).view, Decode(Parse(buf).view);
            && (d.Refused? <==> v.depth != 8 || |v.image| < v.width * v.height)
            && (d.Pixels? ==>
                  && |d.rows| == v.height && |d.rows[y]| == v.width
                  && 46 + offset < |buf| && d.rows[y][x] == buf[46 + offset])
  {
    var v := Parse(buf).view;
    DecodeShows(v, x, y, offset);
    EncodeUndoesParse(buf);
    if Decode(v).Pixels? { SliceAt(buf, v.image, offset); }
  }

  lemma SliceAt(buf: Bytes, image: Bytes, i: nat)
    requires |buf| >= 46 + |image| && buf[46..46 + |image|] == image && i < |image|
    ensures image[i] == buf[46 + i]
  {}
}
