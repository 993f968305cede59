// The converter from the scanner's run-length ("RLENGTH") page data to a
// multi-page little-endian TIFF file: the PackBits decoder (TIFF 6.0,
// section 9), the 12-byte IFD entry packer (TIFF 6.0, section 2) and the
// page writer with its running stream offset.

module RleToTiff {
  import opened Bytes

  // ---------------------------------------------------------------------
  // PackBits decoding

  /** Python's slice data[a:b] for a <= b: clamped to the bytes that exist. */
  function Slice(data: seq<byte>, a: nat, b: nat): (r: seq<byte>)
    requires a <= b
    ensures |r| == Min(b, |data|) - Min(a, |data|)
  {
    data[Min(a, |data|)..Min(b, |data|)]
  }

  /** Python's `s * k`: k copies of s, one after the other. */
  function Replicate(s: seq<byte>, k: nat): (r: seq<byte>)
  {
    if k == 0 then [] else Replicate(s, k - 1) + s
  }

  /** k copies of a one-byte string are k times that byte; k copies of the
      empty string are empty. */
  lemma {:induction false} ReplicateSingle(s: seq<byte>, k: nat)
    requires |s| <= 1
    ensures |s| == 0 ==> Replicate(s, k) == []
    ensures |s| == 1 ==> Replicate(s, k) == seq(k, _ => s[0])
  {
    if k > 0 {
      ReplicateSingle(s, k - 1);
    }
  }

  /** The bytes one run yields when its control byte stands at i: nothing
      for 0x80; for v above 0x80 the next byte, 0x101 - v times; for v below
      0x80 the next v + 1 bytes. A run cut short by the end of the data
      keeps what is there. */
  function Piece(data: seq<byte>, i: nat): seq<byte>
    requires i < |data|
  {
    if data[i] == 0x80 then []
    else if data[i] > 0x80 then
      (if i + 1 < |data| then seq(0x101 - data[i], _ => data[i + 1]) else [])
    else data[i + 1..Min(i + data[i] + 2, |data|)]
  }

  /** Where the run whose control byte stands at i ends: after the control
      byte, after the byte repeated, or after the v + 1 literal bytes. */
  function Next(data: seq<byte>, i: nat): (j: nat)
    requires i < |data|
    ensures i < j
  {
    if data[i] == 0x80 then i + 1
    else if data[i] > 0x80 then i + 2
    else i + data[i] + 2
  }

  /** What rle_decode appends from cursor i on, one run at a time. No
      input byte yields more than 64 output bytes: a two-byte repeat run
      is the densest case. */
  function DecodeFrom(data: seq<byte>, i: nat): (r: seq<byte>)
    ensures i >= |data| ==> r == []
    ensures i < |data| ==> |r| <= 64 * (|data| - i)
    decreases |data| - i
  {
    if i >= |data| then []
    else
      PieceBound(data, i);
      Piece(data, i) + DecodeFrom(data, Next(data, i))
  }

  /** The PackBits decoding of a whole input: at most 64 bytes per input
      byte. */
  function Decode(data: seq<byte>): (r: seq<byte>)
    ensures |r| <= 64 * |data|
  {
    DecodeFrom(data, 0)
  }

  /** One run read: what has been output so far plus what decodes from the
      run's end is still the whole decoding. */
  lemma DecodeStep(data: seq<byte>, start: nat, before: seq<byte>, i: nat)
    requires start < |data| && i == Next(data, start)
    requires before + DecodeFrom(data, start) == Decode(data)
    ensures (before + Piece(data, start)) + DecodeFrom(data, i) == Decode(data)
  {
    var piece, rest := Piece(data, start), DecodeFrom(data, i);
    assert DecodeFrom(data, start) == piece + rest;
    AppendAssoc(before, piece, rest);
  }

  lemma AppendAssoc(a: seq<byte>, b: seq<byte>, c: seq<byte>)
    ensures (a + b) + c == a + (b + c)
  {
  }

  // The three kinds of run, each relating the state after one iteration of
  // rle_decode's loop to the state before it (cursor at `start`, output
  // `before`).

  /** The 0x80 control byte is skipped. */
  lemma SkipStep(data: seq<byte>, start: nat, before: seq<byte>, i: nat)
    requires start < |data| && data[start] == 0x80 && i == start + 1
    requires before + DecodeFrom(data, start) == Decode(data)
    ensures before + DecodeFrom(data, i) == Decode(data)
  {
    assert Next(data, start) == i;
    DecodeStep(data, start, before, i);
    assert Piece(data, start) == [];
    assert before + Piece(data, start) == before;
  }

  /** A repeat run, as rle_decode's slicing and repetition compute it. */
  lemma RepeatStep(data: seq<byte>, start: nat, before: seq<byte>, output: seq<byte>, i: nat)
    requires start < |data| && data[start] > 0x80 && i == start + 2
    requires before + DecodeFrom(data, start) == Decode(data)
    requires output == before + Replicate(Slice(data, start + 1, start + 2), 0x101 - data[start])
    ensures output + DecodeFrom(data, i) == Decode(data)
  {
    assert Next(data, start) == i;
    DecodeStep(data, start, before, i);
    ReplicateSingle(Slice(data, start + 1, start + 2), 0x101 - data[start]);
    assert Piece(data, start) == Replicate(Slice(data, start + 1, start + 2), 0x101 - data[start]);
  }

  /** A literal run, as rle_decode's slicing computes it. */
  lemma LiteralStep(data: seq<byte>, start: nat, before: seq<byte>, output: seq<byte>, i: nat)
    requires start < |data| && data[start] < 0x80 && i == start + data[start] + 2
    requires before + DecodeFrom(data, start) == Decode(data)
    requires output == before + Slice(data, start + 1, start + data[start] + 2)
    ensures output + DecodeFrom(data, i) == Decode(data)
  {
    assert Next(data, start) == i;
    DecodeStep(data, start, before, i);
    assert Piece(data, start) == Slice(data, start + 1, start + data[start] + 2);
  }

  /** rle_decode: the cursor i walks the input one run per iteration and the
      output grows by what that run yields. */
  method RleDecode(data: seq<byte>) returns (output: seq<byte>)
    ensures output == Decode(data)
  {
    var i := 0;
    output := [];
    while i < |data|
      invariant output + DecodeFrom(data, i) == Decode(data)
      decreases |data| - i
    {
      var val := data[i];
      ghost var start, before := i, output;
      i := i + 1;
      if val == 0x80 {
        SkipStep(data, start, before, i);
        continue;
      }
      if val > 0x80 {
        var repeats := 0x101 - val;
        output := output + Replicate(Slice(data, i, i + 1), repeats);
        i := i + 1;
        RepeatStep(data, start, before, output, i);
      } else {
        output := output + Slice(data, i, i + val + 1);
        i := i + val + 1;
        LiteralStep(data, start, before, output, i);
      }
    }
  }

  /** A run reads the same whatever stands before it. */
  lemma RunShift(p: seq<byte>, s: seq<byte>, j: nat)
    requires j < |s|
    ensures Piece(p + s, |p| + j) == Piece(s, j)
    ensures Next(p + s, |p| + j) == |p| + Next(s, j)
  {
    var t, k := p + s, |p| + j;
    assert t[k] == s[j];
    assert t[k + 1..Min(k + 2, |t|)] == s[j + 1..Min(j + 2, |s|)];
    assert t[k + 1..Min(k + s[j] + 2, |t|)] == s[j + 1..Min(j + s[j] + 2, |s|)];
  }

  /** Decoding does not look behind the cursor: a prefix p changes nothing. */
  lemma {:induction false} DecodeFromShift(p: seq<byte>, s: seq<byte>, j: nat)
    ensures DecodeFrom(p + s, |p| + j) == DecodeFrom(s, j)
    decreases |s| - j
  {
    if j < |s| {
      RunShift(p, s, j);
      DecodeFromShift(p, s, Next(s, j));
      assert DecodeFrom(p + s, |p| + j) ==
        Piece(p + s, |p| + j) + DecodeFrom(p + s, Next(p + s, |p| + j));
    } else {
      assert |p| + j >= |p + s|;
    }
  }

  lemma DecodeEmpty()
    ensures Decode([]) == []
  {
  }

  /** A 0x80 control byte yields nothing and consumes only itself. */
  lemma DecodeNoOp(rest: seq<byte>)
    ensures Decode([0x80] + rest) == Decode(rest)
  {
    DecodeFromShift([0x80], rest, 0);
  }

  /** A control byte v above 0x80 followed by b yields b, 0x101 - v times
      (2 to 128 times), and consumes both bytes. */
  lemma DecodeRepeat(v: byte, b: byte, rest: seq<byte>)
    requires v > 0x80
    ensures 2 <= 0x101 - v <= 128
    ensures Decode([v, b] + rest) == seq(0x101 - v, _ => b) + Decode(rest)
  {
    var s := [v, b] + rest;
    assert s[0] == v && s[1] == b;
    DecodeFromShift([v, b], rest, 0);
  }

  /** A repeat control byte with nothing after it yields nothing. */
  lemma DecodeRepeatAtEnd(v: byte)
    requires v > 0x80
    ensures Decode([v]) == []
  {
    assert DecodeFrom([v], 0) == Piece([v], 0) + DecodeFrom([v], 2);
  }

  /** A control byte v below 0x80 copies the v + 1 bytes after it verbatim. */
  lemma DecodeLiteral(v: byte, lit: seq<byte>, rest: seq<byte>)
    requires v < 0x80 && |lit| == v + 1
    ensures Decode([v] + lit + rest) == lit + Decode(rest)
  {
    var s := [v] + lit + rest;
    assert s[0] == v && s[1..v + 2] == lit;
    DecodeFromShift([v] + lit, rest, 0);
  }

  /** A literal run cut short by the end of the data copies what is left. */
  lemma DecodeLiteralAtEnd(v: byte, lit: seq<byte>)
    requires v < 0x80 && |lit| <= v
    ensures Decode([v] + lit) == lit
  {
    var s := [v] + lit;
    assert s[0] == v && s[1..|s|] == lit;
    assert DecodeFrom(s, 0) == Piece(s, 0) + DecodeFrom(s, v + 2);
  }

  /** A run yields at most 64 bytes per input byte it consumes. */
  lemma PieceBound(data: seq<byte>, i: nat)
    requires i < |data|
    ensures |Piece(data, i)| <= 64 * (Min(Next(data, i), |data|) - i)
  {
  }


  // The encoder side, as a partner of the decoder: a PackBits stream is a
  // sequence of runs, and decoding a well-formed stream expands each run.

  datatype Run = Literal(bytes: seq<byte>) | Repeat(count: nat, value: byte) | NoOp

  predicate ValidRun(r: Run)
  {
    match r
    case Literal(b) => 1 <= |b| <= 128
    case Repeat(c, _) => 2 <= c <= 128
    case NoOp => true
  }

  function EncodeRun(r: Run): seq<byte>
    requires ValidRun(r)
  {
    match r
    case Literal(b) => [|b| - 1] + b
    case Repeat(c, v) => [0x101 - c, v]
    case NoOp => [0x80]
  }

  function Expand(r: Run): seq<byte>
  {
    match r
    case Literal(b) => b
    case Repeat(c, v) => seq(c, _ => v)
    case NoOp => []
  }

  function EncodeRuns(rs: seq<Run>): seq<byte>
    requires forall k :: 0 <= k < |rs| ==> ValidRun(rs[k])
  {
    if rs == [] then [] else EncodeRun(rs[0]) + EncodeRuns(rs[1..])
  }

  function ExpandRuns(rs: seq<Run>): seq<byte>
  {
    if rs == [] then [] else Expand(rs[0]) + ExpandRuns(rs[1..])
  }

  lemma DecodeRun(r: Run, rest: seq<byte>)
    requires ValidRun(r)
    ensures Decode(EncodeRun(r) + rest) == Expand(r) + Decode(rest)
  {
    match r
    case Literal(b) =>
      assert EncodeRun(r) + rest == [|b| - 1] + b + rest;
      DecodeLiteral(|b| - 1, b, rest);
    case Repeat(c, v) =>
      assert EncodeRun(r) + rest == [0x101 - c, v] + rest;
      DecodeRepeat(0x101 - c, v, rest);
    case NoOp =>
      DecodeNoOp(rest);
  }

  /** Decoding a stream of well-formed runs yields the runs' expansions in
      order; in particular a stream of literal runs decodes to the
      concatenated literal bytes. */
  lemma {:induction false} DecodeEncodeRuns(rs: seq<Run>)
    requires forall k :: 0 <= k < |rs| ==> ValidRun(rs[k])
    ensures Decode(EncodeRuns(rs)) == ExpandRuns(rs)
  {
    if rs != [] {
      DecodeRun(rs[0], EncodeRuns(rs[1..]));
      DecodeEncodeRuns(rs[1..]);
    }
  }

  lemma DecodeExamples()
    ensures Decode([0xFE, 0xAA]) == [0xAA, 0xAA, 0xAA]
    ensures Decode([0x05, 1, 2, 3, 4, 5, 6]) == [1, 2, 3, 4, 5, 6]
    ensures Decode([0x80]) == []
  {
    DecodeRepeat(0xFE, 0xAA, []);
    assert [0xFE, 0xAA] + [] == [0xFE, 0xAA];
    DecodeLiteral(0x05, [1, 2, 3, 4, 5, 6], []);
    assert [0x05] + [1, 2, 3, 4, 5, 6] + [] == [0x05, 1, 2, 3, 4, 5, 6];
    DecodeNoOp([]);
    assert [0x80] + [] == [0x80];
  }

  // ---------------------------------------------------------------------
  // IFD entries

  /** The exceptions the Python code can raise. */
  datatype PyError = AssertionError | KeyError | StructError | ZeroDivisionError

  const SHORT: nat := 3
  const INT: nat := 4

  /** TIFF_TAGS[name]: the id of a tag name, the inverse of the EXIF_TAGS
      table. The 97 names are pairwise distinct, so the inverse is a plain
      lookup; it is written as a dispatch on the name's length and first
      letter, then the whole name, and holds the same 97 pairs. */
  function TagId(name: string): Option<int>
  {
    match |name|
    case 4 =>
      (match name[0]
      case 'M' =>
        if name == "Make" then Some(0x10F) else None
      case 'O' =>
        if name == "OECF" then Some(0x8828) else None
      case _ => None)
    case 5 =>
      (match name[0]
      case 'F' =>
        if name == "Flash" then Some(0x9209) else None
      case 'M' =>
        if name == "Model" then Some(0x110) else None
      case _ => None)
    case 6 =>
      (match name[0]
      case 'A' =>
        if name == "Artist" then Some(0x13B) else None
      case _ => None)
    case 7 =>
      (match name[0]
      case 'F' =>
        if name == "FNumber" then Some(0x829D) else None
      case _ => None)
    case 8 =>
      (match name[0]
      case 'C' =>
        if name == "Contrast" then Some(0xA408) else None
      case 'D' =>
        if name == "DateTime" then Some(0x132) else None
      case 'I' =>
        if name == "IPTC/NAA" then Some(0x83BB) else None
      case 'J' =>
        if name == "JPEGProc" then Some(0x200) else None
      case 'S' =>
        if name == "Software" then Some(0x131) else None
      case _ => None)
    case 9 =>
      (match name[0]
      case 'C' =>
        if name == "Copyright" then Some(0x8298) else None
      case 'F' =>
        if name == "FillOrder" then Some(0x10A) else None
      case 'M' =>
        if name == "MakerNote" then Some(0x927C) else None
      case 'S' =>
        if name == "SceneType" then Some(0xA301) else if name == "Sharpness" then Some(0xA40A) else None
      case _ => None)
    case 10 =>
      (match name[0]
      case 'C' =>
        if name == "ColorSpace" then Some(0xA001) else if name == "CFAPattern" then Some(0xA302) else None
      case 'F' =>
        if name == "FileSource" then Some(0xA300) else None
      case 'I' =>
        if name == "ImageWidth" then Some(0x100) else None
      case 'P' =>
        if name == "PageNumber" then Some(0x129) else None
      case 'S' =>
        if name == "SubSecTime" then Some(0x9290) else if name == "Saturation" then Some(0xA409) else None
      case 'W' =>
        if name == "WhitePoint" then Some(0x13E) else None
      case _ => None)
    case 11 =>
      (match name[0]
      case 'C' =>
        if name == "Compression" then Some(0x103) else None
      case 'E' =>
        if name == "ExifVersion" then Some(0x9000) else None
      case 'F' =>
        if name == "FocalLength" then Some(0x920A) else if name == "FlashEnergy" then Some(0xA20B) else None
      case 'G' =>
        if name == "GainControl" then Some(0xA407) else None
      case 'I' =>
        if name == "ImageLength" then Some(0x101) else None
      case 'L' =>
        if name == "LightSource" then Some(0x9208) else None
      case 'O' =>
        if name == "Orientation" then Some(0x112) else None
      case 'S' =>
        if name == "SubjectArea" then Some(0x9214) else None
      case 'U' =>
        if name == "UserComment" then Some(0x9286) else None
      case 'X' =>
        if name == "XResolution" then Some(0x11A) else None
      case 'Y' =>
        if name == "YResolution" then Some(0x11B) else None
      case _ => None)
    case 12 =>
      (match name[0]
      case 'B' =>
        if name == "BatteryLevel" then Some(0x828F) else None
      case 'D' =>
        if name == "DocumentName" then Some(0x10D) else None
      case 'E' =>
        if name == "ExposureTime" then Some(0x829A) else if name == "ExposureMode" then Some(0xA402) else None
      case 'M' =>
        if name == "MeteringMode" then Some(0x9207) else None
      case 'R' =>
        if name == "RowsPerStrip" then Some(0x116) else None
      case 'S' =>
        if name == "StripOffsets" then Some(0x111) else None
      case 'W' =>
        if name == "WhiteBalance" then Some(0xA403) else None
      case _ => None)
    case 13 =>
      (match name[0]
      case 'A' =>
        if name == "ApertureValue" then Some(0x9202) else None
      case 'B' =>
        if name == "BitsPerSample" then Some(0x102) else None
      case 'E' =>
        if name == "ExposureIndex" then Some(0xA215) else None
      case 'I' =>
        if name == "ImageUniqueID" then Some(0xA420) else None
      case 'S' =>
        if name == "SensingMethod" then Some(0xA217) else None
      case 'T' =>
        if name == "TransferRange" then Some(0x156) else None
      case _ => None)
    case 14 =>
      (match name[0]
      case 'C' =>
        if name == "CustomRendered" then Some(0xA401) else None
      case 'E' =>
        if name == "ExifIFDPointer" then Some(0x8769) else None
      case 'R' =>
        if name == "ResolutionUnit" then Some(0x128) else None
      case _ => None)
    case 15 =>
      (match name[0]
      case 'B' =>
        if name == "BrightnessValue" then Some(0x9203) else None
      case 'E' =>
        if name == "ExposureProgram" then Some(0x8822) else None
      case 'F' =>
        if name == "FlashPixVersion" then Some(0xA000) else None
      case 'I' =>
        if name == "ISOSpeedRatings" then Some(0x8827) else None
      case 'P' =>
        if name == "PixelXDimension" then Some(0xA002) else if name == "PixelYDimension" then Some(0xA003) else None
      case 'S' =>
        if name == "SamplesPerPixel" then Some(0x115) else if name == "StripByteCounts" then Some(0x117) else if name == "SubjectDistance" then Some(0x9206) else if name == "SubjectLocation" then Some(0xA214) else None
      case _ => None)
    case 16 =>
      (match name[0]
      case 'D' =>
        if name == "DateTimeOriginal" then Some(0x9003) else if name == "DigitalZoomRatio" then Some(0xA404) else None
      case 'I' =>
        if name == "ImageDescription" then Some(0x10E) else None
      case 'M' =>
        if name == "MaxApertureValue" then Some(0x9205) else None
      case 'R' =>
        if name == "RelatedSoundFile" then Some(0xA004) else None
      case 'S' =>
        if name == "SceneCaptureType" then Some(0xA406) else None
      case 'T' =>
        if name == "TransferFunction" then Some(0x12D) else None
      case 'Y' =>
        if name == "YCbCrSubSampling" then Some(0x212) else if name == "YCbCrPositioning" then Some(0x213) else None
      case _ => None)
    case 17 =>
      (match name[0]
      case 'D' =>
        if name == "DateTimeDigitized" then Some(0x9004) else None
      case 'E' =>
        if name == "ExposureBiasValue" then Some(0x9204) else None
      case 'G' =>
        if name == "GPSInfoIFDPointer" then Some(0x8825) else None
      case 'I' =>
        if name == "InterColorProfile" then Some(0x8773) else None
      case 'S' =>
        if name == "ShutterSpeedValue" then Some(0x9201) else None
      case 'Y' =>
        if name == "YCbCrCoefficients" then Some(0x211) else None
      case _ => None)
    case 18 =>
      (match name[0]
      case 'S' =>
        if name == "SubSecTimeOriginal" then Some(0x9291) else None
      case _ => None)
    case 19 =>
      (match name[0]
      case 'P' =>
        if name == "PlanarConfiguration" then Some(0x11C) else None
      case 'R' =>
        if name == "ReferenceBlackWhite" then Some(0x214) else None
      case 'S' =>
        if name == "SpectralSensitivity" then Some(0x8824) else if name == "SubSecTimeDigitized" then Some(0x9292) else None
      case _ => None)
    case 20 =>
      (match name[0]
      case 'S' =>
        if name == "SubjectDistanceRange" then Some(0xA40C) else None
      case _ => None)
    case 21 =>
      (match name[0]
      case 'F' =>
        if name == "FocalPlaneXResolution" then Some(0xA20E) else if name == "FocalPlaneYResolution" then Some(0xA20F) else if name == "FocalLengthIn35mmFilm" then Some(0xA405) else None
      case 'J' =>
        if name == "JPEGInterchangeFormat" then Some(0x201) else None
      case 'P' =>
        if name == "PrimaryChromaticities" then Some(0x13F) else None
      case _ => None)
    case 22 =>
      (match name[0]
      case 'C' =>
        if name == "CompressedBitsPerPixel" then Some(0x9102) else None
      case _ => None)
    case 23 =>
      (match name[0]
      case 'C' =>
        if name == "ComponentsConfiguration" then Some(0x9101) else None
      case _ => None)
    case 24 =>
      (match name[0]
      case 'D' =>
        if name == "DeviceSettingDescription" then Some(0xA40B) else None
      case 'F' =>
        if name == "FocalPlaneResolutionUnit" then Some(0xA210) else None
      case 'S' =>
        if name == "SpatialFrequencyResponse" then Some(0xA20C) else None
      case _ => None)
    case 25 =>
      (match name[0]
      case 'P' =>
        if name == "PhotometricInterpretation" then Some(0x106) else None
      case _ => None)
    case 26 =>
      (match name[0]
      case 'I' =>
        if name == "InteroperabilityIFDPointer" then Some(0xA005) else None
      case _ => None)
    case 27 =>
      (match name[0]
      case 'J' =>
        if name == "JPEGInterchangeFormatLength" then Some(0x202) else None
      case _ => None)
    case _ => None
  }

  /** Whether struct.pack accepts the values: one as 'I', or up to two as 'H'. */
  predicate FitsPayload(values: seq<int>)
  {
    match |values|
    case 0 => true
    case 1 => 0 <= values[0] < 0x1_0000_0000
    case 2 => 0 <= values[0] < 0x1_0000 && 0 <= values[1] < 0x1_0000
    case _ => false
  }

  function Payload(values: seq<int>): (r: seq<byte>)
    requires |values| <= 2 && FitsPayload(values)
    ensures |r| == if |values| == 0 then 0 else 4
  {
    if |values| == 0 then []
    else if |values| == 1 then Le(values[0], 4)
    else Le(values[0], 2) + Le(values[1], 2)
  }

  /** Whether struct.pack('<HHI…') accepts the header fields: tag id and
      datatype as 'H'. */
  predicate FitsHeader(id: int, dataType: int)
  {
    0 <= id < 0x1_0000 && 0 <= dataType < 0x1_0000
  }

  /** The packed entry: tag id (2 bytes), datatype (2), count (4), then the
      values in the 4-byte slot, all little-endian. */
  function Pack(id: int, dataType: int, values: seq<int>): (r: seq<byte>)
    requires |values| <= 2 && FitsHeader(id, dataType) && FitsPayload(values)
    ensures |r| == if |values| == 0 then 8 else 12
  {
    Le(id, 2) + Le(dataType, 2) + Le(|values|, 4) + Payload(values)
  }

  /** tiff_tag: the IFD entry for the named tag. The assertion on the number
      of values comes first, then the table lookup, then struct.pack's range
      checks. */
  function TiffTag(name: string, dataType: int, values: seq<int>): (r: Result<seq<byte>, PyError>)
    ensures |values| > 2 ==> r == Failure(AssertionError)
    ensures |values| <= 2 && TagId(name).None? ==> r == Failure(KeyError)
    ensures r.Success? <==>
      |values| <= 2 && TagId(name).Some? && FitsHeader(TagId(name).value, dataType) && FitsPayload(values)
    ensures r.Success? ==> r.value == Pack(TagId(name).value, dataType, values)
  {
    if |values| > 2 then Failure(AssertionError)
    else if TagId(name).None? then Failure(KeyError)
    else if !(FitsHeader(TagId(name).value, dataType) && FitsPayload(values)) then Failure(StructError)
    else Success(Pack(TagId(name).value, dataType, values))
  }

  /** An IFD entry as a TIFF reader sees it. */
  datatype Entry = Entry(tag: nat, dataType: nat, values: seq<int>)

  /** The reader's side: a SHORT entry holds one or two 2-byte values in its
      slot, a LONG entry one 4-byte value. */
  function ParseEntry(e: seq<byte>): Option<Entry>
  {
    if |e| != 12 then None
    else
      var tag, dataType, count := FromLe(e[..2]), FromLe(e[2..4]), FromLe(e[4..8]);
      if dataType == SHORT && count == 1 then
        Some(Entry(tag, dataType, [FromLe(e[8..10])]))
      else if dataType == SHORT && count == 2 then
        Some(Entry(tag, dataType, [FromLe(e[8..10]), FromLe(e[10..12])]))
      else if dataType == INT && count == 1 then
        Some(Entry(tag, dataType, [FromLe(e[8..12])]))
      else None
  }

  lemma Le4OfShort(v: nat)
    requires v < 0x1_0000
    ensures Le(v, 4) == Le(v, 2) + [0, 0]
  {
    assert Le(v / 256, 3) == [v / 256 % 256] + Le(v / 65536, 2);
    assert v / 65536 == 0;
    assert Le(0, 2) == [0, 0];
  }

  /** The header fields of a packed entry read back. */
  lemma PackHeader(id: int, dataType: int, values: seq<int>)
    requires 1 <= |values| <= 2 && FitsHeader(id, dataType) && FitsPayload(values)
    ensures var e := Pack(id, dataType, values);
      FromLe(e[..2]) == id && FromLe(e[2..4]) == dataType && FromLe(e[4..8]) == |values|
  {
    var e := Pack(id, dataType, values);
    assert e[..2] == Le(id, 2) && e[2..4] == Le(dataType, 2) && e[4..8] == Le(|values|, 4);
    LeRoundTrip(id, 2);
    LeRoundTrip(dataType, 2);
    LeRoundTrip(|values|, 4);
  }

  /** The value slot of a packed entry read back: one value as a LONG, and
      one or two values below 0x10000 as SHORTs. */
  lemma PackSlot(id: int, dataType: int, values: seq<int>)
    requires 1 <= |values| <= 2 && FitsHeader(id, dataType) && FitsPayload(values)
    ensures var e := Pack(id, dataType, values);
      (|values| == 1 ==> FromLe(e[8..12]) == values[0]) &&
      (|values| == 1 && values[0] < 0x1_0000 ==> FromLe(e[8..10]) == values[0]) &&
      (|values| == 2 ==> FromLe(e[8..10]) == values[0] && FromLe(e[10..12]) == values[1])
  {
    var e := Pack(id, dataType, values);
    if |values| == 1 {
      assert e[8..12] == Le(values[0], 4);
      LeRoundTrip(values[0], 4);
      if values[0] < 0x1_0000 {
        Le4OfShort(values[0]);
        assert e[8..10] == Le(values[0], 2);
        LeRoundTrip(values[0], 2);
      }
    } else {
      assert e[8..10] == Le(values[0], 2) && e[10..12] == Le(values[1], 2);
      LeRoundTrip(values[0], 2);
      LeRoundTrip(values[1], 2);
    }
  }

  /** What struct.pack wrote, a reader reads back: the tag id, the datatype
      and the values; a single value packed as 'I' reads back as a SHORT too
      when it is below 0x10000. */
  lemma PackRoundTrip(id: int, dataType: int, values: seq<int>)
    requires 1 <= |values| <= 2 && FitsHeader(id, dataType) && FitsPayload(values)
    requires dataType == INT ==> |values| == 1
    requires dataType == SHORT ==> forall k :: 0 <= k < |values| ==> values[k] < 0x1_0000
    requires dataType == SHORT || dataType == INT
    ensures ParseEntry(Pack(id, dataType, values)) == Some(Entry(id, dataType, values))
  {
    PackHeader(id, dataType, values);
    PackSlot(id, dataType, values);
    if |values| == 1 {
      assert values == [values[0]];
    } else {
      assert values == [values[0], values[1]];
    }
  }

  /** tiff_tag's entry reads back as the named tag with its datatype and values. */
  lemma TiffTagRoundTrip(name: string, dataType: int, values: seq<int>)
    requires TiffTag(name, dataType, values).Success?
    requires dataType == INT ==> |values| == 1
    requires dataType == SHORT ==> 1 <= |values| && forall k :: 0 <= k < |values| ==> values[k] < 0x1_0000
    requires dataType == SHORT || dataType == INT
    ensures ParseEntry(TiffTag(name, dataType, values).value) == Some(Entry(TagId(name).value, dataType, values))
  {
    PackRoundTrip(TagId(name).value, dataType, values);
  }

  lemma TiffTagTooManyValues(name: string, dataType: int, a: int, b: int, c: int)
    ensures TiffTag(name, dataType, [a, b, c]) == Failure(AssertionError)
  {
  }

  // ---------------------------------------------------------------------
  // Pages

  const Header: seq<byte> := [0x49, 0x49, 0x2a, 0x00]

  /** `int(width) & ~7`: width rounded down to a multiple of 8. */
  function RoundWidth(width: int): (w: int)
    ensures w % 8 == 0 && w <= width < w + 8
  {
    width - width % 8
  }

  function Concat(es: seq<seq<byte>>): seq<byte>
  {
    if es == [] then [] else es[0] + Concat(es[1..])
  }

  lemma {:induction false} ConcatLength(es: seq<seq<byte>>)
    requires forall j :: 0 <= j < |es| ==> |es[j]| == 12
    ensures |Concat(es)| == 12 * |es|
  {
    if es != [] {
      ConcatLength(es[1..]);
    }
  }

  /** Entry k of a list of 12-byte entries sits at byte 12 * k of their join. */
  lemma {:induction false} ConcatEntry(es: seq<seq<byte>>, k: nat)
    requires forall j :: 0 <= j < |es| ==> |es[j]| == 12
    requires k < |es|
    ensures |Concat(es)| == 12 * |es|
    ensures Concat(es)[12 * k .. 12 * k + 12] == es[k]
  {
    ConcatLength(es);
    if k > 0 {
      ConcatEntry(es[1..], k - 1);
      ConcatLength(es[1..]);
      assert Concat(es) == es[0] + Concat(es[1..]);
      assert Concat(es)[12 * k .. 12 * k + 12] == Concat(es[1..])[12 * (k - 1) .. 12 * (k - 1) + 12];
    }
  }

  /** The list `ifd` of addPage: twelve entries, built in order, the first
      exception winning; the height is computed right after the ImageWidth
      entry, so a zero width fails there. PageNumber is (pageIndex,
      pageCount): the module-level `i` and `len(filenames)` of the script,
      which equal `page` and `pages` only under its page loop. */
  function Ifd(offset: nat, data: seq<byte>, w: int, xdpi: int, ydpi: int,
               pageIndex: int, pageCount: int): (r: Result<seq<seq<byte>>, PyError>)
    ensures w == 0 ==> r == Failure(ZeroDivisionError)
    ensures r.Success? ==> |r.value| == 12 && forall j :: 0 <= j < 12 ==> |r.value[j]| == 12
  {
    var imageWidth :- TiffTag("ImageWidth", INT, [w]);
    if w == 0 then Failure(ZeroDivisionError)
    else
      var height := |data| * 8 / w;
      var imageLength :- TiffTag("ImageLength", INT, [height]);
      var bitsPerSample :- TiffTag("BitsPerSample", SHORT, [1]);
      var compression :- TiffTag("Compression", SHORT, [1]);
      var photometric :- TiffTag("PhotometricInterpretation", SHORT, [0]);
      var stripOffsets :- TiffTag("StripOffsets", INT, [offset + 4]);
      var samplesPerPixel :- TiffTag("SamplesPerPixel", SHORT, [1]);
      var rowsPerStrip :- TiffTag("RowsPerStrip", INT, [height]);
      var stripByteCounts :- TiffTag("StripByteCounts", INT, [|data|]);
      var xResolution :- TiffTag("XResolution", SHORT, [xdpi]);
      var yResolution :- TiffTag("YResolution", SHORT, [ydpi]);
      var pageNumber :- TiffTag("PageNumber", SHORT, [pageIndex, pageCount]);
      Success([imageWidth, imageLength, bitsPerSample, compression, photometric, stripOffsets,
               samplesPerPixel, rowsPerStrip, stripByteCounts, xResolution, yResolution, pageNumber])
  }

  /** The bytes addPage writes for one page when the stream offset is
      `offset`: the pointer to this page's IFD, the image data, the entry
      count and the entries. */
  function PageBytes(offset: nat, data: seq<byte>, width: int, xdpi: int, ydpi: int,
                     pageIndex: int, pageCount: int): (r: Result<seq<byte>, PyError>)
    ensures r.Success? ==> |r.value| == 4 + |data| + 2 + 12 * 12 && r.value[4 .. 4 + |data|] == data
  {
    var ifd :- Ifd(offset, data, RoundWidth(width), xdpi, ydpi, pageIndex, pageCount);
    var offsetIfd := offset + 4 + |data|;
    if offsetIfd >= 0x1_0000_0000 then Failure(StructError)
    else
      ConcatLength(ifd);
      var p := Le(offsetIfd, 4) + data + Le(|ifd|, 2) + Concat(ifd);
      assert p[4 .. 4 + |data|] == data;
      Success(p)
  }

  /** When addPage succeeds: every value it packs fits its field. */
  predicate PageFits(offset: nat, data: seq<byte>, width: int, xdpi: int, ydpi: int,
                     pageIndex: int, pageCount: int)
  {
    8 <= width && RoundWidth(width) < 0x1_0000_0000 &&
    offset + 4 + |data| < 0x1_0000_0000 &&
    0 <= xdpi < 0x1_0000_0000 && 0 <= ydpi < 0x1_0000_0000 &&
    0 <= pageIndex < 0x1_0000 && 0 <= pageCount < 0x1_0000
  }

  // The ids of the twelve tags addPage writes, one lookup per lemma.
  lemma IdImageWidth() ensures TagId("ImageWidth") == Some(0x100) {}
  lemma IdImageLength() ensures TagId("ImageLength") == Some(0x101) {}
  lemma IdBitsPerSample() ensures TagId("BitsPerSample") == Some(0x102) {}
  lemma IdCompression() ensures TagId("Compression") == Some(0x103) {}
  lemma IdPhotometricInterpretation() ensures TagId("PhotometricInterpretation") == Some(0x106) {}
  lemma IdStripOffsets() ensures TagId("StripOffsets") == Some(0x111) {}
  lemma IdSamplesPerPixel() ensures TagId("SamplesPerPixel") == Some(0x115) {}
  lemma IdRowsPerStrip() ensures TagId("RowsPerStrip") == Some(0x116) {}
  lemma IdStripByteCounts() ensures TagId("StripByteCounts") == Some(0x117) {}
  lemma IdXResolution() ensures TagId("XResolution") == Some(0x11A) {}
  lemma IdYResolution() ensures TagId("YResolution") == Some(0x11B) {}
  lemma IdPageNumber() ensures TagId("PageNumber") == Some(0x129) {}

  /** The twelve tag names addPage uses are in the table, with these ids. */
  lemma PageTagsKnown()
    ensures TagId("ImageWidth") == Some(0x100)
    ensures TagId("ImageLength") == Some(0x101)
    ensures TagId("BitsPerSample") == Some(0x102)
    ensures TagId("Compression") == Some(0x103)
    ensures TagId("PhotometricInterpretation") == Some(0x106)
    ensures TagId("StripOffsets") == Some(0x111)
    ensures TagId("SamplesPerPixel") == Some(0x115)
    ensures TagId("RowsPerStrip") == Some(0x116)
    ensures TagId("StripByteCounts") == Some(0x117)
    ensures TagId("XResolution") == Some(0x11A)
    ensures TagId("YResolution") == Some(0x11B)
    ensures TagId("PageNumber") == Some(0x129)
  {
    IdImageWidth();
    IdImageLength();
    IdBitsPerSample();
    IdCompression();
    IdPhotometricInterpretation();
    IdStripOffsets();
    IdSamplesPerPixel();
    IdRowsPerStrip();
    IdStripByteCounts();
    IdXResolution();
    IdYResolution();
    IdPageNumber();
  }

  /** The height never exceeds the data length once the width is 8 or more. */
  lemma HeightBound(n: nat, w: int)
    requires 8 <= w
    ensures 0 <= n * 8 / w <= n
  {
    assert n * 8 <= n * w;
  }

  /** A tag in the table packs exactly when its datatype and values fit,
      and then into Pack of the tag's id. */
  lemma FieldPacks(name: string, id: int, dataType: int, values: seq<int>)
    requires TagId(name) == Some(id) && 0 <= id < 0x1_0000 && |values| <= 2
    ensures TiffTag(name, dataType, values).Success? <==> 0 <= dataType < 0x1_0000 && FitsPayload(values)
    ensures TiffTag(name, dataType, values).Success? ==>
      TiffTag(name, dataType, values).value == Pack(id, dataType, values)
  {
  }

  /** The IFD packs exactly when every value fits: the width, the data's
      place and length fit 'I', the resolutions fit 'I' (a single value is
      packed as 'I' whatever its datatype) and the page numbers fit 'H'. */
  lemma IfdSucceeds(offset: nat, data: seq<byte>, w: int, xdpi: int, ydpi: int,
                    pageIndex: int, pageCount: int)
    requires 8 <= w
    ensures Ifd(offset, data, w, xdpi, ydpi, pageIndex, pageCount).Success? <==>
      (w < 0x1_0000_0000 && offset + 4 < 0x1_0000_0000 && |data| < 0x1_0000_0000 &&
       0 <= xdpi < 0x1_0000_0000 && 0 <= ydpi < 0x1_0000_0000 &&
       0 <= pageIndex < 0x1_0000 && 0 <= pageCount < 0x1_0000)
  {
    var h := |data| * 8 / w;
    HeightBound(|data|, w);
    IdImageWidth();
    FieldPacks("ImageWidth", 0x100, INT, [w]);
    IdImageLength();
    FieldPacks("ImageLength", 0x101, INT, [h]);
    IdBitsPerSample();
    FieldPacks("BitsPerSample", 0x102, SHORT, [1]);
    IdCompression();
    FieldPacks("Compression", 0x103, SHORT, [1]);
    IdPhotometricInterpretation();
    FieldPacks("PhotometricInterpretation", 0x106, SHORT, [0]);
    IdStripOffsets();
    FieldPacks("StripOffsets", 0x111, INT, [offset + 4]);
    IdSamplesPerPixel();
    FieldPacks("SamplesPerPixel", 0x115, SHORT, [1]);
    IdRowsPerStrip();
    FieldPacks("RowsPerStrip", 0x116, INT, [h]);
    IdStripByteCounts();
    FieldPacks("StripByteCounts", 0x117, INT, [|data|]);
    IdXResolution();
    FieldPacks("XResolution", 0x11A, SHORT, [xdpi]);
    IdYResolution();
    FieldPacks("YResolution", 0x11B, SHORT, [ydpi]);
    IdPageNumber();
    FieldPacks("PageNumber", 0x129, SHORT, [pageIndex, pageCount]);
  }

  /** A width rounded to zero fails when the height is computed; a negative
      one already fails in struct.pack for ImageWidth. */
  lemma IfdNarrow(offset: nat, data: seq<byte>, w: int, xdpi: int, ydpi: int,
                  pageIndex: int, pageCount: int)
    requires w <= 0
    ensures Ifd(offset, data, w, xdpi, ydpi, pageIndex, pageCount) ==
      if w == 0 then Failure(ZeroDivisionError) else Failure(StructError)
  {
    IdImageWidth();
    FieldPacks("ImageWidth", 0x100, INT, [w]);
  }

  /** addPage succeeds exactly when every value fits; a width below 8
      (rounded to 0) fails with ZeroDivisionError, a negative one in
      struct.pack. */
  lemma PageSucceeds(offset: nat, data: seq<byte>, width: int, xdpi: int, ydpi: int,
                     pageIndex: int, pageCount: int)
    ensures PageBytes(offset, data, width, xdpi, ydpi, pageIndex, pageCount).Success? <==>
      PageFits(offset, data, width, xdpi, ydpi, pageIndex, pageCount)
    ensures 0 <= width < 8 ==>
      PageBytes(offset, data, width, xdpi, ydpi, pageIndex, pageCount) == Failure(ZeroDivisionError)
    ensures width < 0 ==>
      PageBytes(offset, data, width, xdpi, ydpi, pageIndex, pageCount) == Failure(StructError)
  {
    var w := RoundWidth(width);
    if 8 <= width {
      IfdSucceeds(offset, data, w, xdpi, ydpi, pageIndex, pageCount);
    } else {
      IfdNarrow(offset, data, w, xdpi, ydpi, pageIndex, pageCount);
    }
  }

  /** The entries of a successful IFD: the twelve tags of addPage, in
      order, each packed with its id from the table. */
  lemma IfdEntries(offset: nat, data: seq<byte>, w: int, xdpi: int, ydpi: int,
                   pageIndex: int, pageCount: int, ifd: seq<seq<byte>>)
    requires Ifd(offset, data, w, xdpi, ydpi, pageIndex, pageCount) == Success(ifd)
    ensures w > 0 && FitsPayload([w]) && FitsPayload([|data| * 8 / w]) && FitsPayload([offset + 4])
    ensures FitsPayload([|data|]) && FitsPayload([xdpi]) && FitsPayload([ydpi])
    ensures FitsPayload([pageIndex, pageCount])
    ensures ifd == [
      Pack(0x100, INT, [w]), Pack(0x101, INT, [|data| * 8 / w]), Pack(0x102, SHORT, [1]),
      Pack(0x103, SHORT, [1]), Pack(0x106, SHORT, [0]), Pack(0x111, INT, [offset + 4]),
      Pack(0x115, SHORT, [1]), Pack(0x116, INT, [|data| * 8 / w]), Pack(0x117, INT, [|data|]),
      Pack(0x11A, SHORT, [xdpi]), Pack(0x11B, SHORT, [ydpi]), Pack(0x129, SHORT, [pageIndex, pageCount])]
  {
    PageTagsKnown();
  }

  /** Entry k of a page whose data is n bytes long: after the pointer, the
      data and the 2-byte count. */
  function EntryAt(p: seq<byte>, n: nat, k: nat): seq<byte>
    requires 6 + n + 12 * k + 12 <= |p|
  {
    p[6 + n + 12 * k .. 6 + n + 12 * k + 12]
  }

  /** The frame of a page: the pointer to its IFD, which lies right after
      the data; the data itself, where StripOffsets says (the page's own
      bytes start at `offset` in the stream); the count 12; then the entries,
      and nothing after the last one. */
  lemma PageLayout(offset: nat, data: seq<byte>, width: int, xdpi: int, ydpi: int,
                   pageIndex: int, pageCount: int, p: seq<byte>)
    requires PageBytes(offset, data, width, xdpi, ydpi, pageIndex, pageCount) == Success(p)
    ensures |p| == 4 + |data| + 2 + 12 * 12
    ensures FromLe(p[..4]) == offset + 4 + |data|
    ensures p[4 .. 4 + |data|] == data
    ensures FromLe(p[4 + |data| .. 6 + |data|]) == 12
  {
    var ifd := PageSplit(offset, data, width, xdpi, ydpi, pageIndex, pageCount, p);
    IfdEntries(offset, data, RoundWidth(width), xdpi, ydpi, pageIndex, pageCount, ifd);
    PageFrame(offset + 4 + |data|, data, ifd, p);
  }

  /** The entries of a page a reader reads back: the image size, the data's
      place and length and the page numbers. */
  lemma PageTags(offset: nat, data: seq<byte>, width: int, xdpi: int, ydpi: int,
                 pageIndex: int, pageCount: int, p: seq<byte>)
    requires PageBytes(offset, data, width, xdpi, ydpi, pageIndex, pageCount) == Success(p)
    ensures |p| == 6 + |data| + 12 * 12
    ensures ParseEntry(EntryAt(p, |data|, 0)) == Some(Entry(0x100, INT, [RoundWidth(width)]))
    ensures ParseEntry(EntryAt(p, |data|, 1)) == Some(Entry(0x101, INT, [|data| * 8 / RoundWidth(width)]))
    ensures ParseEntry(EntryAt(p, |data|, 5)) == Some(Entry(0x111, INT, [offset + 4]))
    ensures ParseEntry(EntryAt(p, |data|, 8)) == Some(Entry(0x117, INT, [|data|]))
    ensures ParseEntry(EntryAt(p, |data|, 11)) == Some(Entry(0x129, SHORT, [pageIndex, pageCount]))
  {
    var w := RoundWidth(width);
    var ifd := PageSplit(offset, data, width, xdpi, ydpi, pageIndex, pageCount, p);
    IfdEntries(offset, data, w, xdpi, ydpi, pageIndex, pageCount, ifd);
    IfdList(ifd, |data|, offset, w, xdpi, ydpi, pageIndex, pageCount);
    PageFrame(offset + 4 + |data|, data, ifd, p);
    IfdReadsSize(p, |data|, w, ifd);
    IfdReadsData(p, |data|, offset, pageIndex, pageCount, ifd);
  }

  /** The entries of the IFD one by one. */
  lemma IfdList(ifd: seq<seq<byte>>, n: nat, offset: nat, w: int, xdpi: int, ydpi: int,
                pageIndex: int, pageCount: int)
    requires w > 0 && FitsPayload([w]) && FitsPayload([n * 8 / w]) && FitsPayload([offset + 4])
    requires FitsPayload([n]) && FitsPayload([xdpi]) && FitsPayload([ydpi])
    requires FitsPayload([pageIndex, pageCount])
    requires ifd == [
      Pack(0x100, INT, [w]), Pack(0x101, INT, [n * 8 / w]), Pack(0x102, SHORT, [1]),
      Pack(0x103, SHORT, [1]), Pack(0x106, SHORT, [0]), Pack(0x111, INT, [offset + 4]),
      Pack(0x115, SHORT, [1]), Pack(0x116, INT, [n * 8 / w]), Pack(0x117, INT, [n]),
      Pack(0x11A, SHORT, [xdpi]), Pack(0x11B, SHORT, [ydpi]), Pack(0x129, SHORT, [pageIndex, pageCount])]
    ensures |ifd| == 12 && forall j :: 0 <= j < 12 ==> |ifd[j]| == 12
    ensures ifd[0] == Pack(0x100, INT, [w]) && ifd[1] == Pack(0x101, INT, [n * 8 / w])
    ensures ifd[5] == Pack(0x111, INT, [offset + 4]) && ifd[8] == Pack(0x117, INT, [n])
    ensures ifd[11] == Pack(0x129, SHORT, [pageIndex, pageCount])
  {
    assert |ifd[0]| == 12 && |ifd[1]| == 12 && |ifd[2]| == 12 && |ifd[3]| == 12;
    assert |ifd[4]| == 12 && |ifd[5]| == 12 && |ifd[6]| == 12 && |ifd[7]| == 12;
    assert |ifd[8]| == 12 && |ifd[9]| == 12 && |ifd[10]| == 12 && |ifd[11]| == 12;
    TwelveEntries(ifd);
  }

  lemma TwelveEntries(ifd: seq<seq<byte>>)
    requires |ifd| == 12
    requires |ifd[0]| == 12 && |ifd[1]| == 12 && |ifd[2]| == 12 && |ifd[3]| == 12
    requires |ifd[4]| == 12 && |ifd[5]| == 12 && |ifd[6]| == 12 && |ifd[7]| == 12
    requires |ifd[8]| == 12 && |ifd[9]| == 12 && |ifd[10]| == 12 && |ifd[11]| == 12
    ensures forall j :: 0 <= j < 12 ==> |ifd[j]| == 12
  {
    forall j | 0 <= j < 12
      ensures |ifd[j]| == 12
    {
      if j < 4 {
        assert j == 0 || j == 1 || j == 2 || j == 3;
      } else if j < 8 {
        assert j == 4 || j == 5 || j == 6 || j == 7;
      } else {
        assert j == 8 || j == 9 || j == 10 || j == 11;
      }
    }
  }

  /** The image size entries read back. */
  lemma IfdReadsSize(p: seq<byte>, n: nat, w: int, ifd: seq<seq<byte>>)
    requires |p| >= 6 + n && p[6 + n ..] == Concat(ifd)
    requires w > 0 && FitsPayload([w]) && FitsPayload([n * 8 / w])
    requires |ifd| == 12 && forall j :: 0 <= j < 12 ==> |ifd[j]| == 12
    requires ifd[0] == Pack(0x100, INT, [w]) && ifd[1] == Pack(0x101, INT, [n * 8 / w])
    ensures |p| == 6 + n + 12 * 12
    ensures ParseEntry(EntryAt(p, n, 0)) == Some(Entry(0x100, INT, [w]))
    ensures ParseEntry(EntryAt(p, n, 1)) == Some(Entry(0x101, INT, [n * 8 / w]))
  {
    ConcatLength(ifd);
    EntryReads(p, n, ifd, 0, 0x100, INT, [w]);
    EntryReads(p, n, ifd, 1, 0x101, INT, [n * 8 / w]);
  }

  /** The entries locating the data and numbering the page read back. */
  lemma IfdReadsData(p: seq<byte>, n: nat, offset: nat, pageIndex: int, pageCount: int, ifd: seq<seq<byte>>)
    requires |p| == 6 + n + 12 * 12 && p[6 + n ..] == Concat(ifd)
    requires FitsPayload([offset + 4]) && FitsPayload([n]) && FitsPayload([pageIndex, pageCount])
    requires |ifd| == 12 && forall j :: 0 <= j < 12 ==> |ifd[j]| == 12
    requires ifd[5] == Pack(0x111, INT, [offset + 4]) && ifd[8] == Pack(0x117, INT, [n])
    requires ifd[11] == Pack(0x129, SHORT, [pageIndex, pageCount])
    ensures ParseEntry(EntryAt(p, n, 5)) == Some(Entry(0x111, INT, [offset + 4]))
    ensures ParseEntry(EntryAt(p, n, 8)) == Some(Entry(0x117, INT, [n]))
    ensures ParseEntry(EntryAt(p, n, 11)) == Some(Entry(0x129, SHORT, [pageIndex, pageCount]))
  {
    EntryReads(p, n, ifd, 5, 0x111, INT, [offset + 4]);
    EntryReads(p, n, ifd, 8, 0x117, INT, [n]);
    EntryReads(p, n, ifd, 11, 0x129, SHORT, [pageIndex, pageCount]);
  }

  /** The pointer, the data and the count of a page read back. */
  lemma PageFrame(ifdPos: nat, data: seq<byte>, ifd: seq<seq<byte>>, p: seq<byte>)
    requires ifdPos < 0x1_0000_0000 && |ifd| == 12
    requires forall j :: 0 <= j < 12 ==> |ifd[j]| == 12
    requires p == Le(ifdPos, 4) + data + Le(12, 2) + Concat(ifd)
    ensures |p| == 4 + |data| + 2 + 12 * 12
    ensures FromLe(p[..4]) == ifdPos
    ensures p[4 .. 4 + |data|] == data
    ensures FromLe(p[4 + |data| .. 6 + |data|]) == 12
    ensures p[6 + |data| ..] == Concat(ifd)
  {
    ConcatLength(ifd);
    LeRoundTrip(ifdPos, 4);
    LeRoundTrip(12, 2);
    assert p[..4] == Le(ifdPos, 4);
    assert p[4 + |data| .. 6 + |data|] == Le(12, 2);
  }

  /** Entry k of a page reads back as the tag, datatype and values packed
      into it. */
  lemma EntryReads(p: seq<byte>, n: nat, ifd: seq<seq<byte>>, k: nat,
                   id: int, dataType: int, values: seq<int>)
    requires |ifd| == 12 && forall j :: 0 <= j < 12 ==> |ifd[j]| == 12
    requires k < 12 && |p| >= 6 + n && p[6 + n ..] == Concat(ifd)
    requires 1 <= |values| <= 2 && FitsHeader(id, dataType) && FitsPayload(values)
    requires dataType == INT ==> |values| == 1
    requires dataType == SHORT ==> forall j :: 0 <= j < |values| ==> values[j] < 0x1_0000
    requires dataType == SHORT || dataType == INT
    requires ifd[k] == Pack(id, dataType, values)
    ensures 6 + n + 12 * k + 12 <= |p|
    ensures ParseEntry(EntryAt(p, n, k)) == Some(Entry(id, dataType, values))
  {
    ConcatEntry(ifd, k);
    assert EntryAt(p, n, k) == Concat(ifd)[12 * k .. 12 * k + 12];
    PackRoundTrip(id, dataType, values);
  }

  /** A successful page is the pointer, the data, the count and the joined
      entries of the IFD. */
  lemma PageSplit(offset: nat, data: seq<byte>, width: int, xdpi: int, ydpi: int,
                  pageIndex: int, pageCount: int, p: seq<byte>) returns (ifd: seq<seq<byte>>)
    requires PageBytes(offset, data, width, xdpi, ydpi, pageIndex, pageCount) == Success(p)
    ensures Ifd(offset, data, RoundWidth(width), xdpi, ydpi, pageIndex, pageCount) == Success(ifd)
    ensures offset + 4 + |data| < 0x1_0000_0000 && |ifd| == 12
    ensures p == Le(offset + 4 + |data|, 4) + data + Le(12, 2) + Concat(ifd)
  {
    ifd := Ifd(offset, data, RoundWidth(width), xdpi, ydpi, pageIndex, pageCount).value;
    IfdEntries(offset, data, RoundWidth(width), xdpi, ydpi, pageIndex, pageCount, ifd);
  }

  /** The TIFF stream written so far. Every page starts with the pointer to
      its IFD; the header's own first-IFD field is the first page's pointer,
      and each IFD is followed by the next page's pointer. */
  class TiffWriter {
    var written: seq<byte>
    const pages: int
    var page: int
    var offset: nat

    ghost predicate Valid()
      reads this
    {
      offset == |written| && 4 <= |written| && written[..4] == Header
    }

    constructor(pages: int)
      ensures Valid()
      ensures written == Header && this.pages == pages && page == 0 && offset == 4
    {
      written := Header;
      this.pages := pages;
      page := 0;
      offset := 4;
    }

    /** addPage: either the whole page is written and counted, or an
        exception leaves the writer as it was. */
    method AddPage(data: seq<byte>, width: int, xdpi: int, ydpi: int, pageIndex: int, pageCount: int)
      returns (r: Result<(), PyError>)
      requires Valid()
      modifies this
      ensures Valid()
      ensures var bytes := PageBytes(old(offset), data, width, xdpi, ydpi, pageIndex, pageCount);
        if bytes.Success? then
          r.Success? && written == old(written) + bytes.value && page == old(page) + 1
        else
          r == Failure(bytes.error) && written == old(written) && page == old(page)
    {
      var bytes :- PageBytes(offset, data, width, xdpi, ydpi, pageIndex, pageCount);
      written := written + bytes;
      offset := offset + |bytes|;
      page := page + 1;
      r := Success(());
    }
  }
}
