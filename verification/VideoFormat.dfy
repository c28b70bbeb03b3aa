/**
 What a video track is, octet by octet: the media header in both versions, the visual sample entry and
 the one sample description (ISO/IEC 14496-12), given by what writes them.  The inspector of
 VideoInspect.dfy reports exactly the width, height and length that were written.
 */
module VideoFormat {
  import opened Prelude
  import opened Containers
  import opened VideoInspect

  /// Big-endian words, octet by octet

  function Two(n: nat): (d: seq<byte>)
    requires n < 0x1_0000
    ensures |d| == 2
  {
    [n / 0x100, n % 0x100]
  }

  function Four(n: nat): (d: seq<byte>)
    requires n < 0x1_0000_0000
    ensures |d| == 4
  {
    Two(n / 0x1_0000) + Two(n % 0x1_0000)
  }

  function Eight(n: nat): (d: seq<byte>)
    requires n < 0x1_0000_0000_0000_0000
    ensures |d| == 8
  {
    Four(n / 0x1_0000_0000) + Four(n % 0x1_0000_0000)
  }

  lemma TwoIff(d: seq<byte>, n: nat)
    requires |d| == 2 && n < 0x1_0000
    ensures BE(d) == n <==> d == Two(n)
  {
    BEValues(d);
  }

  lemma FourIff(d: seq<byte>, n: nat)
    requires |d| == 4 && n < 0x1_0000_0000
    ensures BE(d) == n <==> d == Four(n)
  {
    BEValues(d);
    BEValues(d[..2]);
    BEValues(d[2..]);
    TwoIff(d[..2], n / 0x1_0000);
    TwoIff(d[2..], n % 0x1_0000);
    assert d == d[..2] + d[2..] && Four(n)[..2] == Two(n / 0x1_0000) && Four(n)[2..] == Two(n % 0x1_0000);
  }

  lemma EightIff(d: seq<byte>, n: nat)
    requires |d| == 8 && n < 0x1_0000_0000_0000_0000
    ensures BE(d) == n <==> d == Eight(n)
  {
    BEValues(d);
    WordBounds(d[4..]);
    FourIff(d[..4], n / 0x1_0000_0000);
    FourIff(d[4..], n % 0x1_0000_0000);
    assert d == d[..4] + d[4..];
    assert Eight(n)[..4] == Four(n / 0x1_0000_0000) && Eight(n)[4..] == Four(n % 0x1_0000_0000);
  }

  /** The names of boxes, as text. */
  lemma Names()
    ensures FTYP == Ascii("ftyp") && MDAT == Ascii("mdat") && MOOV == Ascii("moov") && TRAK == Ascii("trak")
    ensures MDIA == Ascii("mdia") && HDLR == Ascii("hdlr") && MINF == Ascii("minf") && STBL == Ascii("stbl")
    ensures STSD == Ascii("stsd") && MDHD == Ascii("mdhd") && AVC1 == Ascii("avc1") && AVCC == Ascii("avcC")
    ensures MP4A == Ascii("mp4a") && VIDE == Ascii("vide") && SOUN == Ascii("soun")
  {
  }

  /// The media header

  /** Version 0 has 32-bit times, version 1 has 64-bit times; `before` holds flags and the two dates. */
  datatype MediaHeader =
    | Version0(before: seq<byte>, scale: nat, duration: nat, rest: seq<byte>)
    | Version1(before: seq<byte>, scale: nat, duration: nat, rest: seq<byte>)

  predicate InRange(h: MediaHeader) {
    match h
    case Version0(before, scale, duration, _) =>
      |before| == 3 + 4 + 4 && scale < 0x1_0000_0000 && duration < 0x1_0000_0000
    case Version1(before, scale, duration, _) =>
      |before| == 3 + 8 + 8 && scale < 0x1_0000_0000 && duration < 0x1_0000_0000_0000_0000
  }

  function WriteHeader(h: MediaHeader): seq<byte>
    requires InRange(h)
  {
    match h
    case Version0(before, scale, duration, rest) => [0] + before + Four(scale) + Four(duration) + rest
    case Version1(before, scale, duration, rest) => [1] + before + Four(scale) + Eight(duration) + rest
  }

  /** The octets were written as a media header with this time scale and duration. */
  ghost predicate Times(p: seq<byte>, scale: nat, duration: nat) {
    exists h :: InRange(h) && p == WriteHeader(h) && h.scale == scale && h.duration == duration
  }

  lemma ReadHeader(h: MediaHeader)
    requires InRange(h)
    ensures Timing(WriteHeader(h)) == Some((h.scale, h.duration))
  {
    var p := WriteHeader(h);
    if h.Version0? {
      assert p[12..16] == Four(h.scale) && p[16..20] == Four(h.duration);
      FourIff(p[12..16], h.scale);
      FourIff(p[16..20], h.duration);
    } else {
      assert p[20..24] == Four(h.scale) && p[24..32] == Eight(h.duration);
      FourIff(p[20..24], h.scale);
      EightIff(p[24..32], h.duration);
    }
  }

  lemma HeaderOf(p: seq<byte>) returns (h: MediaHeader)
    requires Timing(p).Some?
    ensures InRange(h) && p == WriteHeader(h) && Timing(p) == Some((h.scale, h.duration))
  {
    if p[0] == 0 {
      WordBounds(p[12..16]);
      WordBounds(p[16..20]);
      h := Version0(p[1..12], BE(p[12..16]), BE(p[16..20]), p[20..]);
      FourIff(p[12..16], h.scale);
      FourIff(p[16..20], h.duration);
      assert p == [p[0]] + p[1..12] + p[12..16] + p[16..20] + p[20..];
    } else {
      WordBounds(p[20..24]);
      WordBounds(p[24..32]);
      h := Version1(p[1..20], BE(p[20..24]), BE(p[24..32]), p[32..]);
      FourIff(p[20..24], h.scale);
      EightIff(p[24..32], h.duration);
      assert p == [p[0]] + p[1..20] + p[20..24] + p[24..32] + p[32..];
    }
  }

  /** A media header is read with the scale and duration it was written with, and nothing else is read as one. */
  lemma TimingIffWritten(p: seq<byte>, scale: nat, duration: nat)
    ensures Timing(p) == Some((scale, duration)) <==> Times(p, scale, duration)
  {
    if Timing(p).Some? {
      var h := HeaderOf(p);
    }
    if h :| InRange(h) && p == WriteHeader(h) && h.scale == scale && h.duration == duration {
      ReadHeader(h);
    }
  }

  /// The sample description

  /** One visual sample entry: 78 octets with the two sides in the middle, and boxes. */
  datatype Entry = Entry(before: seq<byte>, width: nat, height: nat, middle: seq<byte>, boxes: seq<byte>)

  predicate Writes(e: Entry) {
    |e.before| == 24 && |e.middle| == 50 && e.width < 0x1_0000 && e.height < 0x1_0000
  }

  function WriteEntry(e: Entry): seq<byte>
    requires Writes(e)
  {
    e.before + Two(e.width) + Two(e.height) + e.middle + e.boxes
  }

  lemma ReadEntry(e: Entry)
    requires Writes(e)
    ensures var p := WriteEntry(e);
      |p| >= 78 && p[78..] == e.boxes && BE(p[24..26]) == e.width && BE(p[26..28]) == e.height
  {
    var p := WriteEntry(e);
    assert p[24..26] == Two(e.width) && p[26..28] == Two(e.height);
    TwoIff(p[24..26], e.width);
    TwoIff(p[26..28], e.height);
  }

  lemma EntryOf(p: seq<byte>) returns (e: Entry)
    requires |p| >= 78
    ensures Writes(e) && p == WriteEntry(e)
  {
    WordBounds(p[24..26]);
    WordBounds(p[26..28]);
    e := Entry(p[..24], BE(p[24..26]), BE(p[26..28]), p[28..78], p[78..]);
    TwoIff(p[24..26], e.width);
    TwoIff(p[26..28], e.height);
    assert p == p[..24] + p[24..26] + p[26..28] + p[28..78] + p[78..];
  }

  /** The sample tables say there is one description, and hold this one box. */
  ghost predicate Describes(stsd: seq<byte>, b: Box) {
    |stsd| >= 8 && stsd[4..8] == [0, 0, 0, 1] && exists form :: FormFits(b, form) && stsd[8..] == WriteBox(b, form)
  }

  ghost predicate Nested(mdia: seq<byte>, minf: seq<byte>, stbl: seq<byte>, stsd: seq<byte>) {
    Child(mdia, MINF) == Some(minf) && Child(minf, STBL) == Some(stbl) && Child(stbl, STSD) == Some(stsd)
  }

  lemma WriteOne(b: Box, f: Form)
    ensures Writable([b], [f]) <==> FormFits(b, f)
    ensures FormFits(b, f) ==> Write([b], [f]) == WriteBox(b, f)
  {
    assert [b][1..] == [] && [f][1..] == [];
    assert Write([], []) == [];
  }

  lemma OneBoxIff(d: seq<byte>, b: Box)
    ensures Parse(d) == Some([b]) <==> exists form :: FormFits(b, form) && d == WriteBox(b, form)
  {
    ParseIffWritten(d, [b]);
    if Parse(d) == Some([b]) {
      var forms :| Writable([b], forms) && Write([b], forms) == d;
      assert [b][1..] == [] && forms == [forms[0]] + forms[1..] && [forms[0]] + [] == [forms[0]];
      WriteOne(b, forms[0]);
    }
    if form :| FormFits(b, form) && d == WriteBox(b, form) {
      WriteOne(b, form);
    }
  }

  lemma DescribesIff(stsd: seq<byte>, b: Box)
    ensures |stsd| >= 8 && BE(stsd[4..8]) == 1 && Parse(stsd[8..]) == Some([b]) <==> Describes(stsd, b)
  {
    if |stsd| >= 8 {
      FourIff(stsd[4..8], 1);
      OneBoxIff(stsd[8..], b);
    }
  }

  /** The sample description of a track is the one box its tables were written with. */
  lemma SampleEntryIff(mdia: seq<byte>, b: Box)
    ensures SampleEntry(mdia) == Some(b) <==>
      exists minf, stbl, stsd :: Nested(mdia, minf, stbl, stsd) && Describes(stsd, b)
  {
    if minf, stbl, stsd :| Nested(mdia, minf, stbl, stsd) && Describes(stsd, b) {
      DescribesIff(stsd, b);
    }
    if SampleEntry(mdia) == Some(b) {
      var minf := Child(mdia, MINF).value;
      var stbl := Child(minf, STBL).value;
      var stsd := Child(stbl, STSD).value;
      assert Parse(stsd[8..]).value == [b];
      DescribesIff(stsd, b);
      assert Nested(mdia, minf, stbl, stsd);
    }
  }

  /// Tracks

  ghost predicate Handles(mdia: seq<byte>, kind: seq<byte>) {
    Child(mdia, HDLR).Some? && |Child(mdia, HDLR).value| >= 12 && Child(mdia, HDLR).value[8..12] == kind
  }

  /** Written with this length: at most an hour, rounded up to seconds. */
  ghost predicate Lasts(mdia: seq<byte>, seconds: nat, scale: nat, duration: nat) {
    && Child(mdia, MDHD).Some? && Times(Child(mdia, MDHD).value, scale, duration)
    && 0 < duration <= 3600 * scale && (seconds - 1) * scale < duration <= seconds * scale
  }

  /** Written as H.264 video of this size. */
  ghost predicate Shown(mdia: seq<byte>, width: nat, height: nat, e: Entry) {
    && Writes(e) && SampleEntry(mdia) == Some(Box(AVC1, WriteEntry(e)))
    && (var avcc := Child(e.boxes, AVCC); avcc.Some? && |avcc.value| >= 7 && avcc.value[0] == 1)
    && width == e.width && height == e.height && 1 <= e.width <= 4096 && 1 <= e.height <= 4096
  }

  lemma LengthIffWritten(mdia: seq<byte>, seconds: nat)
    ensures (exists scale, duration :: Lasts(mdia, seconds, scale, duration)) <==>
      var mdhd := Child(mdia, MDHD);
      && mdhd.Some? && Timing(mdhd.value).Some?
      && (var (scale, duration) := Timing(mdhd.value).value;
          && 0 < scale && 0 < duration <= 3600 * scale
          && RoundedUp(seconds, duration, scale))
  {
    var mdhd := Child(mdia, MDHD);
    if mdhd.Some? && Timing(mdhd.value).Some? {
      var (scale, duration) := Timing(mdhd.value).value;
      TimingIffWritten(mdhd.value, scale, duration);
      assert 0 < scale && 0 < duration <= 3600 * scale && RoundedUp(seconds, duration, scale) ==>
        Lasts(mdia, seconds, scale, duration);
    }
    if scale, duration :| Lasts(mdia, seconds, scale, duration) {
      TimingIffWritten(mdhd.value, scale, duration);
    }
  }

  ghost predicate Measures(mdia: seq<byte>, width: nat, height: nat) {
    && SampleEntry(mdia).Some? && SampleEntry(mdia).value.name == AVC1
    && (var entry := SampleEntry(mdia).value.data;
        && |entry| >= 78
        && (var avcc := Child(entry[78..], AVCC); avcc.Some? && |avcc.value| >= 7 && avcc.value[0] == 1)
        && width == BE(entry[24..26]) && 1 <= width <= 4096
        && height == BE(entry[26..28]) && 1 <= height <= 4096)
  }

  lemma SizeIffWritten(mdia: seq<byte>, width: nat, height: nat)
    ensures (exists e :: Shown(mdia, width, height, e)) <==> Measures(mdia, width, height)
  {
    if Measures(mdia, width, height) {
      var e := EntryOf(SampleEntry(mdia).value.data);
      ReadEntry(e);
      assert Shown(mdia, width, height, e);
    }
    if e :| Shown(mdia, width, height, e) {
      ReadEntry(e);
    }
  }

  /** The video tracks accepted, and what is reported of them, are exactly those written this way. */
  lemma VideoIffWritten(mdia: seq<byte>, v: Video)
    ensures IsVideo(mdia, v) <==>
      && Handles(mdia, VIDE) && (exists e :: Shown(mdia, v.width, v.height, e))
      && exists scale, duration :: Lasts(mdia, v.seconds, scale, duration)
  {
    SizeIffWritten(mdia, v.width, v.height);
    LengthIffWritten(mdia, v.seconds);
  }
}
