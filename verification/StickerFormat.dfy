/**
 What a sticker file is, octet by octet: RIFF and WebP headers (RFC 9649), VP8 and VP8L picture headers,
 and the frames of an animation, given by what writes them.  The inspector of StickerInspect.dfy
 accepts exactly the files written this way within the limits on canvas, frames, time and size.
 */
module StickerFormat {
  import opened Prelude
  import opened Containers
  import opened StickerInspect

  /// Little-endian words, octet by octet

  function Two(n: nat): (d: seq<byte>)
    requires n < 0x1_0000
    ensures |d| == 2
  {
    [n % 0x100, n / 0x100]
  }

  function Three(n: nat): (d: seq<byte>)
    requires n < 0x100_0000
    ensures |d| == 3
  {
    [n % 0x100] + Two(n / 0x100)
  }

  function Four(n: nat): (d: seq<byte>)
    requires n < 0x1_0000_0000
    ensures |d| == 4
  {
    [n % 0x100] + Three(n / 0x100)
  }

  lemma TwoIff(d: seq<byte>, n: nat)
    requires |d| == 2 && n < 0x1_0000
    ensures LE(d) == n <==> d == Two(n)
  {
    LEValues(d);
  }

  lemma ThreeIff(d: seq<byte>, n: nat)
    requires |d| == 3 && n < 0x100_0000
    ensures LE(d) == n <==> d == Three(n)
  {
    assert d[0..] == d;
    LEStep(d, 0);
    TwoIff(d[1..], n / 0x100);
    assert d == [d[0]] + d[1..] && Three(n)[0] == n % 0x100 && Three(n)[1..] == Two(n / 0x100);
  }

  lemma FourIff(d: seq<byte>, n: nat)
    requires |d| == 4 && n < 0x1_0000_0000
    ensures LE(d) == n <==> d == Four(n)
  {
    assert d[0..] == d;
    LEStep(d, 0);
    ThreeIff(d[1..], n / 0x100);
    assert d == [d[0]] + d[1..] && Four(n)[0] == n % 0x100 && Four(n)[1..] == Three(n / 0x100);
  }

  /** The names of chunks, as text. */
  lemma Names()
    ensures RIFF == Ascii("RIFF") && WEBP == Ascii("WEBP") && VP8X == Ascii("VP8X")
    ensures VP8 == Ascii("VP8 ") && VP8L == Ascii("VP8L")
    ensures ANIM == Ascii("ANIM") && ANMF == Ascii("ANMF") && ALPH == Ascii("ALPH")
  {
  }

  /// Pictures

  /**
   The header of a picture.  VP8: a frame tag, even for a key frame, the start code, and both sides
   below their scaling; VP8L: a signature, and one word of both sides less one and the alpha bit.
   */
  datatype Picture =
    | Lossy(tag: seq<byte>, size: Size, scaleX: nat, scaleY: nat, rest: seq<byte>)
    | Lossless(size: Size, alpha: nat, rest: seq<byte>)

  predicate InRange(pic: Picture) {
    match pic
    case Lossy(tag, size, scaleX, scaleY, _) =>
      |tag| == 3 && tag[0] % 2 == 0 && size.width < 0x4000 && size.height < 0x4000 && scaleX < 4 && scaleY < 4
    case Lossless(size, alpha, _) => 1 <= size.width <= 0x4000 && 1 <= size.height <= 0x4000 && alpha < 2
  }

  function WritePicture(pic: Picture): Box
    requires InRange(pic)
  {
    match pic
    case Lossy(tag, size, scaleX, scaleY, rest) =>
      Box(VP8, tag + [0x9d, 0x01, 0x2a] + Two(size.width + scaleX * 0x4000)
                         + Two(size.height + scaleY * 0x4000) + rest)
    case Lossless(size, alpha, rest) =>
      Box(VP8L, [0x2f] + Four(size.width - 1 + (size.height - 1) * 0x4000 + alpha * 0x1000_0000) + rest)
  }

  /** The chunk was written as a picture of this size. */
  ghost predicate Shows(b: Box, size: Size) {
    exists pic :: InRange(pic) && pic.size == size && b == WritePicture(pic)
  }

  lemma ReadLossy(pic: Picture)
    requires InRange(pic) && pic.Lossy?
    ensures Dimensions(WritePicture(pic)) == Some(pic.size)
  {
    var p, x, y := WritePicture(pic).data, pic.size.width + pic.scaleX * 0x4000, pic.size.height + pic.scaleY * 0x4000;
    assert p[3..6] == [0x9d, 0x01, 0x2a] && p[6..8] == Two(x) && p[8..10] == Two(y);
    TwoIff(p[6..8], x);
    TwoIff(p[8..10], y);
  }

  lemma Fields(v: nat, w: nat, h: nat, alpha: nat)
    requires v < 0x2000_0000 && w < 0x4000 && h < 0x4000
    ensures v == w + h * 0x4000 + alpha * 0x1000_0000 <==>
      w == v % 0x4000 && h == v / 0x4000 % 0x4000 && alpha == v / 0x4000 / 0x4000
    ensures v / 0x4000 / 0x4000 < 2
  {
  }

  lemma TopBits(d: seq<byte>)
    requires |d| == 4
    ensures d[3] < 32 <==> LE(d) < 0x2000_0000
  {
    LEValues(d);
  }

  lemma ReadLossless(pic: Picture)
    requires InRange(pic) && pic.Lossless?
    ensures Dimensions(WritePicture(pic)) == Some(pic.size)
  {
    var w, h := pic.size.width - 1, pic.size.height - 1;
    var v, p := w + h * 0x4000 + pic.alpha * 0x1000_0000, WritePicture(pic).data;
    assert p[1..5] == Four(v) && p[0] == 0x2f;
    FourIff(p[1..5], v);
    TopBits(p[1..5]);
    Fields(v, w, h, pic.alpha);
  }

  lemma LossyOf(b: Box) returns (pic: Picture)
    requires b.name == VP8 && Dimensions(b).Some?
    ensures InRange(pic) && Dimensions(b) == Some(pic.size) && b == WritePicture(pic)
  {
    var p := b.data;
    var x, y := LE(p[6..8]), LE(p[8..10]);
    WordBounds(p[6..8]);
    WordBounds(p[8..10]);
    TwoIff(p[6..8], x);
    TwoIff(p[8..10], y);
    pic := Lossy(p[..3], Size(x % 0x4000, y % 0x4000), x / 0x4000, y / 0x4000, p[10..]);
    assert p == p[..3] + p[3..6] + p[6..8] + p[8..10] + p[10..];
  }

  lemma LosslessOf(b: Box) returns (pic: Picture)
    requires b.name == VP8L && Dimensions(b).Some?
    ensures InRange(pic) && Dimensions(b) == Some(pic.size) && b == WritePicture(pic)
  {
    var p := b.data;
    var v := LE(p[1..5]);
    TopBits(p[1..5]);
    Fields(v, v % 0x4000, v / 0x4000 % 0x4000, v / 0x4000 / 0x4000);
    FourIff(p[1..5], v);
    pic := Lossless(Size(v % 0x4000 + 1, v / 0x4000 % 0x4000 + 1), v / 0x4000 / 0x4000, p[5..]);
    assert p == [p[0]] + p[1..5] + p[5..];
  }

  /** A picture header is read as the size it was written with, and nothing else is read as one. */
  lemma DimensionsIffWritten(b: Box, size: Size)
    ensures Dimensions(b) == Some(size) <==> Shows(b, size)
  {
    if Dimensions(b).Some? {
      if b.name == VP8 {
        var pic := LossyOf(b);
      } else {
        var pic := LosslessOf(b);
      }
    }
    if pic :| InRange(pic) && pic.size == size && b == WritePicture(pic) {
      if pic.Lossy? {
        ReadLossy(pic);
      } else {
        ReadLossless(pic);
      }
    }
  }

  /// The extended header

  /** The chunk was written as the extended header of such a file: a flags octet, three zeros, both sides less one. */
  ghost predicate HeaderShows(b: Box, animated: bool, size: Size) {
    && b.name == VP8X && 1 <= size.width <= 0x100_0000 && 1 <= size.height <= 0x100_0000
    && exists others: nat :: others < 16 &&
         b.data == [others * 4 + (if animated then 2 else 0), 0, 0, 0] + Three(size.width - 1) + Three(size.height - 1)
  }

  lemma HeaderIsWritten(b: Box, animated: bool, size: Size)
    requires b.name == VP8X && HeaderOf(b.data) == Some(Header(animated, size))
    ensures HeaderShows(b, animated, size)
  {
    var p := b.data;
    WordBounds(p[4..7]);
    WordBounds(p[7..10]);
    ThreeIff(p[4..7], size.width - 1);
    ThreeIff(p[7..10], size.height - 1);
    var others: nat := p[0] / 4;
    assert p[..4] == [others * 4 + (if animated then 2 else 0), 0, 0, 0];
    assert p == p[..4] + p[4..7] + p[7..10];
  }

  lemma WrittenIsHeader(b: Box, animated: bool, size: Size)
    requires HeaderShows(b, animated, size)
    ensures b.name == VP8X && HeaderOf(b.data) == Some(Header(animated, size))
  {
    var p := b.data;
    assert p[4..7] == Three(size.width - 1) && p[7..10] == Three(size.height - 1);
    ThreeIff(p[4..7], size.width - 1);
    ThreeIff(p[7..10], size.height - 1);
  }

  /** An extended header is read as it was written, and nothing else is read as one. */
  lemma HeaderIffWritten(b: Box, animated: bool, size: Size)
    ensures b.name == VP8X && HeaderOf(b.data) == Some(Header(animated, size)) <==> HeaderShows(b, animated, size)
  {
    if b.name == VP8X && HeaderOf(b.data) == Some(Header(animated, size)) {
      HeaderIsWritten(b, animated, size);
    }
    if HeaderShows(b, animated, size) {
      WrittenIsHeader(b, animated, size);
    }
  }

  /// The frames of an animation

  datatype Frame = Frame(x: nat, y: nat, size: Size, ms: nat, flags: nat, image: seq<byte>)

  predicate Writable(f: Frame) {
    && f.x < 0x100_0000 && f.y < 0x100_0000 && f.ms < 0x100_0000 && f.flags < 4
    && 1 <= f.size.width <= 0x100_0000 && 1 <= f.size.height <= 0x100_0000
  }

  /** Half the place on the canvas, both sides less one, the time, and two flags, before the chunks of the image. */
  function WriteFrame(f: Frame): seq<byte>
    requires Writable(f)
  {
    Three(f.x) + Three(f.y) + Three(f.size.width - 1) + Three(f.size.height - 1) + Three(f.ms) + [f.flags] + f.image
  }

  ghost predicate ImageAt(bs: seq<Box>, size: Size, k: nat) {
    k < |bs| && Shows(bs[k], size) && forall j :: 0 <= j < |bs| && j != k ==> bs[j].name == ALPH
  }

  /** One picture of this size, and nothing else but alpha planes. */
  ghost predicate OneImage(bs: seq<Box>, size: Size) {
    exists k :: ImageAt(bs, size, k)
  }

  /** The octets were written as this frame, and it holds one picture of its own size. */
  ghost predicate IsFrame(p: seq<byte>, f: Frame) {
    Writable(f) && p == WriteFrame(f) && Chunks(f.image).Some? && OneImage(Chunks(f.image).value, f.size)
  }

  lemma {:induction false} NoImage(bs: seq<Box>)
    ensures NotAlpha(bs) == [] <==> forall j :: 0 <= j < |bs| ==> bs[j].name == ALPH
  {
    if bs == [] {
    } else {
      NoImage(bs[..|bs| - 1]);
    }
  }

  lemma OneImageSnoc(bs: seq<Box>, size: Size)
    requires bs != []
    ensures var front, last := bs[..|bs| - 1], bs[|bs| - 1];
      OneImage(bs, size) <==>
        if last.name == ALPH then OneImage(front, size)
        else Shows(last, size) && forall j :: 0 <= j < |front| ==> front[j].name == ALPH
  {
    var front, last := bs[..|bs| - 1], bs[|bs| - 1];
    if last.name == ALPH {
      assert forall k :: ImageAt(bs, size, k) ==> ImageAt(front, size, k);
      assert forall k :: ImageAt(front, size, k) ==> ImageAt(bs, size, k);
    } else {
      assert forall k :: ImageAt(bs, size, k) ==> k == |front|;
      if Shows(last, size) && forall j :: 0 <= j < |front| ==> front[j].name == ALPH {
        assert ImageAt(bs, size, |front|);
      }
    }
  }

  lemma {:induction false} OneImageIff(bs: seq<Box>, size: Size)
    ensures OneImage(bs, size) <==> |NotAlpha(bs)| == 1 && Dimensions(NotAlpha(bs)[0]) == Some(size)
  {
    if bs == [] {
    } else {
      var front, last := bs[..|bs| - 1], bs[|bs| - 1];
      DimensionsIffWritten(last, size);
      NoImage(front);
      OneImageIff(front, size);
      OneImageSnoc(bs, size);
    }
  }

  lemma HoldsIffWritten(p: seq<byte>, size: Size)
    ensures HoldsOneImage(p, size) <==> Chunks(p).Some? && OneImage(Chunks(p).value, size)
  {
    if Chunks(p).Some? {
      OneImageIff(Chunks(p).value, size);
    }
  }

  lemma FiveWords(p: seq<byte>, a: seq<byte>, b: seq<byte>, c: seq<byte>, d: seq<byte>, e: seq<byte>)
    requires |p| == 15 && |a| == |b| == |c| == |d| == |e| == 3
    ensures p == a + b + c + d + e <==> p[..3] == a && p[3..6] == b && p[6..9] == c && p[9..12] == d && p[12..] == e
  {
    assert p == p[..3] + p[3..6] + p[6..9] + p[9..12] + p[12..];
    var q := a + b + c + d + e;
    assert q[..3] == a && q[3..6] == b && q[6..9] == c && q[9..12] == d && q[12..] == e;
  }

  /** The five words of a frame header. */
  lemma FrameWords(p: seq<byte>, x: nat, y: nat, w: nat, h: nat, ms: nat)
    requires |p| >= 16 && x < 0x100_0000 && y < 0x100_0000 && w < 0x100_0000 && h < 0x100_0000 && ms < 0x100_0000
    ensures p[..15] == Three(x) + Three(y) + Three(w) + Three(h) + Three(ms) <==>
      LE(p[..3]) == x && LE(p[3..6]) == y && LE(p[6..9]) == w && LE(p[9..12]) == h && LE(p[12..15]) == ms
  {
    ThreeIff(p[..3], x);
    ThreeIff(p[3..6], y);
    ThreeIff(p[6..9], w);
    ThreeIff(p[9..12], h);
    ThreeIff(p[12..15], ms);
    FiveWords(p[..15], Three(x), Three(y), Three(w), Three(h), Three(ms));
  }

  lemma WordsFit(p: seq<byte>)
    requires |p| >= 16
    ensures LE(p[..3]) < 0x100_0000 && LE(p[3..6]) < 0x100_0000 && LE(p[6..9]) < 0x100_0000
    ensures LE(p[9..12]) < 0x100_0000 && LE(p[12..15]) < 0x100_0000
  {
    WordBounds(p[..3]);
    WordBounds(p[3..6]);
    WordBounds(p[6..9]);
    WordBounds(p[9..12]);
    WordBounds(p[12..15]);
  }

  lemma FrameOf(p: seq<byte>) returns (f: Frame)
    requires ShotOf(p).Some?
    ensures IsFrame(p, f)
    ensures ShotOf(p).value == Place(f.x * 2 + f.size.width, f.y * 2 + f.size.height, f.ms)
  {
    var x, y, w, h, ms := LE(p[..3]), LE(p[3..6]), LE(p[6..9]), LE(p[9..12]), LE(p[12..15]);
    WordsFit(p);
    f := Frame.Frame(x, y, Size(w + 1, h + 1), ms, p[15], p[16..]);
    FrameWords(p, x, y, w, h, ms);
    HoldsIffWritten(p[16..], f.size);
    assert p == p[..15] + [p[15]] + p[16..];
  }

  /** A frame is read with the place and time it was written with, and nothing else is read as one. */
  lemma ReadFrame(p: seq<byte>, f: Frame)
    requires IsFrame(p, f)
    ensures ShotOf(p) == Some(Place(f.x * 2 + f.size.width, f.y * 2 + f.size.height, f.ms))
  {
    var w, h := f.size.width - 1, f.size.height - 1;
    assert p[..15] == Three(f.x) + Three(f.y) + Three(w) + Three(h) + Three(f.ms) && p[15] == f.flags;
    FrameWords(p, f.x, f.y, w, h, f.ms);
    assert p[16..] == f.image;
    HoldsIffWritten(f.image, f.size);
  }

  /// Whole files

  /** The frames that the frame chunks were written as, in order. */
  ghost predicate Shoots(cs: seq<Box>, fs: seq<Frame>) {
    if cs == [] then fs == []
    else
      var front, last := cs[..|cs| - 1], cs[|cs| - 1];
      if last.name == ANMF then
        fs != [] && IsFrame(last.data, fs[|fs| - 1]) && Shoots(front, fs[..|fs| - 1])
      else Shoots(front, fs)
  }

  function TotalMs(fs: seq<Frame>): nat {
    if fs == [] then 0 else TotalMs(fs[..|fs| - 1]) + fs[|fs| - 1].ms
  }

  predicate OnCanvas(f: Frame) {
    f.x * 2 + f.size.width <= 512 && f.y * 2 + f.size.height <= 512 && f.ms >= 10
  }

  ghost predicate AllOnCanvas(fs: seq<Frame>) {
    forall i :: 0 <= i < |fs| ==> OnCanvas(fs[i])
  }

  /** One animation header, of six octets, and before all frames. */
  ghost predicate OpensAt(cs: seq<Box>, a: nat) {
    && a < |cs| && cs[a].name == ANIM && |cs[a].data| == 6
    && forall j :: 0 <= j < |cs| ==> (cs[j].name == ANIM ==> j == a) && (cs[j].name == ANMF ==> a < j)
  }

  ghost predicate Opens(cs: seq<Box>) {
    exists a :: OpensAt(cs, a)
  }

  predicate IsPicture(b: Box) {
    b.name == VP8 || b.name == VP8L
  }

  ghost predicate NoPictures(cs: seq<Box>) {
    forall i :: 0 <= i < |cs| ==> !IsPicture(cs[i])
  }

  ghost predicate PictureAt(cs: seq<Box>, k: nat) {
    k < |cs| && Shows(cs[k], Size(512, 512)) && forall j :: 0 <= j < |cs| && j != k ==> !IsPicture(cs[j])
  }

  ghost predicate Without(cs: seq<Box>, name: seq<byte>) {
    forall i :: 0 <= i < |cs| ==> cs[i].name != name
  }

  /** An extended header comes first or not at all. */
  ghost predicate OneHeader(cs: seq<Box>) {
    forall i :: 0 < i < |cs| ==> cs[i].name != VP8X
  }

  /** A still: one 512x512 picture, in at most 100 KiB. */
  ghost predicate IsStill(cs: seq<Box>, length: nat) {
    && OneHeader(cs) && (cs != [] && cs[0].name == VP8X ==> HeaderShows(cs[0], false, Size(512, 512)))
    && (exists k :: PictureAt(cs, k))
    && Without(cs, ANIM) && Without(cs, ANMF)
    && length <= 102_400
  }

  ghost predicate IsMovie(cs: seq<Box>, fs: seq<Frame>) {
    Shoots(cs, fs) && AllOnCanvas(fs) && 1 <= |fs| <= 120 && TotalMs(fs) <= 10_000
  }

  /** An animation: 1 to 120 frames of 10 ms or more on a 512x512 canvas, for 10 s in all, in at most 500 KiB. */
  ghost predicate IsAnimation(cs: seq<Box>, length: nat) {
    && cs != [] && OneHeader(cs) && HeaderShows(cs[0], true, Size(512, 512))
    && NoPictures(cs)
    && Opens(cs) && (exists fs :: IsMovie(cs, fs))
    && length <= 512_000
  }

  lemma KindOf(b: Box)
    ensures b.name == VP8X ==> PartOf(b) == Canvas(HeaderOf(b.data))
    ensures b.name == VP8 || b.name == VP8L ==> PartOf(b) == Image(Dimensions(b))
    ensures b.name == ANIM ==> PartOf(b) == Opening(|b.data| == 6)
    ensures b.name == ANMF ==> PartOf(b) == Shot(ShotOf(b.data))
    ensures b.name !in {VP8X, VP8, VP8L, ANIM, ANMF} ==> PartOf(b) == Skip
  {
  }

  /** What the last chunk makes of the parts. */
  lemma LastPart(cs: seq<Box>, front: seq<Part>, last: Part)
    requires cs != [] && front == Parts(cs[..|cs| - 1]) && last == PartOf(cs[|cs| - 1])
    ensures Parts(cs) == front + [last]
    ensures Images(Parts(cs)) == if last.Image? then Images(front) + [last] else Images(front)
    ensures Motion(Parts(cs)) == if last.Opening? || last.Shot? then Motion(front) + [last] else Motion(front)
  {
    Snoc(front, last);
  }

  lemma HeaderSnoc(cs: seq<Box>)
    requires cs != []
    ensures var front, last := Parts(cs[..|cs| - 1]), cs[|cs| - 1];
      if front == [] then
        && (HeaderFirst(Parts(cs)) <==> (last.name == VP8X ==> HeaderOf(last.data).Some?))
        && HeaderIn(Parts(cs)) == if last.name == VP8X then HeaderOf(last.data) else None
      else
        && (HeaderFirst(Parts(cs)) <==> last.name != VP8X && HeaderFirst(front))
        && HeaderIn(Parts(cs)) == HeaderIn(front)
  {
    var front, last := Parts(cs[..|cs| - 1]), PartOf(cs[|cs| - 1]);
    KindOf(cs[|cs| - 1]);
    LastPart(cs, front, last);
    if front != [] {
      SnocHeader(front, last);
    }
  }

  lemma {:induction false} HeaderFirstIff(cs: seq<Box>)
    ensures HeaderFirst(Parts(cs)) <==>
      OneHeader(cs) && (cs != [] && cs[0].name == VP8X ==> HeaderOf(cs[0].data).Some?)
    ensures HeaderIn(Parts(cs)) == if cs != [] && cs[0].name == VP8X then HeaderOf(cs[0].data) else None
  {
    if cs == [] {
    } else {
      var front := cs[..|cs| - 1];
      HeaderSnoc(cs);
      HeaderFirstIff(front);
      if front != [] {
        assert front[0] == cs[0] && Parts(front) != [];
        assert OneHeader(cs) <==> OneHeader(front) && cs[|front|].name != VP8X;
      }
    }
  }

  lemma ImagesSnoc(cs: seq<Box>)
    requires cs != []
    ensures var front, last := Images(Parts(cs[..|cs| - 1])), cs[|cs| - 1];
      Images(Parts(cs)) == if IsPicture(last) then front + [Image(Dimensions(last))] else front
  {
    KindOf(cs[|cs| - 1]);
    LastPart(cs, Parts(cs[..|cs| - 1]), PartOf(cs[|cs| - 1]));
  }

  lemma {:induction false} NoPictureIff(cs: seq<Box>)
    ensures Images(Parts(cs)) == [] <==> NoPictures(cs)
  {
    if cs == [] {
    } else {
      ImagesSnoc(cs);
      NoPictureIff(cs[..|cs| - 1]);
      assert NoPictures(cs) <==> NoPictures(cs[..|cs| - 1]) && !IsPicture(cs[|cs| - 1]);
      assert IsPicture(cs[|cs| - 1]) ==> |Images(Parts(cs))| > 0;
    }
  }

  lemma PictureSnoc(cs: seq<Box>)
    requires cs != []
    ensures var front, last := cs[..|cs| - 1], cs[|cs| - 1];
      (exists k :: PictureAt(cs, k)) <==>
        if IsPicture(last) then NoPictures(front) && Shows(last, Size(512, 512))
        else exists k :: PictureAt(front, k)
  {
    var front, last := cs[..|cs| - 1], cs[|cs| - 1];
    if IsPicture(last) {
      assert forall k :: PictureAt(cs, k) ==> k == |front|;
      if NoPictures(front) && Shows(last, Size(512, 512)) {
        assert PictureAt(cs, |front|);
      }
    } else {
      assert forall k :: PictureAt(cs, k) ==> PictureAt(front, k);
      assert forall k :: PictureAt(front, k) ==> PictureAt(cs, k);
    }
  }

  lemma {:induction false} OnePictureIff(cs: seq<Box>)
    ensures Images(Parts(cs)) == [Image(Some(CANVAS))] <==> exists k :: PictureAt(cs, k)
  {
    if cs == [] {
    } else {
      var front, last := cs[..|cs| - 1], cs[|cs| - 1];
      ImagesSnoc(cs);
      NoPictureIff(front);
      OnePictureIff(front);
      PictureSnoc(cs);
      DimensionsIffWritten(last, CANVAS);
      if IsPicture(last) {
        assert |Images(Parts(cs))| == |Images(Parts(front))| + 1;
        assert Images(Parts(cs))[|Images(Parts(front))|] == Image(Dimensions(last));
      }
    }
  }

  lemma MotionSnoc(cs: seq<Box>)
    requires cs != []
    ensures var front, last := Motion(Parts(cs[..|cs| - 1])), cs[|cs| - 1];
      Motion(Parts(cs)) ==
        if last.name == ANIM then front + [Opening(|last.data| == 6)]
        else if last.name == ANMF then front + [Shot(ShotOf(last.data))]
        else front
  {
    KindOf(cs[|cs| - 1]);
    LastPart(cs, Parts(cs[..|cs| - 1]), PartOf(cs[|cs| - 1]));
  }

  lemma {:induction false} NoMotionIff(cs: seq<Box>)
    ensures Motion(Parts(cs)) == [] <==> Without(cs, ANIM) && Without(cs, ANMF)
  {
    if cs == [] {
    } else {
      MotionSnoc(cs);
      NoMotionIff(cs[..|cs| - 1]);
      assert cs[|cs| - 1].name in {ANIM, ANMF} ==> |Motion(Parts(cs))| > 0;
    }
  }

  lemma OpensSnoc(cs: seq<Box>)
    requires cs != []
    ensures var front, last := cs[..|cs| - 1], cs[|cs| - 1];
      Opens(cs) <==>
        if last.name == ANIM then
          |last.data| == 6 && Without(front, ANIM) && Without(front, ANMF)
        else Opens(front)
  {
    var front, last := cs[..|cs| - 1], cs[|cs| - 1];
    if last.name == ANIM {
      assert forall a :: OpensAt(cs, a) ==> a == |front|;
      assert |last.data| == 6 && Without(front, ANIM) && Without(front, ANMF) ==> OpensAt(cs, |front|);
    } else {
      assert forall a :: OpensAt(cs, a) ==> OpensAt(front, a);
      assert forall a :: OpensAt(front, a) ==> OpensAt(cs, a);
    }
  }

  lemma {:induction false} AddFrame(cs: seq<Box>, fs: seq<Frame>, f: Frame)
    requires cs != [] && cs[|cs| - 1].name == ANMF && IsFrame(cs[|cs| - 1].data, f) && OnCanvas(f)
    requires Shoots(cs[..|cs| - 1], fs) && AllOnCanvas(fs)
    ensures Shoots(cs, fs + [f]) && AllOnCanvas(fs + [f]) && TotalMs(fs + [f]) == TotalMs(fs) + f.ms
  {
    assert (fs + [f])[..|fs|] == fs;
  }

  /** What the last animation part adds. */
  lemma LastMotion(motion: seq<Part>, p: Part)
    requires p.Opening? || p.Shot?
    ensures ShotsOk(motion + [p], CANVAS) <==>
      if motion == [] then p == Opening(true) else ShotFits(p, CANVAS) && ShotsOk(motion, CANVAS)
    ensures Duration(motion + [p]) == Duration(motion) + Time(p)
  {
    assert (motion + [p])[..|motion|] == motion;
  }

  /** The frames behind well-formed animation parts. */
  lemma {:induction false} FramesOfMotion(cs: seq<Box>) returns (fs: seq<Frame>)
    requires Motion(Parts(cs)) == [] || ShotsOk(Motion(Parts(cs)), CANVAS)
    ensures Shoots(cs, fs) && AllOnCanvas(fs) && (Motion(Parts(cs)) != [] ==> Opens(cs))
    ensures |fs| == if Motion(Parts(cs)) == [] then 0 else |Motion(Parts(cs))| - 1
    ensures TotalMs(fs) == Duration(Motion(Parts(cs)))
    decreases |cs|
  {
    if cs == [] {
      fs := [];
    } else {
      var front, last := cs[..|cs| - 1], cs[|cs| - 1];
      var before := Motion(Parts(front));
        MotionSnoc(cs);
      OpensSnoc(cs);
      NoMotionIff(front);
      if last.name == ANMF {
        LastMotion(before, Shot(ShotOf(last.data)));
        fs := FramesOfMotion(front);
        var f := FrameOf(last.data);
        AddFrame(cs, fs, f);
        fs := fs + [f];
      } else {
        if last.name == ANIM {
          LastMotion(before, Opening(|last.data| == 6));
        }
        fs := FramesOfMotion(front);
      }
    }
  }

  lemma {:induction false} MotionOfFrames(cs: seq<Box>, fs: seq<Frame>)
    requires Shoots(cs, fs) && AllOnCanvas(fs)
    ensures TotalMs(fs) == Duration(Motion(Parts(cs)))
    ensures Opens(cs) ==> Motion(Parts(cs)) != [] && ShotsOk(Motion(Parts(cs)), CANVAS)
    ensures Opens(cs) ==> |Motion(Parts(cs))| == |fs| + 1
    ensures Without(cs, ANIM) && Without(cs, ANMF) ==> fs == []
    decreases |cs|
  {
    if cs == [] {
    } else {
      var front, last := cs[..|cs| - 1], cs[|cs| - 1];
      var before := Motion(Parts(front));
        MotionSnoc(cs);
      OpensSnoc(cs);
      NoMotionIff(front);
      if last.name == ANMF {
        var f := fs[|fs| - 1];
        ReadFrame(last.data, f);
        assert OnCanvas(f);
        MotionOfFrames(front, fs[..|fs| - 1]);
        LastMotion(before, Shot(ShotOf(last.data)));
      } else {
        MotionOfFrames(front, fs);
        if last.name == ANIM {
          LastMotion(before, Opening(|last.data| == 6));
        }
      }
    }
  }

  lemma HeaderShowsCanvas(cs: seq<Box>, animated: bool)
    requires cs != [] && cs[0].name == VP8X
    ensures HeaderIn(Parts(cs)) == Some(Header(animated, CANVAS)) <==> HeaderShows(cs[0], animated, Size(512, 512))
  {
    HeaderFirstIff(cs);
    HeaderIffWritten(cs[0], animated, CANVAS);
  }

  lemma OneImageFits(header: Option<Header>)
    ensures ImagesOk([Image(Some(CANVAS))], header) <==> (header.Some? ==> header.value.size == CANVAS)
  {
    var images := [Image(Some(CANVAS))];
    assert images[..0] == [];
  }

  lemma StillParts(ps: seq<Part>, length: nat)
    ensures StickerOk(ps, length) && !Animated(ps) <==>
      && HeaderFirst(ps) && (HeaderIn(ps).Some? ==> HeaderIn(ps).value == Header(false, CANVAS))
      && Images(ps) == [Image(Some(CANVAS))] && Motion(ps) == [] && length <= 102_400
  {
    if Images(ps) == [Image(Some(CANVAS))] {
      OneImageFits(HeaderIn(ps));
    }
  }

  /** The still stickers accepted are exactly those written as one 512x512 picture. */
  lemma StillIffWritten(cs: seq<Box>, length: nat)
    ensures StickerOk(Parts(cs), length) && !Animated(Parts(cs)) <==> IsStill(cs, length)
  {
    StillParts(Parts(cs), length);
    HeaderFirstIff(cs);
    OnePictureIff(cs);
    NoMotionIff(cs);
    if cs != [] && cs[0].name == VP8X {
      HeaderShowsCanvas(cs, false);
    }
  }

  /** The animated ones are exactly those written as frames on a 512x512 canvas. */
  lemma AnimationIffWritten(cs: seq<Box>, length: nat)
    ensures StickerOk(Parts(cs), length) && Animated(Parts(cs)) <==> IsAnimation(cs, length)
  {
    HeaderFirstIff(cs);
    NoPictureIff(cs);
    if cs != [] && cs[0].name == VP8X {
      HeaderShowsCanvas(cs, true);
    }
    if StickerOk(Parts(cs), length) && Animated(Parts(cs)) {
      var fs := FramesOfMotion(cs);
      assert IsMovie(cs, fs);
    }
    if IsAnimation(cs, length) {
      var fs :| IsMovie(cs, fs);
      MotionOfFrames(cs, fs);
    }
  }

  /** A sticker file but for its size: RIFF, the length of what follows, WEBP, the chunks of a still or an animation. */
  ghost predicate IsWritten(d: seq<byte>, animated: bool, length: nat) {
    && 20 <= |d| < 0x1_0000_0000 + 8
    && d == RIFF + Four(|d| - 8) + WEBP + d[12..]
    && Chunks(d[12..]).Some?
    && (var cs := Chunks(d[12..]).value; if animated then IsAnimation(cs, length) else IsStill(cs, length))
  }

  lemma RiffIff(d: seq<byte>)
    requires 20 <= |d|
    ensures Riff(d) <==>
      |d| < 0x1_0000_0000 + 8 && d == RIFF + Four(|d| - 8) + WEBP + d[12..]
  {
    WordBounds(d[4..8]);
    if |d| < 0x1_0000_0000 + 8 {
      FourIff(d[4..8], |d| - 8);
      var q := RIFF + Four(|d| - 8) + WEBP + d[12..];
      assert q[..4] == RIFF && q[4..8] == Four(|d| - 8) && q[8..12] == WEBP;
      assert d == d[..4] + d[4..8] + d[8..12] + d[12..];
    }
  }

  lemma ShapeIffWritten(d: seq<byte>, animated: bool, length: nat)
    ensures IsWritten(d, animated, length) <==>
      && Riff(d) && Chunks(d[12..]).Some?
      && (var ps := Parts(Chunks(d[12..]).value); StickerOk(ps, length) && animated == Animated(ps))
  {
    if |d| >= 20 {
      RiffIff(d);
      if Chunks(d[12..]).Some? {
        StillIffWritten(Chunks(d[12..]).value, length);
        AnimationIffWritten(Chunks(d[12..]).value, length);
      }
    }
  }

  /** What the inspector accepts, and what it calls too large, by how the file was written. */
  lemma AcceptedIffWritten(d: seq<byte>)
    ensures forall animated :: Accepted(d, animated) <==> IsWritten(d, animated, |d|)
    ensures (&& Riff(d) && Chunks(d[12..]).Some?
             && (var ps := Parts(Chunks(d[12..]).value); StickerOk(ps, 0) && !StickerOk(ps, |d|))) <==>
      exists animated :: IsWritten(d, animated, 0) && |d| > (if animated then 512_000 else 102_400)
  {
    forall animated, length: nat
      ensures IsWritten(d, animated, length) <==>
        && Riff(d) && Chunks(d[12..]).Some?
        && (var ps := Parts(Chunks(d[12..]).value); StickerOk(ps, length) && animated == Animated(ps))
    {
      ShapeIffWritten(d, animated, length);
    }
    if Riff(d) && Chunks(d[12..]).Some? {
      var animated := Animated(Parts(Chunks(d[12..]).value));
      assert IsWritten(d, animated, |d|) <==> IsWritten(d, animated, 0) && |d| <= if animated then 512_000 else 102_400;
    }
  }
}
