/**
 InspectSticker (internal/media/advanced.go:167-284): a 512x512 WebP, still or animated.
 The format is stated over the sub-lists of image and animation chunks; the inspector is one
 pass with counters, proved to accept exactly that format.
 */
module StickerInspect {
  import opened Prelude
  import opened Containers

  // Chunk names, in ASCII.
  const RIFF: seq<byte> := [82, 73, 70, 70]
  const WEBP: seq<byte> := [87, 69, 66, 80]
  const VP8X: seq<byte> := [86, 80, 56, 88]
  const VP8: seq<byte> := [86, 80, 56, 32]
  const VP8L: seq<byte> := [86, 80, 56, 76]
  const ANIM: seq<byte> := [65, 78, 73, 77]
  const ANMF: seq<byte> := [65, 78, 77, 70]
  const ALPH: seq<byte> := [65, 76, 80, 72]

  const SIDE := 512
  const MAX_FRAMES := 120
  const MAX_DURATION := 10_000 // milliseconds
  const STILL_LIMIT := 102_400
  const ANIMATED_LIMIT := 512_000

  datatype Size = Size(width: nat, height: nat)

  /// Single chunks

  /** Picture size stated in a bitstream header: bit tests written as arithmetic on the octets. */
  function Dimensions(b: Box): Option<Size> {
    var p := b.data;
    if b.name == VP8 then
      if |p| >= 10 && p[0] % 2 == 0 && p[3..6] == [0x9d, 0x01, 0x2a]
      then Some(Size(LE(p[6..8]) % 0x4000, LE(p[8..10]) % 0x4000))
      else None
    else if b.name == VP8L then
      if |p| >= 5 && p[0] == 0x2f && p[4] < 32
      then Some(Size(LE(p[1..5]) % 0x4000 + 1, LE(p[1..5]) / 0x4000 % 0x4000 + 1))
      else None
    else None
  }

  /** Extended header: reserved bits (0xc1 of the flags, and three octets) zero. */
  function HeaderOf(p: seq<byte>): Option<Header> {
    if |p| == 10 && p[0] % 2 == 0 && p[0] < 0x40 && p[1] == 0 && p[2] == 0 && p[3] == 0
    then Some(Header(p[0] / 2 % 2 == 1, Size(LE(p[4..7]) + 1, LE(p[7..10]) + 1)))
    else None
  }

  function NotAlpha(bs: seq<Box>): seq<Box> {
    if bs == [] then []
    else
      var front := NotAlpha(bs[..|bs| - 1]);
      if bs[|bs| - 1].name == ALPH then front else front + [bs[|bs| - 1]]
  }

  /** Besides alpha planes, the frame holds one chunk: an image of the frame's own size. */
  predicate HoldsOneImage(p: seq<byte>, size: Size) {
    && Chunks(p).Some?
    && |NotAlpha(Chunks(p).value)| == 1
    && Dimensions(NotAlpha(Chunks(p).value)[0]) == Some(size)
  }

  /** Where a frame ends on the canvas and how long it is shown; none if it is malformed. */
  function ShotOf(p: seq<byte>): Option<Place> {
    if |p| < 16 || p[15] >= 4 then None
    else
      var w, h := LE(p[6..9]) + 1, LE(p[9..12]) + 1;
      if HoldsOneImage(p[16..], Size(w, h))
      then Some(Place(LE(p[..3]) * 2 + w, LE(p[3..6]) * 2 + h, LE(p[12..15])))
      else None
  }

  datatype Header = Header(animated: bool, size: Size)
  datatype Place = Place(right: nat, bottom: nat, ms: nat)

  /** What one chunk means for the layout; `None` inside a part marks a malformed chunk. */
  datatype Part =
    | Canvas(header: Option<Header>)
    | Image(size: Option<Size>)
    | Opening(wellFormed: bool)
    | Shot(place: Option<Place>)
    | Skip

  function PartOf(b: Box): Part {
    if b.name == VP8X then Canvas(HeaderOf(b.data))
    else if b.name == VP8 || b.name == VP8L then Image(Dimensions(b))
    else if b.name == ANIM then Opening(|b.data| == 6)
    else if b.name == ANMF then Shot(ShotOf(b.data))
    else Skip
  }

  function Parts(cs: seq<Box>): (ps: seq<Part>)
    ensures |ps| == |cs|
  {
    if cs == [] then [] else Parts(cs[..|cs| - 1]) + [PartOf(cs[|cs| - 1])]
  }

  /// The layout accepted

  /** The image parts, in order. */
  function Images(ps: seq<Part>): seq<Part> {
    if ps == [] then []
    else
      var front, last := Images(ps[..|ps| - 1]), ps[|ps| - 1];
      if last.Image? then front + [last] else front
  }

  /** The animation parts, in order. */
  function Motion(ps: seq<Part>): seq<Part> {
    if ps == [] then []
    else
      var front, last := Motion(ps[..|ps| - 1]), ps[|ps| - 1];
      if last.Opening? || last.Shot? then front + [last] else front
  }

  /** The extended header, if the file starts with one. */
  function HeaderIn(ps: seq<Part>): Option<Header> {
    if ps != [] && ps[0].Canvas? then ps[0].header else None
  }

  /** An extended header comes first or not at all, and is well formed. */
  predicate HeaderFirst(ps: seq<Part>) {
    if |ps| <= 1 then ps == [] || !ps[0].Canvas? || ps[0].header.Some?
    else !ps[|ps| - 1].Canvas? && HeaderFirst(ps[..|ps| - 1])
  }

  predicate Animated(ps: seq<Part>) {
    HeaderIn(ps).Some? && HeaderIn(ps).value.animated
  }

  predicate ImageFits(p: Part, header: Option<Header>) {
    p.Image? && p.size.Some? && (header.Some? ==> p.size.value == header.value.size)
  }

  predicate ImagesOk(images: seq<Part>, header: Option<Header>) {
    images == [] || (ImageFits(images[|images| - 1], header) && ImagesOk(images[..|images| - 1], header))
  }

  predicate ShotFits(p: Part, canvas: Size) {
    && p.Shot? && p.place.Some? && p.place.value.ms >= 10
    && p.place.value.right <= canvas.width && p.place.value.bottom <= canvas.height
  }

  /** One animation header, then frames that fit the canvas. */
  predicate ShotsOk(motion: seq<Part>, canvas: Size)
    requires motion != []
  {
    if |motion| == 1 then motion[0].Opening? && motion[0].wellFormed
    else ShotFits(motion[|motion| - 1], canvas) && ShotsOk(motion[..|motion| - 1], canvas)
  }

  function Time(p: Part): nat {
    if p.Shot? && p.place.Some? then p.place.value.ms else 0
  }

  function Duration(ps: seq<Part>): nat {
    if ps == [] then 0 else Duration(ps[..|ps| - 1]) + Time(ps[|ps| - 1])
  }

  predicate MotionOk(motion: seq<Part>, header: Option<Header>) {
    motion == [] ||
    (&& header.Some? && header.value.animated && ShotsOk(motion, header.value.size)
     && |motion| <= MAX_FRAMES + 1 && Duration(motion) <= MAX_DURATION)
  }

  /** What every prefix of an acceptable chunk list satisfies. */
  predicate Sound(ps: seq<Part>) {
    HeaderFirst(ps) && ImagesOk(Images(ps), HeaderIn(ps)) && MotionOk(Motion(ps), HeaderIn(ps))
  }

  const CANVAS := Size(SIDE, SIDE)

  /** A well-formed sticker of `length` bytes: one still image, or an animation without one. */
  predicate StickerOk(ps: seq<Part>, length: nat) {
    && Sound(ps)
    && (HeaderIn(ps).Some? ==> HeaderIn(ps).value.size == CANVAS)
    && (if Animated(ps) then Images(ps) == [] && |Motion(ps)| >= 2
        else Images(ps) == [Image(Some(CANVAS))] && Motion(ps) == [])
    && length <= (if Animated(ps) then ANIMATED_LIMIT else STILL_LIMIT)
  }

  predicate Riff(d: seq<byte>) {
    |d| >= 20 && d[..4] == RIFF && d[8..12] == WEBP && LE(d[4..8]) + 8 == |d|
  }

  predicate Accepted(d: seq<byte>, animated: bool) {
    && Riff(d) && Chunks(d[12..]).Some?
    && (var ps := Parts(Chunks(d[12..]).value); StickerOk(ps, |d|) && animated == Animated(ps))
  }

  /// Part by part

  predicate MotionFits(motion: seq<Part>, p: Part, header: Option<Header>) {
    && header.Some? && header.value.animated
    && (if p.Opening? then motion == [] && p.wellFormed
        else
          && 1 <= |motion| <= MAX_FRAMES && ShotFits(p, header.value.size)
          && Duration(motion) + Time(p) <= MAX_DURATION)
  }

  /** What the next part must satisfy once `front` has been accepted. */
  predicate NextOk(front: seq<Part>, p: Part) {
    match p
    case Canvas(header) => front == [] && header.Some?
    case Image(_) => ImageFits(p, HeaderIn(front))
    case Opening(_) => MotionFits(Motion(front), p, HeaderIn(front))
    case Shot(_) => MotionFits(Motion(front), p, HeaderIn(front))
    case Skip => true
  }

  lemma Snoc(front: seq<Part>, p: Part)
    ensures var ps := front + [p];
      && Images(ps) == (if p.Image? then Images(front) + [p] else Images(front))
      && Motion(ps) == (if p.Opening? || p.Shot? then Motion(front) + [p] else Motion(front))
  {
    assert (front + [p])[..|front|] == front;
  }

  lemma SnocHeader(front: seq<Part>, p: Part)
    requires front != []
    ensures HeaderFirst(front + [p]) <==> !p.Canvas? && HeaderFirst(front)
    ensures HeaderIn(front + [p]) == HeaderIn(front)
  {
    assert (front + [p])[..|front|] == front;
  }

  lemma SnocMotion(motion: seq<Part>, p: Part, header: Option<Header>)
    requires p.Opening? || p.Shot?
    ensures Duration(motion + [p]) == Duration(motion) + Time(p)
    ensures MotionOk(motion + [p], header) <==> MotionOk(motion, header) && MotionFits(motion, p, header)
  {
    assert (motion + [p])[..|motion|] == motion;
    if motion == [] {
      assert motion + [p] == [p];
    }
  }

  /** The layout, checked one part at a time. */
  lemma SoundStep(ps: seq<Part>, i: nat)
    requires i < |ps|
    ensures Sound(ps[..i + 1]) <==> Sound(ps[..i]) && NextOk(ps[..i], ps[i])
  {
    var front, p := ps[..i], ps[i];
    assert ps[..i + 1] == front + [p];
    Snoc(front, p);
    if front == [] {
      assert [] + [p] == [p];
    } else {
      SnocHeader(front, p);
    }
    if p.Image? {
    } else if p.Opening? || p.Shot? {
      SnocMotion(Motion(front), p, HeaderIn(front));
    }
  }

  /** A part that may not come next rules out every list that goes on from there. */
  lemma {:induction false} Rejected(ps: seq<Part>, i: nat, j: nat)
    requires i < j <= |ps| && !NextOk(ps[..i], ps[i])
    ensures !Sound(ps[..j])
  {
    SoundStep(ps, j - 1);
    if i < j - 1 {
      Rejected(ps, i, j - 1);
    }
  }

  /// Reading one chunk

  lemma {:induction false} NotAlphaGrows(bs: seq<Box>, i: nat, j: nat)
    requires i <= j <= |bs|
    ensures NotAlpha(bs[..i]) <= NotAlpha(bs[..j])
  {
    if i < j {
      NotAlphaGrows(bs, i, j - 1);
      assert bs[..j][..j - 1] == bs[..j - 1];
    }
  }

  lemma NotTheOne(bs: seq<Box>, i: nat)
    requires i < |bs| && bs[i].name != ALPH
    ensures |NotAlpha(bs)| == 1 ==> NotAlpha(bs)[0] == bs[i]
  {
    assert bs[..i + 1][..i] == bs[..i] && bs[..|bs|] == bs;
    NotAlphaGrows(bs, i + 1, |bs|);
  }

  method InspectFrameImage(p: seq<byte>, size: Size) returns (ok: bool)
    ensures ok <==> HoldsOneImage(p, size)
  {
    var sub := WebpChunks(p);
    if sub == None {
      return false;
    }
    var bs, count := sub.value, 0;
    for i := 0 to |bs|
      invariant count == |NotAlpha(bs[..i])|
      invariant count > 0 ==> Dimensions(NotAlpha(bs[..i])[0]) == Some(size)
    {
      assert bs[..i + 1][..i] == bs[..i];
      if bs[i].name == ALPH {
        continue;
      }
      var found := Dimensions(bs[i]);
      if found != Some(size) {
        NotTheOne(bs, i);
        return false;
      }
      count := count + 1;
    }
    assert bs[..|bs|] == bs;
    ok := count == 1;
  }

  /** The 32-bit placement arithmetic of the source never wraps around. */
  lemma PlaceNoWrap(x: nat, w: nat)
    requires x < 0x100_0000 && w < 0x100_0000
    ensures x * 2 % U32 == x * 2 && (w + 1) % U32 == w + 1 && (x * 2 + (w + 1)) % U32 == x * 2 + w + 1
  {
  }

  method InspectFrame(p: seq<byte>) returns (r: Option<Place>)
    ensures r == ShotOf(p)
  {
    if |p| < 16 || p[15] >= 4 {
      return None;
    }
    WordBounds(p[..3]);
    WordBounds(p[3..6]);
    WordBounds(p[6..9]);
    WordBounds(p[9..12]);
    PlaceNoWrap(LE(p[..3]), LE(p[6..9]));
    PlaceNoWrap(LE(p[3..6]), LE(p[9..12]));
    var x, y := LE(p[..3]) * 2 % U32, LE(p[3..6]) * 2 % U32;
    var w, h := (LE(p[6..9]) + 1) % U32, (LE(p[9..12]) + 1) % U32;
    var ok := InspectFrameImage(p[16..], Size(w, h));
    r := if ok then Some(Place((x + w) % U32, (y + h) % U32, LE(p[12..15]))) else None;
  }

  method ReadPart(b: Box) returns (p: Part)
    ensures p == PartOf(b)
  {
    if b.name == ANMF {
      var place := InspectFrame(b.data);
      p := Shot(place);
    } else {
      p := PartOf(b);
    }
  }

  /// The inspector's counters

  datatype State = State(
    extended: bool, animated: bool, size: Size,
    images: nat, animations: nat, frames: nat, duration: nat)

  /** The reported size: the header's, otherwise the last image's, zero before either. */
  ghost predicate Counts(s: State, ps: seq<Part>) {
    && s.extended == HeaderIn(ps).Some? && s.animated == Animated(ps)
    && (if HeaderIn(ps).Some? then s.size == HeaderIn(ps).value.size
        else if Images(ps) == [] then s.size == Size(0, 0)
        else Images(ps)[|Images(ps)| - 1] == Image(Some(s.size)))
    && s.images == |Images(ps)|
    && s.animations == (if Motion(ps) == [] then 0 else 1)
    && s.frames + s.animations == |Motion(ps)|
    && s.duration == Duration(Motion(ps))
  }

  /** One turn of the source's loop, branch for branch. */
  method Advance(s: State, p: Part, first: bool, ghost front: seq<Part>) returns (ok: bool, t: State)
    requires Sound(front) && Counts(s, front) && first == (front == [])
    ensures ok <==> NextOk(front, p)
    ensures ok ==> Counts(t, front + [p])
  {
    t := s;
    Snoc(front, p);
    if front != [] {
      SnocHeader(front, p);
    }
    match p
    case Canvas(header) =>
      ok := first && header.Some?;
      if ok {
        t := t.(extended := true, animated := header.value.animated, size := header.value.size);
      }
    case Image(size) =>
      ok := size.Some? && !(s.extended && size.value != s.size);
      if ok {
        t := t.(images := s.images + 1, size := size.value);
      }
    case Opening(wellFormed) =>
      SnocMotion(Motion(front), p, HeaderIn(front));
      t := t.(animations := s.animations + 1);
      ok := !(!s.animated || t.animations != 1 || s.frames != 0 || !wellFormed);
    case Shot(place) =>
      SnocMotion(Motion(front), p, HeaderIn(front));
      t := t.(frames := s.frames + 1);
      if !s.animated || s.animations != 1 || t.frames > MAX_FRAMES || place == None {
        return false, t;
      }
      t := t.(duration := s.duration + place.value.ms);
      ok := !(place.value.right > s.size.width || place.value.bottom > s.size.height
              || place.value.ms < 10 || t.duration > MAX_DURATION);
    case Skip =>
      ok := true;
  }

  /** One pass over the chunks: None as soon as one of them rules the file out. */
  method Scan(cs: seq<Box>) returns (r: Option<State>)
    ensures r.Some? <==> Sound(Parts(cs))
    ensures r.Some? ==> Counts(r.value, Parts(cs))
  {
    var s := State(false, false, Size(0, 0), 0, 0, 0, 0);
    ghost var ps := Parts(cs);
    for i := 0 to |cs|
      invariant Sound(ps[..i]) && Counts(s, ps[..i])
    {
      var p := ReadPart(cs[i]);
      PartsAt(cs, i);
      var ok, t := Advance(s, p, i == 0, ps[..i]);
      if !ok {
        Rejected(ps, i, |cs|);
        assert ps[..|cs|] == ps;
        return None;
      }
      SoundStep(ps, i);
      assert ps[..i + 1] == ps[..i] + [p];
      s := t;
    }
    assert ps[..|cs|] == ps;
    r := Some(s);
  }

  lemma {:induction false} PartsAt(cs: seq<Box>, i: nat)
    requires i < |cs|
    ensures Parts(cs)[i] == PartOf(cs[i])
  {
    var front := cs[..|cs| - 1];
    if i < |front| {
      PartsAt(front, i);
    }
  }

  datatype Verdict = Invalid | TooLarge | Sticker(animated: bool)

  /** Accepts exactly the stickers of the format above; only the file size can make one "too large". */
  method InspectSticker(d: seq<byte>) returns (v: Verdict)
    ensures forall animated :: v == Sticker(animated) <==> Accepted(d, animated)
    ensures v == TooLarge <==>
      && Riff(d) && Chunks(d[12..]).Some?
      && (var ps := Parts(Chunks(d[12..]).value); StickerOk(ps, 0) && !StickerOk(ps, |d|))
  {
    if |d| < 20 || d[..4] != RIFF || d[8..12] != WEBP || LE(d[4..8]) + 8 != |d| {
      return Invalid;
    }
    var chunks := WebpChunks(d[12..]);
    if chunks == None {
      return Invalid;
    }
    var scanned := Scan(chunks.value);
    if scanned == None {
      return Invalid;
    }
    var s := scanned.value;
    if s.size != Size(512, 512) {
      return Invalid;
    }
    if (s.animated && (s.frames == 0 || s.images != 0))
      || (!s.animated && (s.images != 1 || s.frames != 0 || s.animations != 0)) {
      return Invalid;
    }
    var limit := if s.animated then ANIMATED_LIMIT else STILL_LIMIT;
    v := if |d| > limit then TooLarge else Sticker(s.animated);
  }

  /// What acceptance means

  lemma {:induction false} ShotsEach(motion: seq<Part>, canvas: Size, i: nat)
    requires motion != [] && ShotsOk(motion, canvas) && i < |motion|
    ensures if i == 0 then motion[0] == Opening(true) else ShotFits(motion[i], canvas)
  {
    if |motion| > 1 && i < |motion| - 1 {
      ShotsEach(motion[..|motion| - 1], canvas, i);
    }
  }

  lemma {:induction false} EveryShotIsInMotion(ps: seq<Part>, i: nat)
    requires i < |ps| && (ps[i].Opening? || ps[i].Shot?)
    ensures exists k :: 0 <= k < |Motion(ps)| && Motion(ps)[k] == ps[i]
  {
    var front := ps[..|ps| - 1];
    if i < |front| {
      EveryShotIsInMotion(front, i);
      var k :| 0 <= k < |Motion(front)| && Motion(front)[k] == ps[i];
      assert Motion(ps)[k] == ps[i];
    } else {
      assert Motion(ps)[|Motion(ps)| - 1] == ps[i];
    }
  }

  /** A frame chunk of an accepted sticker: on the canvas, at least 10 ms, one image of its own size. */
  ghost predicate GoodFrame(p: seq<byte>) {
    && |p| >= 16
    && (var w, h := LE(p[6..9]) + 1, LE(p[9..12]) + 1;
        && LE(p[..3]) * 2 + w <= SIDE && LE(p[3..6]) * 2 + h <= SIDE
        && LE(p[12..15]) >= 10
        && HoldsOneImage(p[16..], Size(w, h)))
  }

  lemma ShotOnCanvas(ps: seq<Part>, length: nat, i: nat)
    requires StickerOk(ps, length) && i < |ps| && ps[i].Shot?
    ensures Animated(ps) && ShotFits(ps[i], CANVAS)
  {
    EveryShotIsInMotion(ps, i);
    var k :| 0 <= k < |Motion(ps)| && Motion(ps)[k] == ps[i];
    ShotsEach(Motion(ps), CANVAS, k);
  }

  lemma ShotIsGood(b: Box, part: Part)
    requires b.name == ANMF && part == PartOf(b) && ShotFits(part, CANVAS)
    ensures GoodFrame(b.data)
  {
  }

  lemma FrameIsShot(b: Box, part: Part)
    requires b.name == ANMF && part == PartOf(b)
    ensures part.Shot?
  {
  }

  /** Every frame chunk of an accepted file is good, and no still file has one. */
  lemma FramesAreGood(cs: seq<Box>, length: nat, i: nat)
    requires StickerOk(Parts(cs), length) && i < |cs| && cs[i].name == ANMF
    ensures Animated(Parts(cs)) && GoodFrame(cs[i].data)
  {
    var ps := Parts(cs);
    PartsAt(cs, i);
    FrameIsShot(cs[i], ps[i]);
    ShotOnCanvas(ps, length, i);
    ShotIsGood(cs[i], ps[i]);
  }

  /** The frames number 1 to 120 and run for at most 10 s in all; a still has one 512x512 image instead. */
  lemma StickerIsBounded(ps: seq<Part>, length: nat)
    requires StickerOk(ps, length)
    ensures Animated(ps) ==>
      && Images(ps) == [] && 1 <= |Motion(ps)| - 1 <= 120 && Motion(ps)[0] == Opening(true)
      && (forall i :: 1 <= i < |Motion(ps)| ==> ShotFits(Motion(ps)[i], CANVAS))
      && 10 * (|Motion(ps)| - 1) <= Duration(Motion(ps)) <= 10_000
      && length <= 512_000
    ensures !Animated(ps) ==> Images(ps) == [Image(Some(CANVAS))] && Motion(ps) == [] && length <= 102_400
  {
    if Animated(ps) {
      var motion := Motion(ps);
      forall i | 0 <= i < |motion|
        ensures if i == 0 then motion[0] == Opening(true) else ShotFits(motion[i], CANVAS)
      {
        ShotsEach(motion, CANVAS, i);
      }
      EachTakesTenMs(motion, CANVAS);
    }
  }

  lemma {:induction false} EachTakesTenMs(motion: seq<Part>, canvas: Size)
    requires motion != [] && ShotsOk(motion, canvas)
    ensures 10 * (|motion| - 1) <= Duration(motion)
  {
    if |motion| > 1 {
      EachTakesTenMs(motion[..|motion| - 1], canvas);
    }
  }
}
