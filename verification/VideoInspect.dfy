/**
 InspectVideo (internal/media/advanced.go:67-165): an MP4 with one H.264 track and optional AAC audio.

 The format is stated as predicates over the boxes of a file, and the inspector proved to accept
 exactly the files that satisfy them.  Arithmetic is done as in the source, on wrapping 64-bit and
 32-bit words, and shown not to wrap.
 */
module VideoInspect {
  import opened Prelude
  import opened Containers

  // Box names, in ASCII.
  const FTYP: seq<byte> := [102, 116, 121, 112]
  const MDAT: seq<byte> := [109, 100, 97, 116]
  const MOOV: seq<byte> := [109, 111, 111, 118]
  const TRAK: seq<byte> := [116, 114, 97, 107]
  const MDIA: seq<byte> := [109, 100, 105, 97]
  const HDLR: seq<byte> := [104, 100, 108, 114]
  const MINF: seq<byte> := [109, 105, 110, 102]
  const STBL: seq<byte> := [115, 116, 98, 108]
  const STSD: seq<byte> := [115, 116, 115, 100]
  const MDHD: seq<byte> := [109, 100, 104, 100]
  const AVC1: seq<byte> := [97, 118, 99, 49]
  const AVCC: seq<byte> := [97, 118, 99, 67]
  const MP4A: seq<byte> := [109, 112, 52, 97]
  const VIDE: seq<byte> := [118, 105, 100, 101]
  const SOUN: seq<byte> := [115, 111, 117, 110]

  /// The format accepted

  /** The single sample description of a track, if its tables are in order. */
  function SampleEntry(mdia: seq<byte>): Option<Box> {
    match Child(mdia, MINF)
    case None => None
    case Some(minf) =>
      match Child(minf, STBL)
      case None => None
      case Some(stbl) =>
        match Child(stbl, STSD)
        case None => None
        case Some(stsd) =>
          if |stsd| < 8 || BE(stsd[4..8]) != 1 then None
          else
            match Parse(stsd[8..])
            case None => None
            case Some(entries) => if |entries| == 1 then Some(entries[0]) else None
  }

  /** Time scale and duration of a media header, versions 0 and 1. */
  function Timing(mdhd: seq<byte>): Option<(nat, nat)> {
    if |mdhd| < 20 then None
    else if mdhd[0] == 0 then Some((BE(mdhd[12..16]), BE(mdhd[16..20])))
    else if mdhd[0] == 1 && |mdhd| >= 32 then Some((BE(mdhd[20..24]), BE(mdhd[24..32])))
    else None
  }

  datatype Video = Video(width: nat, height: nat, seconds: nat)

  ghost predicate IsAudio(mdia: seq<byte>) {
    && Child(mdia, HDLR).Some? && |Child(mdia, HDLR).value| >= 12 && Child(mdia, HDLR).value[8..12] == SOUN
    && SampleEntry(mdia).Some? && SampleEntry(mdia).value.name == MP4A && |SampleEntry(mdia).value.data| >= 28
  }

  /** `seconds` is duration/scale rounded up, without any wrap-around. */
  ghost predicate RoundedUp(seconds: int, duration: nat, scale: nat) {
    (seconds - 1) * scale < duration <= seconds * scale
  }

  ghost predicate IsVideo(mdia: seq<byte>, v: Video) {
    && Child(mdia, HDLR).Some? && |Child(mdia, HDLR).value| >= 12 && Child(mdia, HDLR).value[8..12] == VIDE
    && SampleEntry(mdia).Some? && SampleEntry(mdia).value.name == AVC1
    && (var entry := SampleEntry(mdia).value.data;
        && |entry| >= 78
        && (var avcc := Child(entry[78..], AVCC); avcc.Some? && |avcc.value| >= 7 && avcc.value[0] == 1)
        && v.width == BE(entry[24..26]) && 1 <= v.width <= 4096
        && v.height == BE(entry[26..28]) && 1 <= v.height <= 4096)
    && (var mdhd := Child(mdia, MDHD);
        && mdhd.Some? && Timing(mdhd.value).Some?
        && (var (scale, duration) := Timing(mdhd.value).value;
            && 0 < scale && 0 < duration <= 3600 * scale
            && RoundedUp(v.seconds, duration, scale)))
  }

  /// One track

  datatype Track = Bad | Audio | Picture(v: Video)

  lemma CeilUnique(s: int, t: int, duration: nat, scale: nat)
    requires RoundedUp(s, duration, scale) && RoundedUp(t, duration, scale)
    ensures s == t
  {
  }

  lemma CeilAtMostHour(seconds: int, duration: nat, scale: nat)
    requires 0 < duration <= 3600 * scale && RoundedUp(seconds, duration, scale)
    ensures 1 <= seconds <= 3600
  {
  }

  /** No step of the length arithmetic wraps around. */
  lemma NoWrap(duration: nat, scale: nat)
    requires 0 < scale < U32 && duration < U64
    ensures scale * 3600 % U64 == 3600 * scale
    ensures duration <= 3600 * scale ==> (duration + scale - 1) % U64 == duration + scale - 1
  {
  }

  /** Timing as the source reads it. */
  method ReadTiming(mdhd: seq<byte>) returns (r: Option<(nat, nat)>)
    ensures r == Timing(mdhd)
    ensures r.Some? ==> r.value.0 < U32 && r.value.1 < U64
  {
    if |mdhd| < 20 {
      return None;
    }
    if mdhd[0] == 0 {
      WordBounds(mdhd[12..16]);
      WordBounds(mdhd[16..20]);
      return Some((BE(mdhd[12..16]), BE(mdhd[16..20])));
    }
    if mdhd[0] == 1 && |mdhd| >= 32 {
      WordBounds(mdhd[20..24]);
      WordBounds(mdhd[24..32]);
      return Some((BE(mdhd[20..24]), BE(mdhd[24..32])));
    }
    r := None;
  }

  /** The length check and the rounding, on 64-bit words; None for a rejected duration. */
  method Seconds(scale: nat, duration: nat) returns (r: Option<nat>)
    requires scale < U32 && duration < U64
    ensures r.Some? <==> 0 < scale && 0 < duration <= 3600 * scale
    ensures r.Some? ==> 1 <= r.value <= 3600 && RoundedUp(r.value, duration, scale)
  {
    if scale == 0 {
      return None;
    }
    NoWrap(duration, scale);
    if duration == 0 || duration > scale * 3600 % U64 {
      return None;
    }
    var seconds := (duration + scale - 1) % U64 / scale;
    CeilAtMostHour(seconds, duration, scale);
    r := Some(seconds % U32);
  }

  /** SampleEntry as the source finds it, child by child. */
  method FindSampleEntry(mdia: seq<byte>) returns (r: Option<Box>)
    ensures r == SampleEntry(mdia)
  {
    var minf := FindChild(mdia, MINF);
    if minf == None {
      return None;
    }
    var stbl := FindChild(minf.value, STBL);
    if stbl == None {
      return None;
    }
    var stsd := FindChild(stbl.value, STSD);
    if stsd == None || |stsd.value| < 8 || BE(stsd.value[4..8]) != 1 {
      return None;
    }
    var entries := Boxes(stsd.value[8..]);
    if entries == None || |entries.value| != 1 {
      return None;
    }
    r := Some(entries.value[0]);
  }

  method InspectTrack(data: seq<byte>) returns (r: Track)
    ensures r == Audio <==> Child(data, MDIA).Some? && IsAudio(Child(data, MDIA).value)
    ensures forall v :: r == Picture(v) <==> Child(data, MDIA).Some? && IsVideo(Child(data, MDIA).value, v)
  {
    var mdia := FindChild(data, MDIA);
    if mdia == None {
      return Bad;
    }
    var hdlr := FindChild(mdia.value, HDLR);
    if hdlr == None || |hdlr.value| < 12 {
      return Bad;
    }
    var handler := hdlr.value[8..12];
    if handler != VIDE && handler != SOUN {
      return Bad;
    }
    var entry := FindSampleEntry(mdia.value);
    if entry == None {
      return Bad;
    }
    if handler == SOUN {
      return if entry.value.name == MP4A && |entry.value.data| >= 28 then Audio else Bad;
    }
    r := InspectPicture(mdia.value, entry.value);
  }

  method InspectPicture(mdia: seq<byte>, entry: Box) returns (r: Track)
    requires Child(mdia, HDLR).Some? && |Child(mdia, HDLR).value| >= 12 && Child(mdia, HDLR).value[8..12] == VIDE
    requires SampleEntry(mdia) == Some(entry)
    ensures !r.Audio?
    ensures forall v :: r == Picture(v) <==> IsVideo(mdia, v)
  {
    if entry.name != AVC1 || |entry.data| < 78 {
      return Bad;
    }
    var avcc := FindChild(entry.data[78..], AVCC);
    if avcc == None || |avcc.value| < 7 || avcc.value[0] != 1 {
      return Bad;
    }
    var width, height := BE(entry.data[24..26]), BE(entry.data[26..28]);
    if width == 0 || height == 0 || width > 4096 || height > 4096 {
      return Bad;
    }
    var mdhd := FindChild(mdia, MDHD);
    if mdhd == None {
      return Bad;
    }
    var timing := ReadTiming(mdhd.value);
    if timing == None {
      return Bad;
    }
    var seconds := Seconds(timing.value.0, timing.value.1);
    if seconds == None {
      return Bad;
    }
    r := Picture(Video(width, height, seconds.value));
    forall v | IsVideo(mdia, v) ensures v == r.v {
      CeilUnique(v.seconds, seconds.value, timing.value.1, timing.value.0);
    }
  }

  /// The whole file

  ghost predicate TrackIs(b: Box, t: Track) {
    match t
    case Bad => false
    case Audio => Child(b.data, MDIA).Some? && IsAudio(Child(b.data, MDIA).value)
    case Picture(v) => Child(b.data, MDIA).Some? && IsVideo(Child(b.data, MDIA).value, v)
  }

  /** Reading the tracks in order: every 'trak' is audio or video, at most one of each. */
  ghost predicate Tracks(bs: seq<Box>, video: Option<Video>, audio: bool) {
    if bs == [] then video == None && !audio
    else
      var front, last := bs[..|bs| - 1], bs[|bs| - 1];
      if last.name != TRAK then Tracks(front, video, audio)
      else
        || (audio && TrackIs(last, Audio) && Tracks(front, video, false))
        || (video.Some? && TrackIs(last, Picture(video.value)) && Tracks(front, None, audio))
  }

  ghost predicate Accepted(d: seq<byte>, v: Video) {
    && (var ftyp := Child(d, FTYP); ftyp.Some? && |ftyp.value| >= 8 && |ftyp.value| % 4 == 0)
    && (var mdat := Child(d, MDAT); mdat.Some? && mdat.value != [])
    && (var moov := Child(d, MOOV);
        moov.Some? && Parse(moov.value).Some? && exists audio :: Tracks(Parse(moov.value).value, Some(v), audio))
  }

  lemma {:induction false} TracksUnique(bs: seq<Box>, v: Option<Video>, a: bool, w: Option<Video>, b: bool)
    requires Tracks(bs, v, a) && Tracks(bs, w, b)
    ensures v == w && a == b
  {
    if bs == [] {
    } else {
      var front, last := bs[..|bs| - 1], bs[|bs| - 1];
      if last.name != TRAK {
        TracksUnique(front, v, a, w, b);
      } else {
        if TrackIs(last, Audio) {
          TracksUnique(front, v, false, w, false);
        } else {
          PictureUnique(last, v.value, w.value);
          TracksUnique(front, None, a, None, b);
        }
      }
    }
  }

  lemma PictureUnique(b: Box, v: Video, w: Video)
    requires TrackIs(b, Picture(v)) && TrackIs(b, Picture(w))
    ensures v == w
  {
    var timing := Timing(Child(Child(b.data, MDIA).value, MDHD).value).value;
    CeilUnique(v.seconds, w.seconds, timing.1, timing.0);
  }

  lemma {:induction false} NoTracksBefore(bs: seq<Box>, i: nat)
    requires i <= |bs| && forall v, a :: !Tracks(bs[..i], v, a)
    ensures forall v, a :: !Tracks(bs, v, a)
    decreases |bs| - i
  {
    if i == |bs| {
      assert bs[..i] == bs;
    } else {
      assert bs[..i + 1][..i] == bs[..i];
      NoTracksBefore(bs, i + 1);
    }
  }

  /** Accepts exactly the files of the format above, and reports their one video track. */
  method InspectVideo(d: seq<byte>) returns (r: Option<Video>)
    ensures forall v :: r == Some(v) <==> Accepted(d, v)
  {
    var ftyp := FindChild(d, FTYP);
    if ftyp == None || |ftyp.value| < 8 || |ftyp.value| % 4 != 0 {
      return None;
    }
    var mdat := FindChild(d, MDAT);
    if mdat == None || |mdat.value| == 0 {
      return None;
    }
    var moov := FindChild(d, MOOV);
    if moov == None {
      return None;
    }
    var tracks := Boxes(moov.value);
    if tracks == None {
      return None;
    }
    var ok, video, audio := InspectTracks(tracks.value);
    if !ok || video == None {
      forall v ensures !Accepted(d, v) {
        if ok && exists a :: Tracks(tracks.value, Some(v), a) {
          var a :| Tracks(tracks.value, Some(v), a);
          TracksUnique(tracks.value, video, audio, Some(v), a);
        }
      }
      return None;
    }
    r := video;
    forall v | Accepted(d, v) ensures Some(v) == video {
      var a :| Tracks(tracks.value, Some(v), a);
      TracksUnique(tracks.value, video, audio, Some(v), a);
    }
  }

  method InspectTracks(bs: seq<Box>) returns (ok: bool, video: Option<Video>, audio: bool)
    ensures ok ==> Tracks(bs, video, audio)
    ensures !ok ==> forall v, a :: !Tracks(bs, v, a)
  {
    video, audio := None, false;
    for i := 0 to |bs|
      invariant Tracks(bs[..i], video, audio)
    {
      ghost var before := bs[..i];
      assert bs[..i + 1][..i] == before;
      if bs[i].name == TRAK {
        var track := InspectTrack(bs[i].data);
        if (track.Audio? && !audio) || (track.Picture? && video == None) {
          if track.Audio? {
            audio := true;
          } else {
            video := Some(track.v);
          }
        } else {
          RejectTrack(bs[..i + 1], video, audio, track);
          NoTracksBefore(bs, i + 1);
          return false, None, false;
        }
      }
    }
    assert bs[..|bs|] == bs;
    ok := true;
  }

  lemma RejectTrack(bs: seq<Box>, video: Option<Video>, audio: bool, track: Track)
    requires bs != [] && bs[|bs| - 1].name == TRAK && Tracks(bs[..|bs| - 1], video, audio)
    requires forall t: Track :: TrackIs(bs[|bs| - 1], t) <==> t == track && !t.Bad?
    requires !(track.Audio? && !audio) && !(track.Picture? && video == None)
    ensures forall v, a :: !Tracks(bs, v, a)
  {
    var front := bs[..|bs| - 1];
    forall v, a ensures !Tracks(bs, v, a) {
      if Tracks(bs, v, a) {
        if track.Audio? {
          TracksUnique(front, video, audio, v, false);
        } else {
          TracksUnique(front, video, audio, None, a);
        }
      }
    }
  }

  /** An accepted video lasts 1 to 3600 s, rounded up from its media header, and measures 1 to 4096 each way. */
  lemma {:induction false} AcceptedVideoIsBounded(bs: seq<Box>, v: Video, audio: bool)
    requires Tracks(bs, Some(v), audio)
    ensures exists b :: b in bs && b.name == TRAK && TrackIs(b, Picture(v))
    ensures 1 <= v.seconds <= 3600 && 1 <= v.width <= 4096 && 1 <= v.height <= 4096
  {
    var front, last := bs[..|bs| - 1], bs[|bs| - 1];
    assert bs == front + [last];
    if last.name == TRAK && TrackIs(last, Picture(v)) && Tracks(front, None, audio) {
      var (scale, duration) := Timing(Child(Child(last.data, MDIA).value, MDHD).value).value;
      CeilAtMostHour(v.seconds, duration, scale);
    } else if last.name == TRAK {
      AcceptedVideoIsBounded(front, v, false);
    } else {
      AcceptedVideoIsBounded(front, v, audio);
    }
  }
}
