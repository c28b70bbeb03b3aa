/**
 MP4 boxes (ISO/IEC 14496-12 section 4.2) and WebP chunks (section 2.3 of RFC 9649), as internal/media/advanced.go
 parses them.  Each parser is the exact inverse of writing: it accepts precisely what can be written, and returns it. */
module Containers {
  import opened Prelude

  /// Fixed-width numbers

  /** Big-endian value of a whole word. */
  function BE(d: seq<byte>): nat {
    if d == [] then 0 else BE(d[..|d| - 1]) * 0x100 + d[|d| - 1]
  }

  /** Little-endian value of a whole word. */
  function LE(d: seq<byte>): nat {
    if d == [] then 0 else d[0] + 0x100 * LE(d[1..])
  }

  function Pow256(width: nat): nat {
    if width == 0 then 1 else 0x100 * Pow256(width - 1)
  }

  const U32 := 0x1_0000_0000
  const U64 := 0x1_0000_0000_0000_0000

  function EncodeBE(n: nat, width: nat): (d: seq<byte>)
    ensures |d| == width
  {
    if width == 0 then [] else EncodeBE(n / 0x100, width - 1) + [n % 0x100]
  }

  function EncodeLE(n: nat, width: nat): (d: seq<byte>)
    ensures |d| == width
  {
    if width == 0 then [] else [n % 0x100] + EncodeLE(n / 0x100, width - 1)
  }

  lemma {:induction false} BERoundTrip(n: nat, width: nat)
    requires n < Pow256(width)
    ensures BE(EncodeBE(n, width)) == n
  {
    if width == 0 {
    } else {
      BERoundTrip(n / 0x100, width - 1);
      var d := EncodeBE(n, width);
      assert d[..width - 1] == EncodeBE(n / 0x100, width - 1);
    }
  }

  lemma {:induction false} LERoundTrip(n: nat, width: nat)
    requires n < Pow256(width)
    ensures LE(EncodeLE(n, width)) == n
  {
    if width == 0 {
    } else {
      LERoundTrip(n / 0x100, width - 1);
      var d := EncodeLE(n, width);
      assert d[1..] == EncodeLE(n / 0x100, width - 1);
    }
  }

  lemma {:induction false} BEUnique(d: seq<byte>)
    ensures BE(d) < Pow256(|d|) && EncodeBE(BE(d), |d|) == d
  {
    if d == [] {
    } else {
      var front, last := d[..|d| - 1], d[|d| - 1];
      BEUnique(front);
      assert BE(d) / 0x100 == BE(front) && BE(d) % 0x100 == last;
      assert d == front + [last];
    }
  }

  lemma {:induction false} LEUnique(d: seq<byte>)
    ensures LE(d) < Pow256(|d|) && EncodeLE(LE(d), |d|) == d
  {
    if d == [] {
    } else {
      LEUnique(d[1..]);
      assert LE(d) / 0x100 == LE(d[1..]) && LE(d) % 0x100 == d[0];
    }
  }

  /** Every value of a word of at most eight bytes fits in 64 bits. */
  lemma WordBounds(d: seq<byte>)
    ensures |d| == 2 ==> BE(d) < 0x1_0000 && LE(d) < 0x1_0000
    ensures |d| == 3 ==> LE(d) < 0x100_0000
    ensures |d| == 4 ==> BE(d) < U32 && LE(d) < U32
    ensures |d| == 8 ==> BE(d) < U64
  {
    BEUnique(d);
    LEUnique(d);
  }

  lemma LEStep(d: seq<byte>, k: nat)
    requires k < |d|
    ensures LE(d[k..]) == d[k] + 0x100 * LE(d[k + 1..])
  {
    assert d[k..][1..] == d[k + 1..];
  }

  lemma BEStep(d: seq<byte>, k: nat)
    requires k < |d|
    ensures BE(d[..k + 1]) == 0x100 * BE(d[..k]) + d[k]
  {
    assert d[..k + 1][..k] == d[..k];
  }

  /** The least significant octet of a little-endian word comes first. */
  lemma LEValues(d: seq<byte>)
    ensures |d| == 2 ==> LE(d) == d[0] as int + 0x100 * d[1] as int
    ensures |d| == 3 ==> LE(d) == d[0] as int + 0x100 * d[1] as int + 0x1_0000 * d[2] as int
    ensures |d| == 4 ==>
      LE(d) == d[0] as int + 0x100 * d[1] as int + 0x1_0000 * d[2] as int + 0x100_0000 * d[3] as int
  {
    assert d == d[0..];
    if 2 <= |d| <= 4 {
      LEStep(d, 0);
      LEStep(d, 1);
      if |d| >= 3 { LEStep(d, 2); }
      if |d| == 4 { LEStep(d, 3); }
      assert d[|d|..] == [];
    }
  }

  lemma BEHalf(d: seq<byte>, k: nat)
    requires k + 4 <= |d|
    ensures BE(d[..k + 4]) == 0x1_0000_0000 * BE(d[..k])
      + 0x100_0000 * d[k] as int + 0x1_0000 * d[k + 1] as int + 0x100 * d[k + 2] as int + d[k + 3] as int
  {
    BEStep(d, k);
    BEStep(d, k + 1);
    BEStep(d, k + 2);
    BEStep(d, k + 3);
  }

  lemma BEHalves(d: seq<byte>)
    requires |d| == 8
    ensures BE(d) == 0x1_0000_0000 * BE(d[..4]) + BE(d[4..])
  {
    BEHalf(d, 4);
    BEHalf(d[4..], 0);
    assert d[..8] == d && d[4..][..4] == d[4..];
  }

  /** The most significant octet of a big-endian word comes first. */
  lemma BEValues(d: seq<byte>)
    requires |d| == 2 || |d| == 4 || |d| == 8
    ensures |d| == 2 ==> BE(d) == 0x100 * d[0] as int + d[1] as int
    ensures |d| == 4 ==>
      BE(d) == 0x100_0000 * d[0] as int + 0x1_0000 * d[1] as int + 0x100 * d[2] as int + d[3] as int
    ensures |d| == 8 ==> BE(d) == 0x1_0000_0000 * BE(d[..4]) + BE(d[4..])
  {
    assert d[..|d|] == d && BE(d[..0]) == 0;
    if |d| == 8 {
      BEHalves(d);
    } else {
      BEStep(d, 0);
      BEStep(d, 1);
      if |d| == 4 {
        BEStep(d, 2);
        BEStep(d, 3);
      }
    }
  }

  /** A chunk or box name as text. */
  function Ascii(s: string): (d: seq<byte>)
    requires forall i :: 0 <= i < |s| ==> s[i] as int < 128
    ensures |d| == |s| && forall i :: 0 <= i < |s| ==> d[i] == s[i] as int
  {
    seq(|s|, i requires 0 <= i < |s| => s[i] as int)
  }

  datatype Box = Box(name: seq<byte>, data: seq<byte>)

  const MAX_BOXES := 4096

  function Cons(b: Box, rest: Option<seq<Box>>): Option<seq<Box>> {
    match rest
    case None => None
    case Some(bs) => Some([b] + bs)
  }

  lemma ConcatNil(rest: Option<seq<Box>>)
    ensures Concat([], rest) == rest
  {
    if rest.Some? {
      assert [] + rest.value == rest.value;
    }
  }

  function Concat(out: seq<Box>, rest: Option<seq<Box>>): Option<seq<Box>> {
    match rest
    case None => None
    case Some(bs) => Some(out + bs)
  }

  /// MP4 boxes

  /** Declared size and header length of the first box, as unsigned 64-bit numbers. */
  function BoxExtent(d: seq<byte>): (r: Option<(nat, nat)>)
    requires |d| >= 8
    ensures r.Some? ==> r.value.1 <= r.value.0 <= |d| && r.value.1 >= 8
  {
    var size := BE(d[..4]);
    if size == 1 && |d| < 16 then None
    else
      var header := if size == 1 then 16 else 8;
      var total := if size == 1 then BE(d[8..16]) else if size == 0 then |d| else size;
      if total < header || total > |d| then None else Some((total, header))
  }

  function ParseFrom(d: seq<byte>, count: nat): Option<seq<Box>>
    decreases |d|
  {
    if d == [] then Some([])
    else if |d| < 8 || count >= MAX_BOXES then None
    else
      match BoxExtent(d)
      case None => None
      case Some((size, header)) => Cons(Box(d[4..8], d[header..size]), ParseFrom(d[size..], count + 1))
  }

  function Parse(d: seq<byte>): Option<seq<Box>> {
    ParseFrom(d, 0)
  }

  lemma ConcatCons(out: seq<Box>, b: Box, rest: Option<seq<Box>>)
    ensures Concat(out, Cons(b, rest)) == Concat(out + [b], rest)
  {
    if rest.Some? {
      assert out + ([b] + rest.value) == (out + [b]) + rest.value;
    }
  }

  /** Every length is checked before slicing. */
  method ReadExtent(data: seq<byte>) returns (r: Option<(nat, nat)>)
    requires |data| >= 8
    ensures r == BoxExtent(data)
  {
    var size, header := BE(data[..4]), 8;
    if size == 1 {
      if |data| < 16 {
        return None;
      }
      size, header := BE(data[8..16]), 16;
    } else if size == 0 {
      size := |data|;
    }
    if size < header || size > |data| {
      return None;
    }
    r := Some((size, header));
  }

  method Boxes(d: seq<byte>) returns (r: Option<seq<Box>>)
    ensures r == Parse(d)
  {
    var data, out := d, [];
    ConcatNil(Parse(d));
    while |data| > 0
      invariant Parse(d) == Concat(out, ParseFrom(data, |out|))
      decreases |data|
    {
      if |data| < 8 || |out| >= MAX_BOXES {
        return None;
      }
      var extent := ReadExtent(data);
      if extent == None {
        return None;
      }
      var (size, header) := extent.value;
      var b := Box(data[4..8], data[header..size]);
      ConcatCons(out, b, ParseFrom(data[size..], |out| + 1));
      out := out + [b];
      data := data[size..];
    }
    assert data == [] && out + [] == out;
    r := Some(out);
  }

  /**
   The three ways to state a box's size: 32 bits, 64 bits, or "to the end" (the last box only).
   Each form carries its own size word, which BEUnique shows the size determines.
   */
  datatype Form = Short(word: seq<byte>) | Long(word: seq<byte>) | ToEnd

  predicate FormFits(b: Box, f: Form) {
    && |b.name| == 4
    && match f
       case Short(word) => |word| == 4 && BE(word) == 8 + |b.data|
       case Long(word) => |word| == 8 && BE(word) == 16 + |b.data|
       case ToEnd => true
  }

  function FirstWord(f: Form): seq<byte> {
    match f
    case Short(word) => word
    case Long(_) => [0, 0, 0, 1]
    case ToEnd => [0, 0, 0, 0]
  }

  function SecondWord(f: Form): seq<byte> {
    if f.Long? then f.word else []
  }

  function WriteBox(b: Box, f: Form): (d: seq<byte>) {
    FirstWord(f) + b.name + SecondWord(f) + b.data
  }

  /** A box can be written in every form its size has room for, and in only one way per form. */
  lemma FormsOf(name: seq<byte>, data: seq<byte>)
    requires |name| == 4
    ensures (exists f: Form :: f.Short? && FormFits(Box(name, data), f)) <==> 8 + |data| < U32
    ensures (exists f: Form :: f.Long? && FormFits(Box(name, data), f)) <==> 16 + |data| < U64
    ensures forall f: Form, g: Form | FormFits(Box(name, data), f) && FormFits(Box(name, data), g) ::
      f.Short? == g.Short? && f.Long? == g.Long? ==> f == g
  {
    var b := Box(name, data);
    forall f: Form | FormFits(b, f)
      ensures f.Short? ==> 8 + |data| < U32 && f == Short(EncodeBE(8 + |data|, 4))
      ensures f.Long? ==> 16 + |data| < U64 && f == Long(EncodeBE(16 + |data|, 8))
    {
      if f.Short? || f.Long? {
        BEUnique(f.word);
      }
    }
    if 8 + |data| < U32 {
      BERoundTrip(8 + |data|, 4);
      assert FormFits(b, Short(EncodeBE(8 + |data|, 4)));
    }
    if 16 + |data| < U64 {
      BERoundTrip(16 + |data|, 8);
      assert FormFits(b, Long(EncodeBE(16 + |data|, 8)));
    }
  }

  predicate Writable(bs: seq<Box>, forms: seq<Form>) {
    if bs == [] then forms == []
    else
      && forms != [] && FormFits(bs[0], forms[0]) && (forms[0].ToEnd? ==> |bs| == 1)
      && Writable(bs[1..], forms[1..])
  }

  function Write(bs: seq<Box>, forms: seq<Form>): seq<byte>
    requires Writable(bs, forms)
  {
    if bs == [] then [] else WriteBox(bs[0], forms[0]) + Write(bs[1..], forms[1..])
  }

  ghost predicate ReadsAs(d: seq<byte>, b: Box, size: nat, header: nat, rest: seq<byte>) {
    && 8 <= header <= size <= |d| && BoxExtent(d) == Some((size, header))
    && d[4..8] == b.name && d[header..size] == b.data && d[size..] == rest
  }

  lemma ConstantWords()
    ensures BE([0, 0, 0, 0]) == 0 && BE([0, 0, 0, 1]) == 1
  {
    assert [0, 0, 0, 0][..3] == [0, 0, 0] && [0, 0, 0, 1][..3] == [0, 0, 0];
    assert [0, 0, 0][..2] == [0, 0] && [0, 0][..1] == [0] && [0][..0] == [];
  }

  lemma Slices(head: seq<byte>, name: seq<byte>, tail: seq<byte>, data: seq<byte>, rest: seq<byte>)
    requires |head| == 4 && |name| == 4
    ensures var w := head + name + tail + data; var d := w + rest;
      && d[..4] == head && d[4..8] == name && d[8..8 + |tail|] == tail
      && d[8 + |tail|..|w|] == data && d[|w|..] == rest
  {
  }

  /** Reading back one written box, followed by anything (by nothing, for "to the end"). */
  lemma ReadWrittenBox(b: Box, f: Form, rest: seq<byte>)
    requires FormFits(b, f) && (f.ToEnd? ==> rest == [])
    ensures var header := if f.Long? then 16 else 8;
      ReadsAs(WriteBox(b, f) + rest, b, header + |b.data|, header, rest)
  {
    ConstantWords();
    Slices(FirstWord(f), b.name, SecondWord(f), b.data, rest);
  }

  lemma ZeroOrOne(d: seq<byte>)
    requires |d| == 4
    ensures BE(d) == 0 ==> d == [0, 0, 0, 0]
    ensures BE(d) == 1 ==> d == [0, 0, 0, 1]
  {
    BEUnique(d);
    ConstantWords();
    BEUnique([0, 0, 0, 0]);
    BEUnique([0, 0, 0, 1]);
  }

  lemma ParseWritten(b: Box, f: Form, rest: seq<byte>, count: nat)
    requires FormFits(b, f) && (f.ToEnd? ==> rest == []) && count < MAX_BOXES
    ensures ParseFrom(WriteBox(b, f) + rest, count) == Cons(b, ParseFrom(rest, count + 1))
  {
    var header := if f.Long? then 16 else 8;
    ReadWrittenBox(b, f, rest);
  }

  lemma WriteCons(b: Box, f: Form, bs: seq<Box>, forms: seq<Form>)
    requires FormFits(b, f) && (f.ToEnd? ==> bs == []) && Writable(bs, forms)
    ensures Writable([b] + bs, [f] + forms)
    ensures Write([b] + bs, [f] + forms) == WriteBox(b, f) + Write(bs, forms)
  {
    assert ([b] + bs)[1..] == bs && ([f] + forms)[1..] == forms;
  }

  lemma ConsInverts(b: Box, f: Form, bs: seq<Box>, forms: seq<Form>, count: nat)
    requires FormFits(b, f) && (f.ToEnd? ==> bs == []) && Writable(bs, forms) && count < MAX_BOXES
    requires ParseFrom(Write(bs, forms), count + 1) == Some(bs)
    ensures Writable([b] + bs, [f] + forms) && ParseFrom(Write([b] + bs, [f] + forms), count) == Some([b] + bs)
  {
    WriteCons(b, f, bs, forms);
    ParseWritten(b, f, Write(bs, forms), count);
  }

  lemma {:induction false} ParseInvertsWrite(bs: seq<Box>, forms: seq<Form>, count: nat)
    requires Writable(bs, forms) && count + |bs| <= MAX_BOXES
    ensures ParseFrom(Write(bs, forms), count) == Some(bs)
    decreases |bs|
  {
    if bs == [] {
    } else {
      var b, f, rest, more := bs[0], forms[0], bs[1..], forms[1..];
      assert [b] + rest == bs && [f] + more == forms;
      ParseInvertsWrite(rest, more, count + 1);
      ConsInverts(b, f, rest, more, count);
    }
  }

  lemma CutLong(d: seq<byte>, size: nat)
    requires 16 <= size <= |d|
    ensures d == d[..4] + d[4..8] + d[8..16] + d[16..size] + d[size..]
  {
  }

  lemma CutShort(d: seq<byte>, size: nat)
    requires 8 <= size <= |d|
    ensures d == d[..4] + d[4..8] + [] + d[8..size] + d[size..]
  {
  }

  /** Every box the parser takes off the front was written in one of the three forms. */
  lemma TakeFront(d: seq<byte>, count: nat) returns (b: Box, f: Form, rest: seq<byte>)
    requires d != [] && ParseFrom(d, count).Some?
    ensures FormFits(b, f) && (f.ToEnd? ==> rest == []) && count < MAX_BOXES
    ensures |rest| < |d| && d == WriteBox(b, f) + rest
    ensures ParseFrom(rest, count + 1).Some? && ParseFrom(d, count).value == [b] + ParseFrom(rest, count + 1).value
  {
    var (size, header) := BoxExtent(d).value;
    b, rest := Box(d[4..8], d[header..size]), d[size..];
    ZeroOrOne(d[..4]);
    if BE(d[..4]) == 1 {
      f := Long(d[8..16]);
      CutLong(d, size);
    } else {
      f := if BE(d[..4]) == 0 then ToEnd else Short(d[..4]);
      CutShort(d, size);
    }
  }

  lemma {:induction false} ParseTiles(d: seq<byte>, count: nat) returns (forms: seq<Form>)
    requires ParseFrom(d, count).Some?
    ensures var bs := ParseFrom(d, count).value;
      Writable(bs, forms) && Write(bs, forms) == d && (d == [] || count + |bs| <= MAX_BOXES)
    decreases |d|
  {
    if d == [] {
      forms := [];
    } else {
      var b, f, rest := TakeFront(d, count);
      var tail := ParseTiles(rest, count + 1);
      WriteCons(b, f, ParseFrom(rest, count + 1).value, tail);
      forms := [f] + tail;
    }
  }

  /**
   Parsing is the exact inverse of writing: it succeeds with bs precisely when the input is bs,
   at most 4096 of them, written in some choice of forms; so a successful parse tiles its input.
   */
  lemma ParseIffWritten(d: seq<byte>, bs: seq<Box>)
    ensures Parse(d) == Some(bs) <==>
      |bs| <= 4096 && exists forms :: Writable(bs, forms) && Write(bs, forms) == d
  {
    if Parse(d) == Some(bs) {
      var forms := ParseTiles(d, 0);
      assert Writable(bs, forms) && Write(bs, forms) == d;
    }
    if |bs| <= 4096 && exists forms :: Writable(bs, forms) && Write(bs, forms) == d {
      var forms :| Writable(bs, forms) && Write(bs, forms) == d;
      ParseInvertsWrite(bs, forms, 0);
    }
  }

  /// Named children

  function Named(bs: seq<Box>, name: seq<byte>): seq<seq<byte>> {
    if bs == [] then []
    else
      var before := Named(bs[..|bs| - 1], name);
      if bs[|bs| - 1].name == name then before + [bs[|bs| - 1].data] else before
  }

  /** The contents of the one child of that name; none if it is missing, repeated, or the input malformed. */
  function Child(d: seq<byte>, name: seq<byte>): Option<seq<byte>> {
    match Parse(d)
    case None => None
    case Some(bs) => if |Named(bs, name)| == 1 then Some(Named(bs, name)[0]) else None
  }

  /** The one box of this name. */
  predicate OnlyAt(bs: seq<Box>, name: seq<byte>, k: nat) {
    k < |bs| && bs[k].name == name && forall j :: 0 <= j < |bs| && j != k ==> bs[j].name != name
  }

  lemma {:induction false} NoneNamed(bs: seq<Box>, name: seq<byte>)
    ensures Named(bs, name) == [] <==> forall j :: 0 <= j < |bs| ==> bs[j].name != name
  {
    if bs == [] {
    } else {
      var front, last := bs[..|bs| - 1], bs[|bs| - 1];
      NoneNamed(front, name);
      assert bs == front + [last];
    }
  }

  lemma {:induction false} OneNamed(bs: seq<Box>, name: seq<byte>, data: seq<byte>)
    ensures Named(bs, name) == [data] <==> exists k: nat :: OnlyAt(bs, name, k) && bs[k].data == data
  {
    if bs == [] {
    } else {
      var front, last := bs[..|bs| - 1], bs[|bs| - 1];
      NoneNamed(front, name);
      OneNamed(front, name, data);
      if last.name == name {
        assert forall k: nat :: OnlyAt(bs, name, k) ==> k == |front|;
        assert Named(bs, name)[|Named(front, name)|] == last.data;
        assert Named(front, name) == [] ==> OnlyAt(bs, name, |front|);
      } else {
        assert forall k: nat :: OnlyAt(bs, name, k) ==> OnlyAt(front, name, k);
        assert forall k: nat :: OnlyAt(front, name, k) ==> OnlyAt(bs, name, k);
      }
    }
  }

  /** A child is found exactly when the boxes can be parsed and just one of them has its name. */
  lemma ChildIff(d: seq<byte>, name: seq<byte>, data: seq<byte>)
    ensures Child(d, name) == Some(data) <==>
      Parse(d).Some? && exists k: nat :: OnlyAt(Parse(d).value, name, k) && Parse(d).value[k].data == data
  {
    if Parse(d).Some? {
      OneNamed(Parse(d).value, name, data);
    }
  }

  lemma {:induction false} NamedGrows(bs: seq<Box>, name: seq<byte>, i: nat)
    requires i <= |bs|
    ensures |Named(bs[..i], name)| <= |Named(bs, name)|
  {
    if i < |bs| {
      NamedGrows(bs[..|bs| - 1], name, i);
      assert bs[..|bs| - 1][..i] == bs[..i];
    } else {
      assert bs[..i] == bs;
    }
  }

  method FindChild(d: seq<byte>, name: seq<byte>) returns (r: Option<seq<byte>>)
    ensures r == Child(d, name)
  {
    var items := Boxes(d);
    if items == None {
      return None;
    }
    var bs := items.value;
    var found: Option<seq<byte>> := None;
    for i := 0 to |bs|
      invariant found == if |Named(bs[..i], name)| == 1 then Some(Named(bs[..i], name)[0]) else None
      invariant |Named(bs[..i], name)| <= 1
    {
      assert bs[..i + 1][..i] == bs[..i];
      if bs[i].name == name {
        if found != None {
          NamedGrows(bs, name, i + 1);
          return None;
        }
        found := Some(bs[i].data);
      }
    }
    assert bs[..|bs|] == bs;
    r := found;
  }

  /// WebP chunks

  function Padded(n: nat): nat {
    n + n % 2
  }

  function ChunksFrom(d: seq<byte>, count: nat): Option<seq<Box>>
    decreases |d|
  {
    if d == [] then Some([])
    else if |d| < 8 || count >= MAX_BOXES then None
    else
      var n := LE(d[4..8]);
      if Padded(n) > |d| - 8 then None
      else Cons(Box(d[..4], d[8..8 + n]), ChunksFrom(d[8 + Padded(n)..], count + 1))
  }

  function Chunks(d: seq<byte>): Option<seq<Box>> {
    ChunksFrom(d, 0)
  }

  method WebpChunks(d: seq<byte>) returns (r: Option<seq<Box>>)
    ensures r == Chunks(d)
  {
    var data, out := d, [];
    ConcatNil(Chunks(d));
    while |data| > 0
      invariant Chunks(d) == Concat(out, ChunksFrom(data, |out|))
      decreases |data|
    {
      if |data| < 8 || |out| >= MAX_BOXES {
        return None;
      }
      var n := LE(data[4..8]);
      var padded := n + n % 2;
      if padded > |data| - 8 {
        return None;
      }
      ConcatCons(out, Box(data[..4], data[8..8 + n]), ChunksFrom(data[8 + padded..], |out| + 1));
      out := out + [Box(data[..4], data[8..8 + n])];
      data := data[8 + padded..];
    }
    assert data == [] && out + [] == out;
    r := Some(out);
  }

  /** The framing of a chunk: its size word, and the padding byte (of any value) odd contents need. */
  datatype Frame = Frame(word: seq<byte>, pad: seq<byte>)

  predicate ChunkFits(b: Box, f: Frame) {
    |b.name| == 4 && |f.word| == 4 && LE(f.word) == |b.data| && |f.pad| == |b.data| % 2
  }

  function WriteChunk(b: Box, f: Frame): seq<byte> {
    b.name + f.word + b.data + f.pad
  }

  /** A chunk can be framed exactly when its size fits 32 bits, and the size word is then fixed. */
  lemma FramesOf(name: seq<byte>, data: seq<byte>)
    requires |name| == 4
    ensures (exists f :: ChunkFits(Box(name, data), f)) <==> |data| < U32
    ensures forall f, g :: ChunkFits(Box(name, data), f) && ChunkFits(Box(name, data), g) ==> f.word == g.word
  {
    var b := Box(name, data);
    forall f | ChunkFits(b, f)
      ensures |data| < U32 && f.word == EncodeLE(|data|, 4)
    {
      LEUnique(f.word);
    }
    if |data| < U32 {
      LERoundTrip(|data|, 4);
      var pad: seq<byte> := if |data| % 2 == 1 then [0] else [];
      assert ChunkFits(b, Frame(EncodeLE(|data|, 4), pad));
    }
  }

  predicate ChunksWritable(bs: seq<Box>, frames: seq<Frame>) {
    if bs == [] then frames == []
    else frames != [] && ChunkFits(bs[0], frames[0]) && ChunksWritable(bs[1..], frames[1..])
  }

  function WriteChunks(bs: seq<Box>, frames: seq<Frame>): seq<byte>
    requires ChunksWritable(bs, frames)
  {
    if bs == [] then [] else WriteChunk(bs[0], frames[0]) + WriteChunks(bs[1..], frames[1..])
  }

  lemma ReadWrittenChunk(b: Box, f: Frame, rest: seq<byte>)
    requires ChunkFits(b, f)
    ensures var w := WriteChunk(b, f); var d := w + rest;
      && |d| >= 8 && LE(d[4..8]) == |b.data| && |w| == 8 + Padded(|b.data|)
      && d[..4] == b.name && d[8..8 + |b.data|] == b.data && d[|w|..] == rest
  {
    var d := WriteChunk(b, f) + rest;
    assert d[4..8] == f.word;
  }

  lemma ChunksWritten(b: Box, f: Frame, rest: seq<byte>, count: nat)
    requires ChunkFits(b, f) && count < MAX_BOXES
    ensures ChunksFrom(WriteChunk(b, f) + rest, count) == Cons(b, ChunksFrom(rest, count + 1))
  {
    ReadWrittenChunk(b, f, rest);
  }

  lemma ConsChunkInverts(b: Box, f: Frame, bs: seq<Box>, frames: seq<Frame>, count: nat)
    requires ChunkFits(b, f) && ChunksWritable(bs, frames) && count < MAX_BOXES
    requires ChunksFrom(WriteChunks(bs, frames), count + 1) == Some(bs)
    ensures ChunksWritable([b] + bs, [f] + frames)
    ensures ChunksFrom(WriteChunks([b] + bs, [f] + frames), count) == Some([b] + bs)
  {
    ChunksWritten(b, f, WriteChunks(bs, frames), count);
  }

  lemma {:induction false} ChunksInvertWrite(bs: seq<Box>, frames: seq<Frame>, count: nat)
    requires ChunksWritable(bs, frames) && count + |bs| <= MAX_BOXES
    ensures ChunksFrom(WriteChunks(bs, frames), count) == Some(bs)
    decreases |bs|
  {
    if bs == [] {
    } else {
      ChunksInvertWrite(bs[1..], frames[1..], count + 1);
      ConsChunkInverts(bs[0], frames[0], bs[1..], frames[1..], count);
      assert bs == [bs[0]] + bs[1..] && frames == [frames[0]] + frames[1..];
    }
  }

  lemma TakeFrontChunk(d: seq<byte>, count: nat) returns (b: Box, f: Frame, rest: seq<byte>)
    requires d != [] && ChunksFrom(d, count).Some?
    ensures ChunkFits(b, f) && count < MAX_BOXES
    ensures |rest| < |d| && d == WriteChunk(b, f) + rest
    ensures ChunksFrom(rest, count + 1).Some? && ChunksFrom(d, count).value == [b] + ChunksFrom(rest, count + 1).value
  {
    var n := LE(d[4..8]);
    var end := 8 + Padded(n);
    b, rest := Box(d[..4], d[8..8 + n]), d[end..];
    f := Frame(d[4..8], d[8 + n..end]);
    assert d[..end] == d[..4] + d[4..8] + d[8..8 + n] + d[8 + n..end];
    assert d == d[..end] + d[end..];
  }

  lemma {:induction false} ChunksTile(d: seq<byte>, count: nat) returns (frames: seq<Frame>)
    requires ChunksFrom(d, count).Some?
    ensures var bs := ChunksFrom(d, count).value;
      && ChunksWritable(bs, frames)
      && WriteChunks(bs, frames) == d && (d == [] || count + |bs| <= MAX_BOXES)
    decreases |d|
  {
    if d == [] {
      frames := [];
    } else {
      var b, f, rest := TakeFrontChunk(d, count);
      var tail := ChunksTile(rest, count + 1);
      frames := [f] + tail;
    }
  }

  /** WebP chunk parsing, too, is the exact inverse of writing, whatever the padding bytes are. */
  lemma ChunksIffWritten(d: seq<byte>, bs: seq<Box>)
    ensures Chunks(d) == Some(bs) <==>
      |bs| <= 4096 && exists frames :: ChunksWritable(bs, frames) && WriteChunks(bs, frames) == d
  {
    if Chunks(d) == Some(bs) {
      var frames := ChunksTile(d, 0);
      assert ChunksWritable(bs, frames) && WriteChunks(bs, frames) == d;
    }
    if |bs| <= 4096 && exists frames :: ChunksWritable(bs, frames) && WriteChunks(bs, frames) == d {
      var frames :| ChunksWritable(bs, frames) && WriteChunks(bs, frames) == d;
      ChunksInvertWrite(bs, frames, 0);
    }
  }
}
