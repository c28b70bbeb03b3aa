/**
 The vCard printer of internal/messages/messages.go, with a reader that undoes it.

 Text is a sequence of Unicode characters; lengths on the wire are counted in UTF-8 octets.  The
 reader follows RFC 2426: it unfolds (section 2.6), splits the text into lines, splits each line
 at its first colon, splits the structured name at semicolons that no backslash protects (section
 3.1.2) and removes the backslashes (section 4).
 */
module VCard {
  import opened Prelude

  const CRLF := "\r\n"
  const LINE_LIMIT := 75

  /** Octets a character takes in UTF-8. */
  function RuneLen(c: char): (n: nat)
    ensures 1 <= n <= 4
  {
    var code := c as int;
    if code < 0x80 then 1 else if code < 0x800 then 2 else if code < 0x1_0000 then 3 else 4
  }

  /** How many octets UTF-8 takes for a character, by the bits each length has room for. */
  lemma RuneLenMeans(c: char)
    ensures RuneLen(c) == 1 <==> c as int < 128
    ensures RuneLen(c) == 2 <==> 128 <= c as int < 2048
    ensures RuneLen(c) == 3 <==> 2048 <= c as int < 65_536
    ensures RuneLen(c) == 4 <==> 65_536 <= c as int
  {
  }

  function Octets(s: string): nat {
    if s == [] then 0 else RuneLen(s[0]) + Octets(s[1..])
  }

  predicate Without(s: string, c: char) {
    c !in s
  }

  /// Escaping

  /** Every CRLF pair becomes one LF. */
  function ReplacePairs(v: string): string {
    if v == [] then []
    else if |v| >= 2 && v[0] == '\r' && v[1] == '\n' then ['\n'] + ReplacePairs(v[2..])
    else [v[0]] + ReplacePairs(v[1..])
  }

  function ReplaceReturns(v: string): string {
    if v == [] then [] else [if v[0] == '\r' then '\n' else v[0]] + ReplaceReturns(v[1..])
  }

  /** What a reader gives back: every line break (CRLF, CR or LF) written as LF. */
  function Normalise(v: string): string {
    if v == [] then []
    else if v[0] == '\r' then ['\n'] + Normalise(if |v| >= 2 && v[1] == '\n' then v[2..] else v[1..])
    else [v[0]] + Normalise(v[1..])
  }

  function EscapeChar(c: char): string {
    if c == '\\' then "\\\\"
    else if c == '\n' then "\\n"
    else if c == ';' then "\\;"
    else if c == ',' then "\\,"
    else [c]
  }

  function EscapeAll(v: string): string {
    if v == [] then [] else EscapeChar(v[0]) + EscapeAll(v[1..])
  }

  function Escape(v: string): string {
    EscapeAll(ReplaceReturns(ReplacePairs(v)))
  }

  /** Section 4 of RFC 2426: a backslash protects the next character, and `n` after it is a line break. */
  function Unescape(v: string): string {
    if v == [] then []
    else if v[0] == '\\' && |v| >= 2 then [if v[1] == 'n' || v[1] == 'N' then '\n' else v[1]] + Unescape(v[2..])
    else [v[0]] + Unescape(v[1..])
  }

  lemma {:induction false} BreaksNormalised(v: string)
    ensures ReplaceReturns(ReplacePairs(v)) == Normalise(v)
    decreases |v|
  {
    if v == [] {
    } else {
      var paired := |v| >= 2 && v[0] == '\r' && v[1] == '\n';
      var rest := if paired then v[2..] else v[1..];
      BreaksNormalised(rest);
      assert ReplacePairs(v)[1..] == ReplacePairs(rest);
    }
  }

  lemma {:induction false} NormalisedHasNoReturn(v: string)
    ensures Without(Normalise(v), '\r') && Normalise(Normalise(v)) == Normalise(v)
    decreases |v|
  {
    if v == [] {
    } else {
      var rest := if v[0] == '\r' && |v| >= 2 && v[1] == '\n' then v[2..] else v[1..];
      NormalisedHasNoReturn(rest);
      assert Normalise(v)[1..] == Normalise(rest);
    }
  }

  /** Reading an escaped value gives the value back, up to the spelling of line breaks. */
  lemma UnescapeEscape(v: string)
    ensures Unescape(Escape(v)) == Normalise(v)
  {
    BreaksNormalised(v);
  }

  lemma {:induction false} EscapedHasNoBreak(v: string)
    requires Without(v, '\r')
    ensures Without(EscapeAll(v), '\r') && Without(EscapeAll(v), '\n')
  {
    if v == [] {
    } else {
      EscapedHasNoBreak(v[1..]);
    }
  }

  /** No escaped value can break a content line. */
  lemma EscapeIsOneLine(v: string)
    ensures Without(Escape(v), '\r') && Without(Escape(v), '\n')
  {
    BreaksNormalised(v);
    NormalisedHasNoReturn(v);
    EscapedHasNoBreak(Normalise(v));
  }

  /// Structured values

  function Prefixed(c: string, parts: seq<string>): seq<string>
    requires parts != []
  {
    [c + parts[0]] + parts[1..]
  }

  /** Splits at semicolons that no backslash protects. */
  function Components(v: string): (parts: seq<string>)
    ensures parts != []
  {
    if v == [] then [[]]
    else if v[0] == '\\' && |v| >= 2 then Prefixed(v[..2], Components(v[2..]))
    else if v[0] == ';' then [[]] + Components(v[1..])
    else Prefixed([v[0]], Components(v[1..]))
  }

  lemma EscapedMarks(c: char, rest: string, i: nat)
    requires i < |EscapeChar(c) + rest| && (EscapeChar(c) + rest)[i] in ",;"
    ensures (i == 1 && EscapeChar(c)[0] == '\\') || (i >= |EscapeChar(c)| && rest[i - |EscapeChar(c)|] in ",;")
  {
  }

  /** In an escaped value every comma and every semicolon stands right behind a backslash. */
  lemma {:induction false} MarksAreEscaped(v: string, i: nat)
    requires i < |EscapeAll(v)| && EscapeAll(v)[i] in ",;"
    ensures i > 0 && EscapeAll(v)[i - 1] == '\\'
  {
    var c, rest := v[0], EscapeAll(v[1..]);
    EscapedMarks(c, rest, i);
    if i >= |EscapeChar(c)| {
      MarksAreEscaped(v[1..], i - |EscapeChar(c)|);
    }
  }

  lemma PrefixedTwice(a: string, b: string, parts: seq<string>)
    requires parts != []
    ensures Prefixed(a, Prefixed(b, parts)) == Prefixed(a + b, parts)
  {
    assert a + (b + parts[0]) == (a + b) + parts[0];
  }

  lemma EscapedCharStays(c: char, rest: string)
    ensures Components(EscapeChar(c) + rest) == Prefixed(EscapeChar(c), Components(rest))
  {
    var head := EscapeChar(c);
    if |head| == 2 {
      assert (head + rest)[2..] == rest && (head + rest)[..2] == head;
    } else {
      assert (head + rest)[1..] == rest;
    }
  }

  lemma {:induction false} EscapedIsOneComponent(v: string, rest: string)
    ensures Components(EscapeAll(v) + rest) == Prefixed(EscapeAll(v), Components(rest))
  {
    if v == [] {
      assert EscapeAll(v) + rest == rest && [] + Components(rest)[0] == Components(rest)[0];
    } else {
      var head, tail := EscapeChar(v[0]), EscapeAll(v[1..]);
      assert EscapeAll(v) + rest == head + (tail + rest);
      EscapedCharStays(v[0], tail + rest);
      EscapedIsOneComponent(v[1..], rest);
      PrefixedTwice(head, tail, Components(rest));
    }
  }

  /** The N value has exactly five components (section 3.1.2 of RFC 2426), and the name is the second. */
  lemma NameHasFiveComponents(name: string)
    ensures Components(";" + Escape(name) + ";;;") == ["", Escape(name), "", "", ""]
  {
    EscapedIsOneComponent(ReplaceReturns(ReplacePairs(name)), ";;;");
    assert ";" + Escape(name) + ";;;" == ";" + (Escape(name) + ";;;");
    assert Escape(name) + "" == Escape(name);
  }

  /// Folding

  /** What goes before a character: a fold, if the line has no room left for it. */
  function Glue(c: char, column: nat): string {
    if column + RuneLen(c) > LINE_LIMIT then "\r\n " else ""
  }

  function After(c: char, column: nat): nat {
    RuneLen(c) + if column + RuneLen(c) > LINE_LIMIT then 1 else column
  }

  /** `v` written from the given column on, without its final line break. */
  function Folded(v: string, column: nat): string {
    if v == [] then []
    else
      Glue(v[0], column) + ([v[0]] + Folded(v[1..], After(v[0], column)))
  }

  function Fold(v: string): string {
    Folded(v, 0) + CRLF
  }

  /** The loop state of FoldLine: `out` is written, the rest continues at `column`. */
  ghost predicate Folding(value: string, i: nat, out: string, column: nat)
    requires i <= |value|
  {
    Fold(value) == out + (Folded(value[i..], column) + CRLF)
  }

  lemma FoldNext(value: string, i: nat, out: string, column: nat)
    requires i < |value| && Folding(value, i, out, column)
    ensures Folding(value, i + 1, out + Glue(value[i], column) + [value[i]], After(value[i], column))
  {
    var rest := Folded(value[i + 1..], After(value[i], column)) + CRLF;
    assert value[i..][1..] == value[i + 1..];
    assert Folded(value[i..], column) + CRLF == Glue(value[i], column) + ([value[i]] + rest);
  }

  method FoldLine(value: string) returns (out: string)
    ensures out == Fold(value)
  {
    out := "";
    var column: nat := 0;
    assert value[0..] == value && "" + Fold(value) == Fold(value);
    for i := 0 to |value|
      invariant Folding(value, i, out, column)
    {
      FoldNext(value, i, out, column);
      var n := RuneLen(value[i]);
      var glue := "";
      if column + n > LINE_LIMIT {
        glue := "\r\n ";
        column := 1;
      }
      out := out + glue + [value[i]];
      column := column + n;
    }
    assert value[|value|..] == [];
    out := out + CRLF;
  }

  /** Section 2.6 of RFC 2426: a line break followed by one blank is no break. */
  function Unfold(t: string): string {
    if t == [] then []
    else if |t| >= 3 && t[0] == '\r' && t[1] == '\n' && (t[2] == ' ' || t[2] == '\t') then Unfold(t[3..])
    else [t[0]] + Unfold(t[1..])
  }

  /** The physical lines of a text, each without its CRLF; the last is what follows the final one. */
  function Lines(t: string): (ls: seq<string>)
    ensures ls != []
  {
    if t == [] then [[]]
    else if |t| >= 2 && t[0] == '\r' && t[1] == '\n' then [[]] + Lines(t[2..])
    else Prefixed([t[0]], Lines(t[1..]))
  }

  predicate StartsBlank(t: string) {
    t != [] && (t[0] == ' ' || t[0] == '\t')
  }

  lemma UnfoldBreak(rest: string)
    requires !StartsBlank(rest)
    ensures Unfold(CRLF + rest) == CRLF + Unfold(rest)
  {
    var t := CRLF + rest;
    assert t[1..] == ['\n'] + rest && t[1..][1..] == rest;
    assert Unfold(t) == ['\r'] + (['\n'] + Unfold(rest));
  }

  lemma UnfoldGlued(glue: string, c: char, tail: string)
    requires c != '\r' && (glue == "" || glue == "\r\n ")
    ensures Unfold(glue + ([c] + tail)) == [c] + Unfold(tail)
  {
    if glue == "" {
      assert glue + ([c] + tail) == [c] + tail;
    }
  }

  lemma FoldedText(v: string, column: nat, rest: string)
    requires v != []
    ensures Folded(v, column) + rest == Glue(v[0], column) + ([v[0]] + (Folded(v[1..], After(v[0], column)) + rest))
  {
  }

  lemma {:induction false} UnfoldFolded(v: string, column: nat, rest: string)
    requires Without(v, '\r')
    ensures Unfold(Folded(v, column) + rest) == v + Unfold(rest)
    decreases |v|
  {
    if v == [] {
      assert Folded(v, column) + rest == rest && v + Unfold(rest) == Unfold(rest);
    } else {
      var next := After(v[0], column);
      var tail := Folded(v[1..], next) + rest;
      FoldedText(v, column, rest);
      UnfoldGlued(Glue(v[0], column), v[0], tail);
      assert Unfold(Folded(v, column) + rest) == [v[0]] + Unfold(tail);
      UnfoldFolded(v[1..], next, rest);
      assert v + Unfold(rest) == [v[0]] + (v[1..] + Unfold(rest));
    }
  }

  lemma FoldThen(v: string, rest: string)
    ensures Fold(v) + rest == Folded(v, 0) + (CRLF + rest)
  {
  }

  /** Unfolding a folded line, whatever line follows, gives the line back. */
  lemma UnfoldFold(v: string, rest: string)
    requires Without(v, '\r') && !StartsBlank(rest)
    ensures Unfold(Fold(v) + rest) == v + CRLF + Unfold(rest)
  {
    UnfoldFolded(v, 0, CRLF + rest);
    FoldThen(v, rest);
    UnfoldBreak(rest);
    assert v + (CRLF + Unfold(rest)) == v + CRLF + Unfold(rest);
  }

  predicate Short(ls: seq<string>) {
    ls == [] || (Octets(ls[0]) <= 75 && Short(ls[1..]))
  }

  lemma PrefixedShort(c: char, tail: string)
    requires c != '\r'
    ensures var ls := Lines([c] + tail);
      Octets(ls[0]) == RuneLen(c) + Octets(Lines(tail)[0]) && ls[1..] == Lines(tail)[1..]
  {
    assert ([c] + Lines(tail)[0])[1..] == Lines(tail)[0];
  }

  lemma GluedIsShort(c: char, column: nat, tail: string)
    requires c != '\r' && column <= LINE_LIMIT
    requires After(c, column) + Octets(Lines(tail)[0]) <= LINE_LIMIT && Short(Lines(tail)[1..])
    ensures var ls := Lines(Glue(c, column) + ([c] + tail));
      column + Octets(ls[0]) <= LINE_LIMIT && Short(ls[1..])
  {
    PrefixedShort(c, tail);
    var line := [c] + tail;
    if column + RuneLen(c) > LINE_LIMIT {
      assert Glue(c, column) + line == CRLF + ([' '] + line);
      PrefixedShort(' ', line);
    } else {
      assert Glue(c, column) + line == line;
    }
  }

  lemma {:induction false} FoldedIsShort(v: string, column: nat, rest: string)
    requires Without(v, '\r') && column <= LINE_LIMIT
    requires Lines(rest)[0] == [] && Short(Lines(rest))
    ensures var ls := Lines(Folded(v, column) + rest);
      column + Octets(ls[0]) <= LINE_LIMIT && Short(ls[1..])
    decreases |v|
  {
    if v == [] {
      assert Folded(v, column) + rest == rest;
    } else {
      var next := After(v[0], column);
      FoldedIsShort(v[1..], next, rest);
      FoldedText(v, column, rest);
      GluedIsShort(v[0], column, Folded(v[1..], next) + rest);
    }
  }

  /** Every physical line of a folded line is at most 75 octets, and holds whole characters. */
  lemma FoldIsShort(v: string, rest: string)
    requires Without(v, '\r') && Short(Lines(rest))
    ensures Short(Lines(Fold(v) + rest))
  {
    FoldedIsShort(v, 0, CRLF + rest);
    FoldThen(v, rest);
  }

  /// A whole text of content lines

  predicate OneLine(s: string) {
    Without(s, '\r') && s != [] && !StartsBlank(s)
  }

  predicate ContentLines(ls: seq<string>) {
    forall l | l in ls :: OneLine(l)
  }

  function FoldAll(ls: seq<string>): string {
    if ls == [] then [] else Fold(ls[0]) + FoldAll(ls[1..])
  }

  function Joined(ls: seq<string>): string {
    if ls == [] then [] else ls[0] + CRLF + Joined(ls[1..])
  }

  lemma {:induction false} UnfoldAll(ls: seq<string>)
    requires ContentLines(ls)
    ensures Unfold(FoldAll(ls)) == Joined(ls) && !StartsBlank(FoldAll(ls))
  {
    if ls == [] {
    } else {
      var rest := FoldAll(ls[1..]);
      assert OneLine(ls[0]);
      UnfoldAll(ls[1..]);
      UnfoldFold(ls[0], rest);
    }
  }

  lemma {:induction false} LineThenRest(v: string, rest: string)
    requires Without(v, '\r')
    ensures Lines(v + CRLF + rest) == [v] + Lines(rest)
  {
    if v == [] {
      assert v + CRLF + rest == CRLF + rest;
    } else {
      LineThenRest(v[1..], rest);
      assert v + CRLF + rest == [v[0]] + (v[1..] + CRLF + rest);
      assert [v[0]] + v[1..] == v;
    }
  }

  lemma {:induction false} LinesOfJoined(ls: seq<string>)
    requires ContentLines(ls)
    ensures Lines(Joined(ls)) == ls + [[]]
  {
    if ls == [] {
    } else {
      assert OneLine(ls[0]);
      LinesOfJoined(ls[1..]);
      LineThenRest(ls[0], Joined(ls[1..]));
      assert [ls[0]] + (ls[1..] + [[]]) == ls + [[]];
    }
  }

  /** Writing any content lines and reading them back gives the same lines, none over 75 octets on the wire. */
  lemma ReadFolded(ls: seq<string>)
    requires ContentLines(ls)
    ensures Lines(Unfold(FoldAll(ls))) == ls + [[]]
    ensures Short(Lines(FoldAll(ls)))
  {
    UnfoldAll(ls);
    LinesOfJoined(ls);
    AllShort(ls);
  }

  lemma {:induction false} AllShort(ls: seq<string>)
    requires ContentLines(ls)
    ensures Short(Lines(FoldAll(ls)))
  {
    if ls == [] {
    } else {
      assert OneLine(ls[0]);
      AllShort(ls[1..]);
      FoldIsShort(ls[0], FoldAll(ls[1..]));
    }
  }

  /// Telephone numbers

  /** strings.Cut: the text before and after the first `c`. */
  function Cut(s: string, c: char): Option<(string, string)> {
    if s == [] then None
    else if s[0] == c then Some(([], s[1..]))
    else
      match Cut(s[1..], c)
      case None => None
      case Some((before, after)) => Some(([s[0]] + before, after))
  }

  lemma {:induction false} CutIff(s: string, c: char, before: string, after: string)
    ensures Cut(s, c) == Some((before, after)) <==> Without(before, c) && s == before + [c] + after
  {
    if s != [] && s[0] != c {
      if before != [] {
        CutIff(s[1..], c, before[1..], after);
        assert s == before + [c] + after <==> s[0] == before[0] && s[1..] == before[1..] + [c] + after;
        assert [before[0]] + before[1..] == before;
      }
    } else if s != [] {
      if Without(before, c) && s == before + [c] + after {
        assert s[1..] == after;
      }
    }
  }

  lemma {:induction false} CutNone(s: string, c: char)
    ensures Cut(s, c) == None <==> Without(s, c)
  {
    if s != [] && s[0] != c {
      CutNone(s[1..], c);
    }
  }

  predicate IsDigit(c: char) {
    '0' <= c <= '9'
  }

  predicate Digits(s: string) {
    s == [] || (IsDigit(s[0]) && Digits(s[1..]))
  }

  function TrimPlus(s: string): string {
    if s != [] && s[0] == '+' then s[1..] else s
  }

  /** The digits of a number, in octets 7 to 15 of them; None where the source reports an error. */
  function Phone(value: string): Option<string> {
    match Cut(value, '@')
    case Some((user, server)) =>
      if server != "c.us" && server != "s.whatsapp.net" then None else LocalPhone(user)
    case None => LocalPhone(value)
  }

  function LocalPhone(value: string): Option<string> {
    var digits := TrimPlus(value);
    if 7 <= Octets(digits) <= 15 && Digits(digits) then Some(digits) else None
  }

  predicate Number(n: string) {
    Digits(n) && 7 <= |n| <= 15
  }

  lemma {:induction false} DigitsAreOctets(n: string)
    requires Digits(n)
    ensures Octets(n) == |n| && Without(n, '@') && Without(n, '+') && Without(n, ':') && Without(n, '\r')
  {
    if n == [] {
    } else {
      DigitsAreOctets(n[1..]);
    }
  }

  predicate LocalForm(value: string, n: string) {
    value == n || value == "+" + n
  }

  lemma LocalPhoneIff(value: string, n: string)
    ensures LocalPhone(value) == Some(n) <==> Number(n) && LocalForm(value, n)
    ensures LocalPhone(value) == Some(n) ==> Without(value, '@')
  {
    if Digits(n) {
      DigitsAreOctets(n);
      if value == "+" + n {
        assert value[1..] == n;
      }
    }
    if value != [] && value[0] == '+' {
      assert value == "+" + value[1..];
    }
  }

  predicate PhoneForm(value: string, user: string) {
    value == user || value == user + "@" + "c.us" || value == user + "@" + "s.whatsapp.net"
  }

  /** A number is accepted exactly as 7 to 15 digits, with at most one plus sign and a known server. */
  lemma PhoneIff(value: string, n: string)
    ensures Phone(value) == Some(n) <==> Number(n) && (PhoneForm(value, n) || PhoneForm(value, "+" + n))
  {
    CutNone(value, '@');
    if Phone(value) == Some(n) {
      match Cut(value, '@')
      case None => LocalPhoneIff(value, n);
      case Some((user, server)) =>
        LocalPhoneIff(user, n);
        CutIff(value, '@', user, server);
    }
    if Number(n) && PhoneForm(value, n) {
      PhoneFrom(value, n, n);
    }
    if Number(n) && PhoneForm(value, "+" + n) {
      PhoneFrom(value, "+" + n, n);
    }
  }

  lemma PhoneFrom(value: string, user: string, n: string)
    requires Number(n) && LocalForm(user, n) && PhoneForm(value, user)
    ensures Phone(value) == Some(n)
  {
    LocalPhoneIff(user, n);
    CutNone(value, '@');
    CutIff(value, '@', user, "c.us");
    CutIff(value, '@', user, "s.whatsapp.net");
  }

  /// The card

  const BEGIN := "BEGIN:VCARD"
  const VERSION := "VERSION:3.0"
  const END := "END:VCARD"
  const PHONE_FIELD := "TEL;TYPE=CELL;waid="

  function Field(name: string, value: string): string {
    name + ":" + value
  }

  function NameValue(name: string): string {
    ";" + Escape(name) + ";;;"
  }

  function ContentOf(name: string, number: string): seq<string> {
    [
      BEGIN, VERSION,
      Field("FN", Escape(name)), Field("N", NameValue(name)), Field(PHONE_FIELD + number, "+" + number),
      END
    ]
  }

  const HEADER := BEGIN + CRLF + VERSION + CRLF
  const FOOTER := END + CRLF

  function Written(name: string, number: string): string {
    HEADER
    + Fold("FN:" + Escape(name))
    + Fold("N:;" + Escape(name) + ";;;")
    + Fold("TEL;TYPE=CELL;waid=" + number + ":+" + number)
    + FOOTER
  }

  lemma {:induction false} FoldShort(v: string, column: nat)
    requires column + Octets(v) <= 75
    ensures Folded(v, column) == v
    decreases |v|
  {
    if v == [] {
    } else {
      FoldShort(v[1..], column + RuneLen(v[0]));
      assert "" + ([v[0]] + v[1..]) == v;
    }
  }

  lemma {:induction false} AsciiOctets(v: string)
    requires forall c | c in v :: RuneLen(c) == 1
    ensures Octets(v) == |v|
  {
    if v == [] {
    } else {
      AsciiOctets(v[1..]);
    }
  }

  lemma FixedFold(v: string)
    requires |v| <= 13 && forall c | c in v :: RuneLen(c) == 1
    ensures Fold(v) == v + CRLF
  {
    AsciiOctets(v);
    FoldShort(v, 0);
  }

  lemma FoldSix(a: string, b: string, c: string, d: string, e: string, f: string)
    ensures FoldAll([a, b, c, d, e, f]) == Fold(a) + Fold(b) + Fold(c) + Fold(d) + Fold(e) + Fold(f)
  {
    assert [a, b, c, d, e, f][1..] == [b, c, d, e, f] && [b, c, d, e, f][1..] == [c, d, e, f];
    assert [c, d, e, f][1..] == [d, e, f] && [d, e, f][1..] == [e, f] && [e, f][1..] == [f] && [f][1..] == [];
    assert FoldAll([f]) == Fold(f) + "" == Fold(f);
    assert FoldAll([d, e, f]) == Fold(d) + (Fold(e) + Fold(f));
    assert FoldAll([b, c, d, e, f]) == Fold(b) + (Fold(c) + FoldAll([d, e, f]));
  }

  lemma FieldTexts(name: string, number: string)
    ensures Field("FN", Escape(name)) == "FN:" + Escape(name)
    ensures Field("N", NameValue(name)) == "N:;" + Escape(name) + ";;;"
    ensures Field(PHONE_FIELD + number, "+" + number) == "TEL;TYPE=CELL;waid=" + number + ":+" + number
  {
  }

  lemma FixedFolds()
    ensures Fold(BEGIN) + Fold(VERSION) == HEADER && Fold(END) == FOOTER
  {
    FixedFold(BEGIN);
    FixedFold(VERSION);
    FixedFold(END);
  }

  lemma FoldBetween(x: string, y: string, z: string)
    ensures FoldAll([BEGIN, VERSION, x, y, z, END]) == HEADER + Fold(x) + Fold(y) + Fold(z) + FOOTER
  {
    FixedFolds();
    FoldSix(BEGIN, VERSION, x, y, z, END);
  }

  /** The card as the source assembles it is the folding of its six content lines. */
  lemma WrittenIsFolded(name: string, number: string)
    ensures Written(name, number) == FoldAll(ContentOf(name, number))
  {
    FieldTexts(name, number);
    FoldBetween(Field("FN", Escape(name)), Field("N", NameValue(name)), Field(PHONE_FIELD + number, "+" + number));
  }

  datatype Card = Card(fullName: string, parts: seq<string>, id: string, phone: string)

  function UnescapeEach(vs: seq<string>): seq<string> {
    if vs == [] then [] else [Unescape(vs[0])] + UnescapeEach(vs[1..])
  }

  /** The value of a line of that name. */
  function ValueOf(line: string, name: string): Option<string> {
    match Cut(line, ':')
    case Some((field, value)) => if field == name then Some(value) else None
    case None => None
  }

  /** The identifier and the value of the telephone line. */
  function PhoneOf(line: string): Option<(string, string)> {
    match Cut(line, ':')
    case Some((field, value)) =>
      if PHONE_FIELD <= field then Some((field[|PHONE_FIELD|..], value)) else None
    case None => None
  }

  function CardOf(ls: seq<string>): Option<Card> {
    if |ls| != 7 || ls[0] != BEGIN || ls[1] != VERSION || ls[5] != END || ls[6] != [] then None
    else
      match (ValueOf(ls[2], "FN"), ValueOf(ls[3], "N"), PhoneOf(ls[4]))
      case (Some(name), Some(parts), Some((id, phone))) =>
        Some(Card(Unescape(name), UnescapeEach(Components(parts)), id, phone))
      case _ => None
  }

  /** A vCard reader: unfold, split into lines, split each line at its first colon, unescape. */
  function Read(t: string): Option<Card> {
    CardOf(Lines(Unfold(t)))
  }

  /** A field is one line, and the reader finds its name and value again. */
  lemma FieldIsOneLine(name: string, value: string)
    requires OneLine(name) && Without(name, ':') && Without(value, '\r')
    ensures OneLine(Field(name, value)) && Cut(Field(name, value), ':') == Some((name, value))
  {
    CutIff(Field(name, value), ':', name, value);
  }

  lemma NameFields(name: string)
    ensures OneLine(Field("FN", Escape(name))) && ValueOf(Field("FN", Escape(name)), "FN") == Some(Escape(name))
    ensures OneLine(Field("N", NameValue(name))) && ValueOf(Field("N", NameValue(name)), "N") == Some(NameValue(name))
  {
    EscapeIsOneLine(name);
    FieldIsOneLine("FN", Escape(name));
    FieldIsOneLine("N", NameValue(name));
  }

  lemma PhoneFieldLine(number: string)
    requires Digits(number)
    ensures var line := Field(PHONE_FIELD + number, "+" + number);
      OneLine(line) && PhoneOf(line) == Some((number, "+" + number))
  {
    DigitsAreOctets(number);
    assert (PHONE_FIELD + number)[|PHONE_FIELD|..] == number;
    FieldIsOneLine(PHONE_FIELD + number, "+" + number);
  }

  lemma SixLines(a: string, b: string, c: string, d: string, e: string, f: string)
    requires OneLine(a) && OneLine(b) && OneLine(c) && OneLine(d) && OneLine(e) && OneLine(f)
    ensures ContentLines([a, b, c, d, e, f])
  {
  }

  lemma UnescapeFive(name: string)
    ensures UnescapeEach(Components(NameValue(name))) == ["", Normalise(name), "", "", ""]
  {
    NameHasFiveComponents(name);
    UnescapeEscape(name);
    var e := Escape(name);
    assert ["", e, "", "", ""][1..] == [e, "", "", ""] && [e, "", "", ""][1..] == ["", "", ""];
    assert ["", "", ""][1..] == ["", ""] && ["", ""][1..] == [""];
    assert UnescapeEach(["", "", ""]) == ["", "", ""];
  }

  lemma ContentReads(name: string, number: string)
    requires Digits(number)
    ensures ContentLines(ContentOf(name, number))
    ensures CardOf(ContentOf(name, number) + [[]]) ==
      Some(Card(Normalise(name), ["", Normalise(name), "", "", ""], number, "+" + number))
  {
    NameFields(name);
    PhoneFieldLine(number);
    var ls := ContentOf(name, number);
    SixLines(ls[0], ls[1], ls[2], ls[3], ls[4], ls[5]);
    UnescapeFive(name);
    UnescapeEscape(name);
  }

  /** The reader recovers the name (up to line breaks) twice, once as the second of five N components. */
  lemma ReadWritten(name: string, number: string)
    requires Digits(number)
    ensures Read(Written(name, number)) ==
      Some(Card(Normalise(name), ["", Normalise(name), "", "", ""], number, "+" + number))
    ensures Short(Lines(Written(name, number)))
  {
    WrittenIsFolded(name, number);
    ContentReads(name, number);
    ReadFolded(ContentOf(name, number));
  }

  /** The card as text: its six lines, the name written twice and the number twice. */
  lemma CardText(name: string, number: string)
    ensures Written(name, number) == "BEGIN:VCARD\r\nVERSION:3.0\r\n" + Fold("FN:" + Escape(name))
      + Fold("N:;" + Escape(name) + ";;;") + Fold("TEL;TYPE=CELL;waid=" + number + ":+" + number) + "END:VCARD\r\n"
  {
  }

  /// Contact messages

  datatype Contact = Contact(name: string, phone: string)
  datatype Message = Message(displayName: string, vcard: string)
  datatype Rejection = BothForms | BadSharedName | BadCount | BadPhone | BadName

  /** unicode.IsSpace. */
  predicate IsSpace(c: char) {
    var code := c as int;
    || 9 <= code <= 13 || 0x2000 <= code <= 0x200A
    || code in {0x20, 0x85, 0xA0, 0x1680, 0x2028, 0x2029, 0x202F, 0x205F, 0x3000}
  }

  predicate Blank(s: string) {
    forall c | c in s :: IsSpace(c)
  }

  predicate ValidText(value: string, limit: nat, required: bool) {
    |value| <= limit && (required ==> !Blank(value)) && '\0' !in value
  }

  function DisplayName(c: Contact, number: string): string {
    if c.name == "" then number else c.name
  }

  function BuildOne(c: Contact): Result<Message, Rejection> {
    match Phone(c.phone)
    case None => Err(BadPhone)
    case Some(number) =>
      var name := DisplayName(c, number);
      if ValidText(name, 256, true) then Ok(Message(name, Written(name, number))) else Err(BadName)
  }

  /** All messages, or the first card's error. */
  function BuildAll(cards: seq<Contact>): (r: Result<seq<Message>, Rejection>)
    ensures r.Ok? ==> |r.value| == |cards|
  {
    if cards == [] then Ok([])
    else
      match BuildAll(cards[..|cards| - 1])
      case Err(e) => Err(e)
      case Ok(out) =>
        match BuildOne(cards[|cards| - 1])
        case Err(e) => Err(e)
        case Ok(m) => Ok(out + [m])
  }

  function FromIds(ids: seq<string>, name: string): seq<Contact> {
    if ids == [] then [] else FromIds(ids[..|ids| - 1], name) + [Contact(name, ids[|ids| - 1])]
  }

  function Build(cards: seq<Contact>, ids: seq<string>, name: string): Result<seq<Message>, Rejection> {
    var all := cards + FromIds(ids, name);
    if cards != [] && ids != [] then Err(BothForms)
    else if !ValidText(name, 256, false) then Err(BadSharedName)
    else if all == [] || |all| > 20 then Err(BadCount)
    else BuildAll(all)
  }

  lemma {:induction false} FirstError(cards: seq<Contact>, i: nat)
    requires i <= |cards| && BuildAll(cards[..i]).Err?
    ensures BuildAll(cards) == BuildAll(cards[..i])
  {
    if i < |cards| {
      assert cards[..|cards| - 1][..i] == cards[..i];
      FirstError(cards[..|cards| - 1], i);
    } else {
      assert cards[..i] == cards;
    }
  }

  method BuildCard(c: Contact) returns (r: Result<Message, Rejection>)
    ensures r == BuildOne(c)
  {
    var number := Phone(c.phone);
    if number == None {
      return Err(BadPhone);
    }
    var name := if c.name == "" then number.value else c.name;
    if !ValidText(name, 256, true) {
      return Err(BadName);
    }
    var fn := FoldLine("FN:" + Escape(name));
    var n := FoldLine("N:;" + Escape(name) + ";;;");
    var tel := FoldLine("TEL;TYPE=CELL;waid=" + number.value + ":+" + number.value);
    r := Ok(Message(name, HEADER + fn + n + tel + FOOTER));
  }

  method CardsFor(ids: seq<string>, name: string) returns (cards: seq<Contact>)
    ensures cards == FromIds(ids, name)
  {
    cards := [];
    for i := 0 to |ids|
      invariant cards == FromIds(ids[..i], name)
    {
      assert ids[..i + 1][..i] == ids[..i];
      cards := cards + [Contact(name, ids[i])];
    }
    assert ids[..|ids|] == ids;
  }

  method BuildCards(cards: seq<Contact>) returns (r: Result<seq<Message>, Rejection>)
    ensures r == BuildAll(cards)
  {
    var out := [];
    for i := 0 to |cards|
      invariant BuildAll(cards[..i]) == Ok(out)
    {
      assert cards[..i + 1][..i] == cards[..i];
      var m := BuildCard(cards[i]);
      if m.Err? {
        FirstError(cards, i + 1);
        return Err(m.error);
      }
      out := out + [m.value];
    }
    assert cards[..|cards|] == cards;
    r := Ok(out);
  }

  method Contacts(cards: seq<Contact>, ids: seq<string>, name: string) returns (r: Result<seq<Message>, Rejection>)
    ensures r == Build(cards, ids, name)
  {
    if |cards| > 0 && |ids| > 0 {
      return Err(BothForms);
    }
    if !ValidText(name, 256, false) {
      return Err(BadSharedName);
    }
    var more := CardsFor(ids, name);
    var all := cards + more;
    if |all| == 0 || |all| > 20 {
      return Err(BadCount);
    }
    r := BuildCards(all);
  }

  /** What a receiver reads off one message: the number asked for, and the display name throughout. */
  ghost predicate Conveys(m: Message, c: Contact) {
    && Phone(c.phone).Some?
    && (var number := Phone(c.phone).value;
        && m.displayName == (if c.name == "" then number else c.name)
        && Read(m.vcard) ==
           Some(Card(Normalise(m.displayName), ["", Normalise(m.displayName), "", "", ""], number, "+" + number)))
    && Short(Lines(m.vcard))
  }

  lemma OneConveys(c: Contact)
    requires BuildOne(c).Ok?
    ensures Conveys(BuildOne(c).value, c)
  {
    var number := Phone(c.phone).value;
    PhoneIff(c.phone, number);
    ReadWritten(DisplayName(c, number), number);
  }

  /** A card is refused for its number first, and then for its name: blank, too long or with a NUL. */
  lemma OneIff(c: Contact)
    ensures Phone(c.phone) == None <==> BuildOne(c) == Err(BadPhone)
    ensures Phone(c.phone).Some? ==>
      var name := if c.name == "" then Phone(c.phone).value else c.name;
      BuildOne(c).Ok? <==> |name| <= 256 && '\0' !in name && exists x :: x in name && !IsSpace(x)
    ensures BuildOne(c).Ok? || BuildOne(c) == Err(BadPhone) || BuildOne(c) == Err(BadName)
  {
  }

  predicate AllGood(cards: seq<Contact>) {
    forall i :: 0 <= i < |cards| ==> BuildOne(cards[i]).Ok?
  }

  /** The first bad card, and what is wrong with it. */
  predicate FirstBad(cards: seq<Contact>, i: nat, e: Rejection) {
    i < |cards| && BuildOne(cards[i]) == Err(e) && AllGood(cards[..i])
  }

  lemma {:induction false} AllBuilt(cards: seq<Contact>)
    requires AllGood(cards)
    ensures BuildAll(cards).Ok?
  {
    if cards == [] {
    } else {
      AllBuilt(cards[..|cards| - 1]);
    }
  }

  lemma BadStops(cards: seq<Contact>, i: nat, e: Rejection)
    requires FirstBad(cards, i, e)
    ensures BuildAll(cards) == Err(e)
  {
    AllBuilt(cards[..i]);
    assert cards[..i + 1][..i] == cards[..i];
    FirstError(cards, i + 1);
  }

  lemma BadOne(cards: seq<Contact>) returns (i: nat)
    requires !AllGood(cards)
    ensures i < |cards| && BuildOne(cards[i]).Err? && AllGood(cards[..i])
  {
    i := 0;
    while i < |cards| && BuildOne(cards[i]).Ok?
      invariant i <= |cards| && forall j :: 0 <= j < i ==> BuildOne(cards[j]).Ok?
    {
      i := i + 1;
    }
  }

  /** All cards are built, or the first bad one decides. */
  lemma AllIff(cards: seq<Contact>)
    ensures BuildAll(cards).Ok? <==> AllGood(cards)
    ensures forall e :: BuildAll(cards) == Err(e) <==> exists i :: FirstBad(cards, i, e)
  {
    if AllGood(cards) {
      AllBuilt(cards);
    } else {
      var i := BadOne(cards);
      assert FirstBad(cards, i, BuildOne(cards[i]).error);
      BadStops(cards, i, BuildOne(cards[i]).error);
    }
    forall e, i | FirstBad(cards, i, e) ensures BuildAll(cards) == Err(e) {
      BadStops(cards, i, e);
    }
  }

  lemma {:induction false} IdsMean(ids: seq<string>, name: string)
    ensures |FromIds(ids, name)| == |ids|
    ensures forall i :: 0 <= i < |ids| ==> FromIds(ids, name)[i] == Contact(name, ids[i])
  {
    if ids == [] {
    } else {
      IdsMean(ids[..|ids| - 1], name);
    }
  }

  /** The cards of a request: those given, or one for each id under the shared name. */
  ghost predicate AreCards(all: seq<Contact>, cards: seq<Contact>, ids: seq<string>, name: string) {
    if ids == [] then all == cards
    else |all| == |ids| && forall i :: 0 <= i < |all| ==> all[i].phone == ids[i] && all[i].name == name
  }

  /** Every message built conveys its own card, in order, and none is dropped. */
  lemma {:induction false} EveryCardIsConveyed(cards: seq<Contact>, i: nat)
    requires BuildAll(cards).Ok? && i < |cards|
    ensures |BuildAll(cards).value| == |cards| && Conveys(BuildAll(cards).value[i], cards[i])
  {
    if i < |cards| - 1 {
      EveryCardIsConveyed(cards[..|cards| - 1], i);
    } else {
      OneConveys(cards[i]);
    }
  }

  lemma AllConveyed(cards: seq<Contact>)
    requires BuildAll(cards).Ok?
    ensures var out := BuildAll(cards).value;
      |out| == |cards| && forall i :: 0 <= i < |cards| ==> Conveys(out[i], cards[i])
  {
    forall i | 0 <= i < |cards| ensures Conveys(BuildAll(cards).value[i], cards[i]) {
      EveryCardIsConveyed(cards, i);
    }
  }

  /** Building fails for bad cards alone. */
  lemma AllErrors(cards: seq<Contact>)
    ensures BuildAll(cards).Ok? <==> AllGood(cards)
    ensures BuildAll(cards).Err? ==> BuildAll(cards).error == BadPhone || BuildAll(cards).error == BadName
  {
    AllIff(cards);
    if !AllGood(cards) {
      var i := BadOne(cards);
      OneIff(cards[i]);
      BadStops(cards, i, BuildOne(cards[i]).error);
    }
  }

  /**
   A request has cards or ids, a name within bounds, and 1 to 20 cards, all of them good; then every message
   conveys its own card: the number of its id and the shared name, or the number in its place.
   */
  lemma RequestMeans(cards: seq<Contact>, ids: seq<string>, name: string) returns (all: seq<Contact>)
    ensures Build(cards, ids, name) == Err(BothForms) <==> cards != [] && ids != []
    ensures Build(cards, ids, name) == Err(BadSharedName) <==>
      (cards == [] || ids == []) && (|name| > 256 || '\0' in name)
    ensures Build(cards, ids, name) == Err(BadCount) <==>
      && (cards == [] || ids == []) && |name| <= 256 && '\0' !in name && !(1 <= |cards| + |ids| <= 20)
    ensures (cards == [] || ids == []) ==> AreCards(all, cards, ids, name) && |all| == |cards| + |ids|
    ensures Build(cards, ids, name).Ok? <==>
      && (cards == [] || ids == []) && |name| <= 256 && '\0' !in name && 1 <= |cards| + |ids| <= 20
      && AllGood(all)
    ensures Build(cards, ids, name).Ok? ==> var out := Build(cards, ids, name).value;
      |out| == |all| && forall i :: 0 <= i < |all| ==> Conveys(out[i], all[i])
  {
    IdsMean(ids, name);
    all := cards + FromIds(ids, name);
    AllErrors(all);
    if Build(cards, ids, name).Ok? {
      AllConveyed(all);
    }
  }
}
