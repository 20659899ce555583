/** The TXT presentation forms as a grammar, and that the parsers accept exactly its texts
    (crates/center-adapter-cloudflare/src/http.rs, `txt_value`;
    crates/center-adapter-route53/src/model.rs, `parse_character_strings`). */
module TxtGrammar {
  import opened Basics
  import opened CharacterStrings

  // ---------------------------------------------------------------- the grammar

  /** A way to write one octet. */
  datatype Piece = Piece(chunk: Bytes, value: Byte)

  predicate StartsWithTwoDigits(text: Bytes) {
    |text| >= 2 && IsDigit(text[0]) && IsDigit(text[1])
  }

  function DigitValue(b: Byte): int {
    b as int - 0x30
  }

  /** Four bytes: a backslash and three digits, decimal for Cloudflare and octal for Route 53. */
  predicate SpellsByNumber(style: Style, chunk: Bytes, v: Byte) {
    && |chunk| == 4 && chunk[0] == BACKSLASH
    && (forall i :: 1 <= i < 4 ==> 0x30 <= chunk[i] <= (if style.Cloudflare? then 0x39 else 0x37))
    && var d, e, f := DigitValue(chunk[1]), DigitValue(chunk[2]), DigitValue(chunk[3]);
    v as int == if style.Cloudflare? then 100 * d + 10 * e + f else 64 * d + 8 * e + f
  }

  /** What may stand for an octet inside quotes, before `following`: itself, unless it is a quote, a backslash or,
      for Cloudflare, a control; itself after a backslash, unless that would begin a number; or its number. */
  predicate Spells(style: Style, chunk: Bytes, v: Byte, following: Bytes) {
    || (chunk == [v] && v != QUOTE && v != BACKSLASH && (style.Cloudflare? ==> 0x20 <= v && v != 0x7f))
    || (chunk == [BACKSLASH, v] && !(IsDigit(v) && (style.Route53? || StartsWithTwoDigits(following))))
    || SpellsByNumber(style, chunk, v)
  }

  function Text(pieces: seq<Piece>): Bytes {
    if |pieces| == 0 then [] else pieces[0].chunk + Text(pieces[1..])
  }

  function Values(pieces: seq<Piece>): Bytes {
    if |pieces| == 0 then [] else [pieces[0].value] + Values(pieces[1..])
  }

  predicate Spelled(style: Style, pieces: seq<Piece>, after: Bytes) {
    |pieces| > 0 ==>
      && Spells(style, pieces[0].chunk, pieces[0].value, Text(pieces[1..]) + after)
      && Spelled(style, pieces[1..], after)
  }

  /** Space, tab, line feed, form feed or carriage return. */
  predicate Blank(b: Byte) {
    b in {0x20, 0x09, 0x0a, 0x0c, 0x0d}
  }

  predicate AllSpace(text: Bytes) {
    forall i :: 0 <= i < |text| ==> Blank(text[i])
  }

  lemma BlankIsWhitespace(b: Byte)
    ensures Blank(b) <==> IsWhitespace(b)
  {
  }

  /** The text is whitespace, a quoted string spelling `segment`, and `rest`. */
  ghost predicate BeginsWith(style: Style, text: Bytes, segment: Bytes, rest: Bytes) {
    && |segment| <= 255
    && (style.Cloudflare? && |rest| > 0 ==> Blank(rest[0]))
    && exists lead, pieces :: IsQuoted(style, text, segment, rest, lead, pieces)
  }

  ghost predicate IsQuoted(style: Style, text: Bytes, segment: Bytes, rest: Bytes, lead: Bytes, pieces: seq<Piece>) {
    && AllSpace(lead) && Values(pieces) == segment && Spelled(style, pieces, [QUOTE] + rest)
    && text == lead + ([QUOTE] + (Text(pieces) + ([QUOTE] + rest)))
  }

  /** The text is a sequence of quoted strings that spell the segments. */
  ghost predicate Derives(style: Style, text: Bytes, segments: seq<Bytes>)
    decreases |segments|
  {
    if |segments| == 0 then AllSpace(text)
    else exists rest :: BeginsWith(style, text, segments[0], rest) && Derives(style, rest, segments[1..])
  }

  // ---------------------------------------------------------------- the lexer

  /** The lexer takes a chunk off the front of a text, as an octet, exactly when the chunk spells it there. */
  lemma LexExactlyWhen(style: Style, chunk: Bytes, v: Byte, following: Bytes)
    requires |chunk| > 0
    ensures Lex(style, chunk + following) == Octet(v, |chunk|) <==> Spells(style, chunk, v, following)
  {
    var text := chunk + following;
    assert text[0] == chunk[0];
    if text[0] == BACKSLASH {
      EscapeExactlyWhen(style, chunk, v, following);
    } else if |chunk| == 1 {
      assert chunk == [chunk[0]];
    }
  }

  lemma EscapeExactlyWhen(style: Style, chunk: Bytes, v: Byte, following: Bytes)
    requires |chunk| > 0 && chunk[0] == BACKSLASH
    ensures Escape(style, chunk + following) == Octet(v, |chunk|) <==> Spells(style, chunk, v, following)
  {
    var text := chunk + following;
    assert forall i :: 0 <= i < |chunk| ==> text[i] == chunk[i];
    if |chunk| == 2 {
      assert chunk == [BACKSLASH, chunk[1]];
      assert text[2..] == following;
      assert |following| >= 1 ==> text[2] == following[0];
      assert |following| >= 2 ==> text[3] == following[1];
    }
  }

  lemma CloseExactlyWhen(style: Style, text: Bytes)
    ensures Lex(style, text) == Close <==> |text| > 0 && text[0] == QUOTE
  {
  }

  // ---------------------------------------------------------------- quoted strings

  /** The pieces are what a lexer takes off the text one after the other. */
  ghost predicate Lexed(lex: Bytes -> Token, pieces: seq<Piece>, after: Bytes) {
    |pieces| > 0 ==>
      && |pieces[0].chunk| > 0
      && lex(pieces[0].chunk + (Text(pieces[1..]) + after)) == Octet(pieces[0].value, |pieces[0].chunk|)
      && Lexed(lex, pieces[1..], after)
  }

  lemma {:induction false} SpelledIsLexed(style: Style, lex: Bytes -> Token, pieces: seq<Piece>, after: Bytes)
    requires lex == Lexer(style)
    ensures Spelled(style, pieces, after) <==> Lexed(lex, pieces, after)
  {
    if |pieces| > 0 {
      SpelledIsLexed(style, lex, pieces[1..], after);
      if |pieces[0].chunk| > 0 {
        LexExactlyWhen(style, pieces[0].chunk, pieces[0].value, Text(pieces[1..]) + after);
      }
    }
  }

  lemma {:induction false} LexedReads(lex: Bytes -> Token, pieces: seq<Piece>, after: Bytes, sofar: Bytes)
    requires Advances(lex) && Lexed(lex, pieces, after) && |after| > 0 && lex(after) == Close
    ensures Body(lex, Text(pieces) + after, sofar) == Some((sofar + Values(pieces), after[1..]))
    decreases |pieces|
  {
    if |pieces| == 0 {
      assert Text(pieces) + after == after && sofar + Values(pieces) == sofar;
    } else {
      var p, tail := pieces[0], pieces[1..];
      Associates(p.chunk, Text(tail), after);
      BodyStep(lex, p.chunk, Text(tail) + after, sofar, p.value);
      LexedReads(lex, tail, after, sofar + [p.value]);
      Associates(sofar, [p.value], Values(tail));
    }
  }

  lemma {:induction false} ReadIsLexed(lex: Bytes -> Token, text: Bytes, sofar: Bytes)
    returns (pieces: seq<Piece>, after: Bytes)
    requires Advances(lex) && Body(lex, text, sofar).Some?
    ensures text == Text(pieces) + after && |after| > 0 && lex(after) == Close && Lexed(lex, pieces, after)
    ensures Body(lex, text, sofar).value == (sofar + Values(pieces), after[1..])
    decreases |text|
  {
    var t := lex(text);
    if t.Close? {
      pieces, after := [], text;
      assert Text(pieces) + after == text && sofar + Values(pieces) == sofar;
    } else {
      var head, more := text[..t.width], text[t.width..];
      assert text == head + more;
      var tail;
      tail, after := ReadIsLexed(lex, more, sofar + [t.value]);
      pieces := [Piece(head, t.value)] + tail;
      assert pieces[1..] == tail;
      Associates(head, Text(tail), after);
      Associates(sofar, [t.value], Values(tail));
    }
  }

  // ---------------------------------------------------------------- whitespace

  lemma {:induction false} SkipsExactly(lead: Bytes, text: Bytes)
    requires AllSpace(lead) && (|text| > 0 ==> !IsWhitespace(text[0]))
    ensures SkipSpace(lead + text) == text
  {
    if |lead| == 0 {
      assert lead + text == text;
    } else {
      assert (lead + text)[1..] == lead[1..] + text;
      SkipsExactly(lead[1..], text);
    }
  }

  lemma {:induction false} SkippedIsSpace(text: Bytes) returns (lead: Bytes)
    ensures AllSpace(lead) && text == lead + SkipSpace(text)
  {
    if |text| > 0 && IsWhitespace(text[0]) {
      var more := SkippedIsSpace(text[1..]);
      lead := [text[0]] + more;
      assert text == [text[0]] + text[1..];
    } else {
      lead := [];
    }
  }

  // ---------------------------------------------------------------- the parsers

  lemma QuotedIsSplit(style: Style, text: Bytes, segment: Bytes, rest: Bytes)
    requires BeginsWith(style, text, segment, rest)
    ensures Splitter(style)(text) == Segment(segment, rest)
  {
    var lead, pieces :| IsQuoted(style, text, segment, rest, lead, pieces);
    var lex, after := Lexer(style), [QUOTE] + rest;
    var inner := Text(pieces) + after;
    SkipsExactly(lead, [QUOTE] + inner);
    assert ([QUOTE] + inner)[1..] == inner && after[1..] == rest;
    SpelledIsLexed(style, lex, pieces, after);
    CloseExactlyWhen(style, after);
    LexedReads(lex, pieces, after, []);
    assert [] + Values(pieces) == Values(pieces);
  }

  lemma SplitIsQuoted(style: Style, text: Bytes)
    requires Splitter(style)(text).Segment?
    ensures BeginsWith(style, text, Splitter(style)(text).bytes, Splitter(style)(text).rest)
  {
    var lex, f := Lexer(style), Splitter(style)(text);
    var lead := SkippedIsSpace(text);
    var t := SkipSpace(text);
    var pieces, after := ReadIsLexed(lex, t[1..], []);
    SpelledIsLexed(style, lex, pieces, after);
    CloseExactlyWhen(style, after);
    assert [] + Values(pieces) == Values(pieces);
    assert after == [QUOTE] + f.rest && t == [QUOTE] + t[1..];
    assert IsQuoted(style, text, f.bytes, f.rest, lead, pieces);
  }

  lemma EmptyIsSpace(style: Style, text: Bytes)
    ensures Splitter(style)(text).Empty? <==> AllSpace(text)
  {
    var lead := SkippedIsSpace(text);
    if AllSpace(text) {
      assert text + [] == text;
      SkipsExactly(text, []);
    }
    if SkipSpace(text) == [] {
      assert text == lead;
    }
  }

  lemma {:induction false} ParsedIsDerived(style: Style, split: Bytes -> Front, text: Bytes)
    requires Shrinks(split) && split == Splitter(style) && Segments(split, text).Some?
    ensures Derives(style, text, Segments(split, text).value)
    decreases |text|
  {
    if split(text).Empty? {
      EmptyIsSpace(style, text);
    } else {
      var f := split(text);
      SplitIsQuoted(style, text);
      ParsedIsDerived(style, split, f.rest);
      assert Segments(split, text).value[1..] == Segments(split, f.rest).value;
    }
  }

  lemma {:induction false} DerivedIsParsed(style: Style, split: Bytes -> Front, text: Bytes, segments: seq<Bytes>)
    requires Shrinks(split) && split == Splitter(style) && Derives(style, text, segments)
    ensures Segments(split, text) == Some(segments)
    decreases |segments|
  {
    if |segments| == 0 {
      EmptyIsSpace(style, text);
    } else {
      var rest := RestOf(style, text, segments);
      DerivedIsParsed(style, split, rest, segments[1..]);
      OneMoreSegment(split, text, rest, segments);
    }
  }

  lemma RestOf(style: Style, text: Bytes, segments: seq<Bytes>) returns (rest: Bytes)
    requires |segments| > 0 && Derives(style, text, segments)
    ensures Splitter(style)(text) == Segment(segments[0], rest) && Derives(style, rest, segments[1..])
  {
    rest :| BeginsWith(style, text, segments[0], rest) && Derives(style, rest, segments[1..]);
    QuotedIsSplit(style, text, segments[0], rest);
  }

  lemma OneMoreSegment(split: Bytes -> Front, text: Bytes, rest: Bytes, segments: seq<Bytes>)
    requires Shrinks(split) && |segments| > 0 && split(text) == Segment(segments[0], rest)
    requires Segments(split, rest) == Some(segments[1..])
    ensures Segments(split, text) == Some(segments)
  {
    assert [segments[0]] + segments[1..] == segments;
  }

  /** All octets of a value together. */
  function Joined(segments: seq<Bytes>): Bytes {
    if |segments| == 0 then [] else segments[0] + Joined(segments[1..])
  }

  lemma {:induction false} JoinedTotal(segments: seq<Bytes>)
    ensures |Joined(segments)| == Total(segments)
  {
    if |segments| > 0 {
      JoinedTotal(segments[1..]);
    }
  }

  /** The parsers accept exactly the texts of the grammar, as the segments they spell, within the limits. */
  lemma ParsesExactlyWhen(style: Style, text: Bytes, segments: seq<Bytes>)
    ensures ParseTxt(style, text) == Some(segments) <==>
      Derives(style, text, segments) && 1 <= |segments| <= 64 && |Joined(segments)| <= 4096
  {
    JoinedTotal(segments);
    var split := Splitter(style);
    if Segments(split, text).Some? {
      ParsedIsDerived(style, split, text);
    }
    if Derives(style, text, segments) {
      DerivedIsParsed(style, split, text, segments);
    }
  }

  lemma DigitsSpell(style: Style, b: Byte)
    ensures SpellsByNumber(style, [BACKSLASH] + Digits(style, b), b)
    ensures forall i :: 0 <= i < 3 ==> 0x30 <= Digits(style, b)[i] <= 0x39
  {
    var n := b as int;
    match style
    case Cloudflare =>
      assert 100 * (n / 100) + 10 * (n / 10 % 10) + n % 10 == n;
    case Route53 =>
      assert 64 * (n / 64) + 8 * (n / 8 % 8) + n % 8 == n;
  }

  /** The printers choose the shortest spelling: a printable octet stands for itself, after a backslash if it is a
      quote or a backslash, and only the others are written as numbers. */
  lemma PrintedShortest(style: Style, b: Byte)
    ensures 0x20 <= b <= 0x7e && b != QUOTE && b != BACKSLASH ==> Printed(style, b) == [b]
    ensures b == QUOTE || b == BACKSLASH ==> Printed(style, b) == [BACKSLASH, b]
    ensures b < 0x20 || b > 0x7e ==> SpellsByNumber(style, Printed(style, b), b)
  {
    DigitsSpell(style, b);
  }
}
