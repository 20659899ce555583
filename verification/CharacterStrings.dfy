/** DNS character-strings in presentation form, with the decimal escapes of section 5.1 of RFC 1035
    that Cloudflare uses and the octal escapes that Route 53 uses
    (crates/center-adapter-cloudflare/src/lib.rs and http.rs, crates/center-adapter-route53/src/model.rs). */
module CharacterStrings {
  import opened Basics

  datatype Style = Cloudflare | Route53

  const QUOTE: Byte := 0x22
  const BACKSLASH: Byte := 0x5c
  const SPACE: Byte := 0x20
  const ZERO: Byte := 0x30

  const MAX_SEGMENT_BYTES := 255
  const MAX_TXT_SEGMENTS := 64
  const MAX_TXT_TOTAL_BYTES := 4096

  // ---------------------------------------------------------------- printing

  /** The three digits of `{:03}` and `{:03o}`. */
  function Digits(style: Style, b: Byte): (r: Bytes)
    ensures |r| == 3
  {
    match style
    case Cloudflare => [ZERO + b / 100, ZERO + b / 10 % 10, ZERO + b % 10]
    case Route53 => [ZERO + b / 64, ZERO + b / 8 % 8, ZERO + b % 8]
  }

  function Printed(style: Style, b: Byte): Bytes {
    if b == QUOTE || b == BACKSLASH then [BACKSLASH, b]
    else if 0x20 <= b <= 0x7e then [b]
    else [BACKSLASH] + Digits(style, b)
  }

  function Printer(style: Style): Byte -> Bytes {
    b => Printed(style, b)
  }

  function PrintedAll(print1: Byte -> Bytes, bytes: Bytes): Bytes {
    if |bytes| == 0 then [] else print1(bytes[0]) + PrintedAll(print1, bytes[1..])
  }

  lemma {:induction false} PrintedAllAppends(print1: Byte -> Bytes, bytes: Bytes, b: Byte)
    ensures PrintedAll(print1, bytes + [b]) == PrintedAll(print1, bytes) + print1(b)
  {
    if |bytes| == 0 {
      assert PrintedAll(print1, [b]) == print1(b) + PrintedAll(print1, [b][1..]);
    } else {
      assert (bytes + [b])[1..] == bytes[1..] + [b];
      PrintedAllAppends(print1, bytes[1..], b);
    }
  }

  function Quoted(print1: Byte -> Bytes, segment: Bytes): Bytes {
    [QUOTE] + PrintedAll(print1, segment) + [QUOTE]
  }

  function Quoter(style: Style): Bytes -> Bytes {
    segment => Quoted(Printer(style), segment)
  }

  /** The quoted segments joined by single spaces. */
  function Joined(quote: Bytes -> Bytes, segments: seq<Bytes>): Bytes {
    if |segments| == 0 then []
    else if |segments| == 1 then quote(segments[0])
    else quote(segments[0]) + [SPACE] + Joined(quote, segments[1..])
  }

  function Presentation(style: Style, segments: seq<Bytes>): Bytes {
    Joined(Quoter(style), segments)
  }

  /** `render_character_string` and the closure inside `render_txt`. */
  method RenderCharacterString(style: Style, segment: Bytes) returns (rendered: Bytes)
    ensures rendered == Quoter(style)(segment)
  {
    rendered := [QUOTE];
    var i := 0;
    while i < |segment|
      invariant 0 <= i <= |segment|
      invariant rendered == [QUOTE] + PrintedAll(Printer(style), segment[..i])
    {
      var b := segment[i];
      PrintedAllAppends(Printer(style), segment[..i], b);
      assert segment[..i + 1] == segment[..i] + [b];
      ghost var printed := PrintedAll(Printer(style), segment[..i]);
      assert [QUOTE] + (printed + Printed(style, b)) == [QUOTE] + printed + Printed(style, b);
      if b == QUOTE || b == BACKSLASH {
        rendered := rendered + [BACKSLASH, b];
      } else if 0x20 <= b <= 0x7e {
        rendered := rendered + [b];
      } else {
        rendered := rendered + ([BACKSLASH] + Digits(style, b));
      }
      i := i + 1;
    }
    assert segment[..i] == segment;
    rendered := rendered + [QUOTE];
  }

  /** `render_txt`, and the TXT arm of Route 53's `render_value`. */
  method RenderTxt(style: Style, segments: seq<Bytes>) returns (rendered: Bytes)
    ensures rendered == Presentation(style, segments)
  {
    rendered := [];
    var i := |segments|;
    while i > 0
      invariant 0 <= i <= |segments|
      invariant rendered == Joined(Quoter(style), segments[i..])
    {
      i := i - 1;
      var quoted := RenderCharacterString(style, segments[i]);
      assert segments[i..][1..] == segments[i + 1..];
      rendered := if i == |segments| - 1 then quoted else quoted + [SPACE] + rendered;
    }
  }

  // ---------------------------------------------------------------- parsing

  predicate IsWhitespace(b: Byte) {
    b == 0x20 || b == 0x09 || b == 0x0a || b == 0x0c || b == 0x0d
  }

  predicate IsDigit(b: Byte) {
    0x30 <= b <= 0x39
  }

  predicate IsOctal(b: Byte) {
    0x30 <= b <= 0x37
  }

  predicate IsControl(b: Byte) {
    b < 0x20 || b == 0x7f
  }

  /** What the text inside a quoted string begins with. */
  datatype Token = Close | Octet(value: Byte, width: nat) | Malformed

  function Decimal(a: Byte, b: Byte, c: Byte): Token
    requires IsDigit(a) && IsDigit(b) && IsDigit(c)
  {
    var n := (a - ZERO) as int * 100 + (b - ZERO) as int * 10 + (c - ZERO) as int;
    if n > 255 then Malformed else Octet(n as Byte, 4)
  }

  /** `parse_octal_escape`. */
  function Octal(digits: Bytes): Token {
    if |digits| < 3 || !IsOctal(digits[0]) || !IsOctal(digits[1]) || !IsOctal(digits[2]) then Malformed
    else
      var n := (digits[0] - ZERO) as int * 64 + (digits[1] - ZERO) as int * 8 + (digits[2] - ZERO) as int;
      if n > 255 then Malformed else Octet(n as Byte, 4)
  }

  function Escape(style: Style, text: Bytes): Token
    requires |text| > 0 && text[0] == BACKSLASH
  {
    if |text| == 1 then Malformed
    else match style
      case Cloudflare =>
        if |text| >= 4 && IsDigit(text[1]) && IsDigit(text[2]) && IsDigit(text[3])
        then Decimal(text[1], text[2], text[3])
        else Octet(text[1], 2)
      case Route53 =>
        if IsDigit(text[1]) then Octal(text[1..]) else Octet(text[1], 2)
  }

  function Lex(style: Style, text: Bytes): (t: Token)
    ensures t.Octet? ==> 0 < t.width <= |text|
  {
    if |text| == 0 then Malformed
    else if text[0] == QUOTE then Close
    else if text[0] == BACKSLASH then Escape(style, text)
    else if style.Cloudflare? && IsControl(text[0]) then Malformed
    else Octet(text[0], 1)
  }

  ghost predicate Advances(lex: Bytes -> Token) {
    forall text: Bytes :: lex(text).Octet? ==> 0 < lex(text).width <= |text|
  }

  function Lexer(style: Style): (lex: Bytes -> Token)
    ensures Advances(lex)
  {
    text => Lex(style, text)
  }

  /** The octets up to the closing quote, appended to `segment`, and the text after it. */
  function Body(lex: Bytes -> Token, text: Bytes, segment: Bytes): (r: Option<(Bytes, Bytes)>)
    requires Advances(lex)
    ensures r.Some? ==> |r.value.0| >= |segment| && |r.value.1| < |text|
    decreases |text|
  {
    if |text| == 0 then None
    else match lex(text)
      case Close => Some((segment, text[1..]))
      case Octet(value, width) => Body(lex, text[width..], segment + [value])
      case Malformed => None
  }

  function SkipSpace(text: Bytes): (r: Bytes)
    ensures |r| <= |text| && (|r| > 0 ==> !IsWhitespace(r[0]))
  {
    if |text| > 0 && IsWhitespace(text[0]) then SkipSpace(text[1..]) else text
  }

  /** Cloudflare wants whitespace between quoted strings; Route 53 does not. */
  predicate Separated(strict: bool, rest: Bytes) {
    strict && |rest| > 0 ==> IsWhitespace(rest[0])
  }

  /** The front of a text: nothing but whitespace, one quoted string, or neither. */
  datatype Front = Empty | Segment(bytes: Bytes, rest: Bytes) | Broken

  function SplitFront(lex: Bytes -> Token, strict: bool, text: Bytes): (f: Front)
    requires Advances(lex)
    ensures f.Segment? ==> |f.rest| < |text|
  {
    var t := SkipSpace(text);
    if |t| == 0 then Empty
    else if t[0] != QUOTE then Broken
    else
      var body := Body(lex, t[1..], []);
      if body.None? || !Separated(strict, body.value.1) || |body.value.0| > MAX_SEGMENT_BYTES then Broken
      else Segment(body.value.0, body.value.1)
  }

  ghost predicate Shrinks(split: Bytes -> Front) {
    forall text: Bytes :: split(text).Segment? ==> |split(text).rest| < |text|
  }

  function SplitterBy(lex: Bytes -> Token, strict: bool): (split: Bytes -> Front)
    requires Advances(lex)
    ensures Shrinks(split)
  {
    text requires Advances(lex) => SplitFront(lex, strict, text)
  }

  function Splitter(style: Style): (split: Bytes -> Front)
    ensures Shrinks(split)
  {
    SplitterBy(Lexer(style), style.Cloudflare?)
  }

  function Segments(split: Bytes -> Front, text: Bytes): Option<seq<Bytes>>
    requires Shrinks(split)
    decreases |text|
  {
    match split(text)
    case Empty => Some([])
    case Segment(bytes, rest) => Onto([bytes], Segments(split, rest))
    case Broken => None
  }

  function Total(segments: seq<Bytes>): nat {
    if |segments| == 0 then 0 else |segments[0]| + Total(segments[1..])
  }

  /** What `DnsCharacterString::new` and `DnsTxtValue::new` admit. */
  predicate IsTxtValue(segments: seq<Bytes>) {
    && 0 < |segments| <= MAX_TXT_SEGMENTS && Total(segments) <= MAX_TXT_TOTAL_BYTES
    && forall i :: 0 <= i < |segments| ==> |segments[i]| <= MAX_SEGMENT_BYTES
  }

  function ParseTxt(style: Style, text: Bytes): Option<seq<Bytes>> {
    var s := Segments(Splitter(style), text);
    if s.Some? && 0 < |s.value| <= MAX_TXT_SEGMENTS && Total(s.value) <= MAX_TXT_TOTAL_BYTES then s else None
  }

  function Onto(done: seq<Bytes>, more: Option<seq<Bytes>>): Option<seq<Bytes>> {
    if more.None? then None else Some(done + more.value)
  }

  lemma OntoAppends(done: seq<Bytes>, segment: Bytes, more: Option<seq<Bytes>>)
    ensures Onto([], more) == more && Onto(done, Some([])) == Some(done)
    ensures Onto(done, Onto([segment], more)) == Onto(done + [segment], more)
  {
    assert done + [] == done;
    if more.Some? {
      assert [] + more.value == more.value;
      assert done + ([segment] + more.value) == done + [segment] + more.value;
    }
  }

  /** One step of `Body` at an offset of a buffer. */
  lemma BodyAt(lex: Bytes -> Token, bytes: Bytes, offset: nat, segment: Bytes)
    requires Advances(lex) && offset < |bytes|
    ensures var t, b := lex(bytes[offset..]), Body(lex, bytes[offset..], segment);
      && (t.Close? ==> b == Some((segment, bytes[offset + 1..])))
      && (t.Octet? ==> offset + t.width <= |bytes| && b == Body(lex, bytes[offset + t.width..], segment + [t.value]))
      && (t.Malformed? ==> b.None?)
  {
    var text := bytes[offset..];
    var t := lex(text);
    if t.Octet? {
      assert text[t.width..] == bytes[offset + t.width..];
    }
  }

  /** The inner loop of both parsers: octets up to the closing quote. With `limited`, Cloudflare's
      loop, it gives up as soon as the segment is too long. */
  method ReadBody(lex: Bytes -> Token, limited: bool, bytes: Bytes, start: nat) returns (r: Option<(Bytes, nat)>)
    requires Advances(lex) && start <= |bytes|
    ensures r.Some? ==> r.value.1 <= |bytes| && Body(lex, bytes[start..], []) == Some((r.value.0, bytes[r.value.1..]))
    ensures r.None? <==>
      var b := Body(lex, bytes[start..], []);
      b.None? || (limited && |b.value.0| > MAX_SEGMENT_BYTES)
  {
    var offset, segment := start, [];
    while offset < |bytes|
      invariant start <= offset <= |bytes|
      invariant Body(lex, bytes[start..], []) == Body(lex, bytes[offset..], segment)
      invariant limited ==> |segment| <= MAX_SEGMENT_BYTES
    {
      BodyAt(lex, bytes, offset, segment);
      match lex(bytes[offset..]) {
        case Close =>
          return Some((segment, offset + 1));
        case Octet(value, width) =>
          segment := segment + [value];
          offset := offset + width;
        case Malformed =>
          return None;
      }
      if limited && |segment| > MAX_SEGMENT_BYTES {
        return None;
      }
    }
    return None;
  }

  method SkipWhitespace(bytes: Bytes, start: nat) returns (offset: nat)
    requires start <= |bytes|
    ensures start <= offset <= |bytes| && SkipSpace(bytes[start..]) == bytes[offset..]
  {
    offset := start;
    while offset < |bytes| && IsWhitespace(bytes[offset])
      invariant start <= offset <= |bytes|
      invariant SkipSpace(bytes[start..]) == SkipSpace(bytes[offset..])
    {
      assert bytes[offset..][1..] == bytes[offset + 1..];
      offset := offset + 1;
    }
  }

  /** One quoted string at offset `quote` of a buffer, after the whitespace from `start`. */
  lemma SplitAt(lex: Bytes -> Token, strict: bool, bytes: Bytes, start: nat, quote: nat)
    requires Advances(lex)
    requires start <= quote < |bytes| && SkipSpace(bytes[start..]) == bytes[quote..]
    ensures bytes[quote] != QUOTE ==> SplitFront(lex, strict, bytes[start..]) == Broken
    ensures bytes[quote] == QUOTE ==>
      var body := Body(lex, bytes[quote + 1..], []);
      SplitFront(lex, strict, bytes[start..]) ==
        if body.None? || !Separated(strict, body.value.1) || |body.value.0| > MAX_SEGMENT_BYTES then Broken
        else Segment(body.value.0, body.value.1)
  {
    assert bytes[quote..][1..] == bytes[quote + 1..];
  }

  /** One round of the outer loop: the next quoted string and the offset after it. */
  method ReadSegment(lex: Bytes -> Token, strict: bool, bytes: Bytes, start: nat) returns (front: Front, offset: nat)
    requires Advances(lex) && start < |bytes|
    ensures front == SplitFront(lex, strict, bytes[start..])
    ensures front.Segment? ==> start < offset <= |bytes| && front.rest == bytes[offset..]
  {
    var quote := SkipWhitespace(bytes, start);
    if quote == |bytes| {
      return Empty, quote;
    }
    SplitAt(lex, strict, bytes, start, quote);
    if bytes[quote] != QUOTE {
      return Broken, quote;
    }
    var body := ReadBody(lex, strict, bytes, quote + 1);
    if body.None? {
      return Broken, quote;
    }
    offset := body.value.1;
    if strict && offset < |bytes| && !IsWhitespace(bytes[offset]) {
      return Broken, quote;
    }
    if |body.value.0| > MAX_SEGMENT_BYTES {
      return Broken, quote;
    }
    front := Segment(body.value.0, bytes[offset..]);
  }

  /** `txt_value` (Cloudflare) and `parse_character_strings` (Route 53). */
  method ParseCharacterStrings(style: Style, bytes: Bytes) returns (r: Option<seq<Bytes>>)
    ensures r == ParseTxt(style, bytes)
  {
    var parsed := ReadSegments(Lexer(style), style.Cloudflare?, bytes);
    if parsed.None? || |parsed.value| == 0 || |parsed.value| > MAX_TXT_SEGMENTS
        || Total(parsed.value) > MAX_TXT_TOTAL_BYTES {
      return None;
    }
    return parsed;
  }

  method ReadSegments(lex: Bytes -> Token, strict: bool, bytes: Bytes) returns (r: Option<seq<Bytes>>)
    requires Advances(lex)
    ensures r == Segments(SplitterBy(lex, strict), bytes)
  {
    ghost var split := SplitterBy(lex, strict);
    var offset, segments := 0, [];
    assert bytes[0..] == bytes;
    OntoAppends([], [], Segments(split, bytes));
    while offset < |bytes|
      invariant 0 <= offset <= |bytes|
      invariant Segments(split, bytes) == Onto(segments, Segments(split, bytes[offset..]))
    {
      var front, next := ReadSegment(lex, strict, bytes, offset);
      if front.Empty? {
        OntoAppends(segments, [], None);
        return Some(segments);
      }
      if front.Broken? {
        return None;
      }
      OntoAppends(segments, front.bytes, Segments(split, bytes[next..]));
      segments := segments + [front.bytes];
      offset := next;
    }
    assert bytes[offset..] == [];
    assert split([]) == Empty;
    OntoAppends(segments, [], None);
    return Some(segments);
  }

  // ---------------------------------------------------------------- round trip

  lemma DecimalReadsBack(b: Byte)
    ensures var d := Digits(Cloudflare, b);
      IsDigit(d[0]) && IsDigit(d[1]) && IsDigit(d[2]) && Decimal(d[0], d[1], d[2]) == Octet(b, 4)
  {
  }

  lemma OctalReadsBack(b: Byte, rest: Bytes)
    ensures Octal(Digits(Route53, b) + rest) == Octet(b, 4) && IsDigit(Digits(Route53, b)[0])
  {
    var d := Digits(Route53, b);
    assert (d + rest)[0] == d[0] && (d + rest)[1] == d[1] && (d + rest)[2] == d[2];
  }

  lemma EscapeReadsBack(style: Style, b: Byte, rest: Bytes)
    ensures Escape(style, [BACKSLASH] + Digits(style, b) + rest) == Octet(b, 4)
  {
    var d := Digits(style, b);
    var text := [BACKSLASH] + d + rest;
    assert text[1] == d[0] && text[2] == d[1] && text[3] == d[2];
    assert text[1..] == d + rest;
    match style
    case Cloudflare => DecimalReadsBack(b);
    case Route53 => OctalReadsBack(b, rest);
  }

  /** Reading back one printed octet, whatever follows it. */
  lemma PrintedReadsBack(style: Style, b: Byte, rest: Bytes)
    ensures Lex(style, Printed(style, b) + rest) == Octet(b, |Printed(style, b)|)
  {
    if b != QUOTE && b != BACKSLASH && !(0x20 <= b <= 0x7e) {
      EscapeReadsBack(style, b, rest);
    }
  }

  /** The lexer undoes the printer on every octet and stops at every quote. */
  ghost predicate Undoes(lex: Bytes -> Token, print1: Byte -> Bytes) {
    && Advances(lex)
    && (forall b: Byte :: UndoesOne(lex, print1, b))
    && StopsAtQuotes(lex)
  }

  ghost predicate UndoesOne(lex: Bytes -> Token, print1: Byte -> Bytes, b: Byte) {
    |print1(b)| > 0 && forall rest: Bytes :: lex(print1(b) + rest) == Octet(b, |print1(b)|)
  }

  ghost predicate StopsAtQuotes(lex: Bytes -> Token) {
    forall rest: Bytes :: lex([QUOTE] + rest) == Close
  }

  lemma LexerUndoesPrinter(style: Style)
    ensures Undoes(Lexer(style), Printer(style))
  {
    forall b: Byte ensures UndoesOne(Lexer(style), Printer(style), b) {
      forall rest: Bytes ensures Lexer(style)(Printer(style)(b) + rest) == Octet(b, |Printer(style)(b)|) {
        PrintedReadsBack(style, b, rest);
      }
    }
  }

  lemma BodyStep(lex: Bytes -> Token, head: Bytes, after: Bytes, sofar: Bytes, b: Byte)
    requires Advances(lex) && |head| > 0 && lex(head + after) == Octet(b, |head|)
    ensures Body(lex, head + after, sofar) == Body(lex, after, sofar + [b])
  {
    assert (head + after)[|head|..] == after;
  }

  lemma BodyEnd(lex: Bytes -> Token, rest: Bytes, sofar: Bytes)
    requires Advances(lex) && lex([QUOTE] + rest) == Close
    ensures Body(lex, [QUOTE] + rest, sofar) == Some((sofar, rest))
  {
    assert ([QUOTE] + rest)[1..] == rest;
  }

  lemma Associates(a: Bytes, b: Bytes, c: Bytes)
    ensures a + b + c == a + (b + c)
  {
  }

  /** Reading one printed octet off a text. */
  lemma PrintedStep(lex: Bytes -> Token, print1: Byte -> Bytes, b: Byte, after: Bytes, sofar: Bytes)
    requires Undoes(lex, print1)
    ensures Body(lex, print1(b) + after, sofar) == Body(lex, after, sofar + [b])
  {
    assert UndoesOne(lex, print1, b);
    assert lex(print1(b) + after) == Octet(b, |print1(b)|);
    BodyStep(lex, print1(b), after, sofar, b);
  }

  lemma {:induction false} BodyReadsBack(lex: Bytes -> Token, print1: Byte -> Bytes, segment: Bytes, sofar: Bytes,
                                         rest: Bytes)
    requires Undoes(lex, print1)
    ensures Body(lex, PrintedAll(print1, segment) + ([QUOTE] + rest), sofar) == Some((sofar + segment, rest))
    decreases |segment|
  {
    var quoted := [QUOTE] + rest;
    if |segment| == 0 {
      assert [] + quoted == quoted && sofar + segment == sofar;
      BodyEnd(lex, rest, sofar);
    } else {
      var b, tail := segment[0], segment[1..];
      var printed := PrintedAll(print1, tail);
      Associates(print1(b), printed, quoted);
      PrintedStep(lex, print1, b, printed + quoted, sofar);
      BodyReadsBack(lex, print1, tail, sofar + [b], rest);
      Regroup(sofar, segment);
    }
  }

  lemma Regroup(sofar: Bytes, segment: Bytes)
    requires |segment| > 0
    ensures sofar + [segment[0]] + segment[1..] == sofar + segment
  {
  }

  lemma FirstSegmentReadsBack(lex: Bytes -> Token, print1: Byte -> Bytes, strict: bool, segment: Bytes, rest: Bytes)
    requires Undoes(lex, print1) && |segment| <= MAX_SEGMENT_BYTES && Separated(strict, rest)
    ensures SplitFront(lex, strict, Quoted(print1, segment) + rest) == Segment(segment, rest)
  {
    var text := Quoted(print1, segment) + rest;
    assert text[0] == QUOTE && SkipSpace(text) == text;
    assert text[1..] == PrintedAll(print1, segment) + ([QUOTE] + rest);
    BodyReadsBack(lex, print1, segment, [], rest);
    assert [] + segment == segment;
  }

  /** A splitter that takes quoted segments off the front of a text, skipping whitespace. */
  ghost predicate Unquotes(split: Bytes -> Front, quote: Bytes -> Bytes) {
    && Shrinks(split)
    && (forall segment: Bytes, rest: Bytes ::
          |segment| <= MAX_SEGMENT_BYTES && Separated(true, rest) ==>
            split(quote(segment) + rest) == Segment(segment, rest))
    && (forall text: Bytes :: split([SPACE] + text) == split(text))
    && split([]) == Empty
  }

  lemma SplitterUnquotes(style: Style)
    ensures Unquotes(Splitter(style), Quoter(style))
  {
    var lex, print1, strict := Lexer(style), Printer(style), style.Cloudflare?;
    LexerUndoesPrinter(style);
    forall segment: Bytes, rest: Bytes | |segment| <= MAX_SEGMENT_BYTES && Separated(true, rest)
      ensures Splitter(style)(Quoter(style)(segment) + rest) == Segment(segment, rest)
    {
      FirstSegmentReadsBack(lex, print1, strict, segment, rest);
    }
    forall text: Bytes ensures Splitter(style)([SPACE] + text) == Splitter(style)(text) {
      SpaceBefore(lex, strict, text);
    }
  }

  /** Whitespace in front of a text does not matter. */
  lemma SpaceBefore(lex: Bytes -> Token, strict: bool, text: Bytes)
    requires Advances(lex)
    ensures SplitFront(lex, strict, [SPACE] + text) == SplitFront(lex, strict, text)
  {
    assert ([SPACE] + text)[1..] == text;
  }

  lemma {:induction false} SegmentsReadBack(split: Bytes -> Front, quote: Bytes -> Bytes, segments: seq<Bytes>)
    requires Unquotes(split, quote)
    requires |segments| > 0 && forall i :: 0 <= i < |segments| ==> |segments[i]| <= MAX_SEGMENT_BYTES
    ensures Segments(split, Joined(quote, segments)) == Some(segments)
    decreases |segments|
  {
    var first, tail := segments[0], segments[1..];
    assert segments == [first] + tail;
    if |tail| == 0 {
      assert quote(first) + [] == quote(first);
      assert split(quote(first) + []) == Segment(first, []);
      assert Onto([first], Some([])) == Some(segments);
    } else {
      var rest := [SPACE] + Joined(quote, tail);
      Associates(quote(first), [SPACE], Joined(quote, tail));
      assert split(quote(first) + rest) == Segment(first, rest);
      SegmentsReadBack(split, quote, tail);
      SameFront(split, rest, Joined(quote, tail));
    }
  }

  lemma SameFront(split: Bytes -> Front, a: Bytes, b: Bytes)
    requires Shrinks(split) && split(a) == split(b)
    ensures Segments(split, a) == Segments(split, b)
  {
  }

  /** For every TXT value, in both styles, parsing the printed text returns the same segments. */
  lemma PrintThenParse(style: Style, segments: seq<Bytes>)
    requires IsTxtValue(segments)
    ensures ParseTxt(style, Presentation(style, segments)) == Some(segments)
  {
    SplitterUnquotes(style);
    SegmentsReadBack(Splitter(style), Quoter(style), segments);
  }

  /** What the parsers accept is a TXT value, so it survives being printed and parsed again. */
  lemma {:induction false} SegmentsBounded(split: Bytes -> Front, text: Bytes)
    requires Shrinks(split) && forall t: Bytes :: split(t).Segment? ==> |split(t).bytes| <= MAX_SEGMENT_BYTES
    ensures var s := Segments(split, text);
      s.Some? ==> forall i :: 0 <= i < |s.value| ==> |s.value[i]| <= MAX_SEGMENT_BYTES
    decreases |text|
  {
    if split(text).Segment? {
      SegmentsBounded(split, split(text).rest);
    }
  }

  lemma ParseThenPrintThenParse(style: Style, text: Bytes)
    requires ParseTxt(style, text).Some?
    ensures IsTxtValue(ParseTxt(style, text).value)
    ensures ParseTxt(style, Presentation(style, ParseTxt(style, text).value)) == ParseTxt(style, text)
  {
    SegmentsBounded(Splitter(style), text);
    PrintThenParse(style, ParseTxt(style, text).value);
  }
}
