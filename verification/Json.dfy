/** JSON text as sections 2 to 7 of RFC 8259 define it, over UTF-16 code units, and the
    quoting that JSON.stringify applies to strings. */
module Json {
  import opened Sql

  /** A UTF-16 code unit. */
  type Unit = x: int | 0 <= x < 0x1_0000

  type Text = seq<Unit>

  /** A string constant of the program; all of them are ASCII. */
  function T(s: string): Text {
    seq(|s|, i requires 0 <= i < |s| => if (s[i] as int) < 0x1_0000 then s[i] as int else 0xFFFD)
  }

  const QUOTE: Unit := 0x22
  const COMMA: Unit := 0x2C
  const MINUS: Unit := 0x2D
  const PERIOD: Unit := 0x2E
  const COLON: Unit := 0x3A
  const OPEN_BRACKET: Unit := 0x5B
  const BACKSLASH: Unit := 0x5C
  const CLOSE_BRACKET: Unit := 0x5D
  const OPEN_BRACE: Unit := 0x7B
  const CLOSE_BRACE: Unit := 0x7D

  datatype Value =
    | Null
    | Bool(b: bool)
    | Number
    | String(text: Text)
    | Array(elements: seq<Value>)
    | Object(members: seq<Member>)

  datatype Member = Member(name: Text, value: Value)

  /** What a parser made of the front of a text, and the text that remains. */
  datatype Parsed<+A> = Fail | At(value: A, rest: Text)

  // ----- White space, literals and numbers -----

  predicate IsSpace(u: Unit) { u == 0x20 || u == 0x09 || u == 0x0A || u == 0x0D }

  function SkipSpace(s: Text): (r: Text)
    ensures |r| <= |s|
    ensures |r| > 0 ==> !IsSpace(r[0])
  {
    if |s| > 0 && IsSpace(s[0]) then SkipSpace(s[1..]) else s
  }

  predicate IsDigit(u: Unit) { 0x30 <= u <= 0x39 }

  function SkipDigits(s: Text): (r: Text)
    ensures |r| <= |s|
  {
    if |s| > 0 && IsDigit(s[0]) then SkipDigits(s[1..]) else s
  }

  /** int: a zero, or digits that do not start with a zero */
  function ParseInt(s: Text): (r: Parsed<()>)
    ensures r.At? ==> |r.rest| < |s|
  {
    if |s| == 0 || !IsDigit(s[0]) then Fail
    else if s[0] == 0x30 then At((), s[1..])
    else At((), SkipDigits(s[1..]))
  }

  /** [ frac ] */
  function ParseFraction(s: Text): (r: Parsed<()>)
    ensures r.At? ==> |r.rest| <= |s|
  {
    if |s| == 0 || s[0] != PERIOD then At((), s)
    else if |s| == 1 || !IsDigit(s[1]) then Fail
    else At((), SkipDigits(s[1..]))
  }

  /** [ exp ] */
  function ParseExponent(s: Text): (r: Parsed<()>)
    ensures r.At? ==> |r.rest| <= |s|
  {
    if |s| == 0 || (s[0] != 0x45 && s[0] != 0x65) then At((), s)
    else
      var digits := if |s| > 1 && (s[1] == 0x2B || s[1] == MINUS) then s[2..] else s[1..];
      if |digits| == 0 || !IsDigit(digits[0]) then Fail else At((), SkipDigits(digits))
  }

  function ParseNumber(s: Text): (r: Parsed<Value>)
    ensures r.At? ==> |r.rest| < |s|
  {
    match ParseInt(if |s| > 0 && s[0] == MINUS then s[1..] else s)
    case Fail => Fail
    case At(_, afterInt) =>
      match ParseFraction(afterInt)
      case Fail => Fail
      case At(_, afterFraction) =>
        match ParseExponent(afterFraction)
        case Fail => Fail
        case At(_, rest) => At(Number, rest)
  }

  function ParseLiteral(s: Text, word: Text, v: Value): (r: Parsed<Value>)
    requires |word| > 0
    ensures r.At? ==> |r.rest| < |s|
  {
    if |word| <= |s| && s[..|word|] == word then At(v, s[|word|..]) else Fail
  }

  // ----- Strings -----

  function HexValue(u: Unit): (v: Option<int>)
    ensures v.Some? ==> 0 <= v.value < 16
  {
    if 0x30 <= u <= 0x39 then Some(u - 0x30)
    else if 0x41 <= u <= 0x46 then Some(u - 0x41 + 10)
    else if 0x61 <= u <= 0x66 then Some(u - 0x61 + 10)
    else None
  }

  /** The four digits after "\u". */
  function ParseHex4(s: Text): (r: Parsed<Unit>)
    ensures r.At? ==> |r.rest| < |s|
  {
    if |s| < 4 || HexValue(s[0]).None? || HexValue(s[1]).None? || HexValue(s[2]).None? || HexValue(s[3]).None? then Fail
    else At(0x1000 * HexValue(s[0]).value + 0x100 * HexValue(s[1]).value + 0x10 * HexValue(s[2]).value + HexValue(s[3]).value, s[4..])
  }

  /** What follows a reverse solidus. */
  function ParseEscape(s: Text): (r: Parsed<Unit>)
    ensures r.At? ==> |r.rest| < |s|
  {
    if |s| == 0 then Fail
    else if s[0] == QUOTE || s[0] == BACKSLASH || s[0] == 0x2F then At(s[0], s[1..])
    else if s[0] == 0x62 then At(0x08, s[1..])
    else if s[0] == 0x66 then At(0x0C, s[1..])
    else if s[0] == 0x6E then At(0x0A, s[1..])
    else if s[0] == 0x72 then At(0x0D, s[1..])
    else if s[0] == 0x74 then At(0x09, s[1..])
    else if s[0] == 0x75 then ParseHex4(s[1..])
    else Fail
  }

  function Prepend(u: Unit, r: Parsed<Text>): Parsed<Text> {
    match r case Fail => Fail case At(text, rest) => At([u] + text, rest)
  }

  /** The characters of a string up to and including its closing quotation mark. */
  function ParseChars(s: Text): (r: Parsed<Text>)
    ensures r.At? ==> |r.rest| < |s|
    decreases |s|
  {
    if |s| == 0 then Fail
    else if s[0] == QUOTE then At([], s[1..])
    else if s[0] == BACKSLASH then
      match ParseEscape(s[1..])
      case Fail => Fail
      case At(u, rest) => Prepend(u, ParseChars(rest))
    else if s[0] < 0x20 then Fail
    else Prepend(s[0], ParseChars(s[1..]))
  }

  // ----- Values -----

  function ParseValue(text: Text): (r: Parsed<Value>)
    ensures r.At? ==> |r.rest| < |text|
    decreases |text|, 0
  {
    var s := SkipSpace(text);
    if |s| == 0 then Fail
    else if s[0] == OPEN_BRACE then
      var body := SkipSpace(s[1..]);
      if |body| > 0 && body[0] == CLOSE_BRACE then At(Object([]), body[1..])
      else match ParseMembers(body)
        case Fail => Fail
        case At(members, rest) => At(Object(members), rest)
    else if s[0] == OPEN_BRACKET then
      var body := SkipSpace(s[1..]);
      if |body| > 0 && body[0] == CLOSE_BRACKET then At(Array([]), body[1..])
      else match ParseElements(body)
        case Fail => Fail
        case At(elements, rest) => At(Array(elements), rest)
    else if s[0] == QUOTE then
      match ParseChars(s[1..])
      case Fail => Fail
      case At(chars, rest) => At(String(chars), rest)
    else if s[0] == 0x74 then ParseLiteral(s, T("true"), Bool(true))
    else if s[0] == 0x66 then ParseLiteral(s, T("false"), Bool(false))
    else if s[0] == 0x6E then ParseLiteral(s, T("null"), Null)
    else ParseNumber(s)
  }

  /** One or more members and the closing brace. */
  function ParseMembers(text: Text): (r: Parsed<seq<Member>>)
    ensures r.At? ==> |r.rest| < |text|
    decreases |text|, 1
  {
    var s := SkipSpace(text);
    if |s| == 0 || s[0] != QUOTE then Fail
    else match ParseChars(s[1..])
      case Fail => Fail
      case At(name, afterName) =>
        var colon := SkipSpace(afterName);
        if |colon| == 0 || colon[0] != COLON then Fail
        else match ParseValue(colon[1..])
          case Fail => Fail
          case At(v, afterValue) => ParseMoreMembers(Member(name, v), afterValue)
  }

  /** What follows a member: the closing brace, or a comma and more members. */
  function ParseMoreMembers(m: Member, text: Text): (r: Parsed<seq<Member>>)
    ensures r.At? ==> |r.rest| < |text|
    decreases |text|, 0
  {
    var next := SkipSpace(text);
    if |next| == 0 then Fail
    else if next[0] == CLOSE_BRACE then At([m], next[1..])
    else if next[0] != COMMA then Fail
    else match ParseMembers(next[1..])
      case Fail => Fail
      case At(members, rest) => At([m] + members, rest)
  }

  /** One or more elements and the closing bracket. */
  function ParseElements(text: Text): (r: Parsed<seq<Value>>)
    ensures r.At? ==> |r.rest| < |text|
    decreases |text|, 1
  {
    match ParseValue(text)
    case Fail => Fail
    case At(v, afterValue) =>
      var next := SkipSpace(afterValue);
      if |next| == 0 then Fail
      else if next[0] == CLOSE_BRACKET then At([v], next[1..])
      else if next[0] != COMMA then Fail
      else match ParseElements(next[1..])
        case Fail => Fail
        case At(elements, rest) => At([v] + elements, rest)
  }

  /** JSON.parse; None when it throws */
  function Parse(text: Text): Option<Value> {
    match ParseValue(text)
    case Fail => None
    case At(v, rest) => if |SkipSpace(rest)| == 0 then Some(v) else None
  }

  // ----- Quoting -----

  function HexDigit(n: int): Unit
    requires 0 <= n < 16
  {
    if n < 10 then 0x30 + n else 0x61 + (n - 10)
  }

  /** The four hexadecimal digits of a code unit. */
  function Hex4(u: Unit): Text {
    var sixteens := u / 0x10;
    var high := sixteens / 0x10;
    [HexDigit(high / 0x10), HexDigit(high % 0x10), HexDigit(sixteens % 0x10), HexDigit(u % 0x10)]
  }

  function UnicodeEscape(u: Unit): Text {
    [BACKSLASH, 0x75] + Hex4(u)
  }

  predicate IsLead(u: Unit) { 0xD800 <= u <= 0xDBFF }

  predicate IsTrail(u: Unit) { 0xDC00 <= u <= 0xDFFF }

  /** A code unit that is not part of a surrogate pair, inside a quoted string. */
  function EscapeUnit(u: Unit): Text {
    if u == 0x08 then [BACKSLASH, 0x62]
    else if u == 0x09 then [BACKSLASH, 0x74]
    else if u == 0x0A then [BACKSLASH, 0x6E]
    else if u == 0x0C then [BACKSLASH, 0x66]
    else if u == 0x0D then [BACKSLASH, 0x72]
    else if u == QUOTE || u == BACKSLASH then [BACKSLASH, u]
    else if u < 0x20 || IsLead(u) || IsTrail(u) then UnicodeEscape(u)
    else [u]
  }

  function QuoteBody(s: Text): Text {
    if |s| == 0 then []
    else if |s| >= 2 && IsLead(s[0]) && IsTrail(s[1]) then [s[0], s[1]] + QuoteBody(s[2..])
    else EscapeUnit(s[0]) + QuoteBody(s[1..])
  }

  function Quote(s: Text): Text {
    [QUOTE] + QuoteBody(s) + [QUOTE]
  }

  /** An object of strings: JSON.stringify on a flat record. */
  datatype Field = Field(name: Text, text: Text)

  function RenderField(f: Field): Text {
    Quote(f.name) + [COLON] + Quote(f.text)
  }

  function RenderFields(fs: seq<Field>): Text {
    if |fs| == 0 then []
    else if |fs| == 1 then RenderField(fs[0])
    else RenderField(fs[0]) + [COMMA] + RenderFields(fs[1..])
  }

  function Render(fs: seq<Field>): Text {
    [OPEN_BRACE] + RenderFields(fs) + [CLOSE_BRACE]
  }

  function MembersOf(fs: seq<Field>): (ms: seq<Member>)
    ensures |ms| == |fs|
  {
    if |fs| == 0 then [] else [Member(fs[0].name, String(fs[0].text))] + MembersOf(fs[1..])
  }

  // ----- Parsing undoes quoting -----

  lemma HexDigitValue(n: int)
    requires 0 <= n < 16
    ensures HexValue(HexDigit(n)) == Some(n)
  {
  }

  lemma Hex4Reads(u: Unit, tail: Text)
    ensures ParseHex4(Hex4(u) + tail) == At(u, tail)
  {
    var s := Hex4(u) + tail;
    var sixteens := u / 0x10;
    var high := sixteens / 0x10;
    HexDigitValue(high / 0x10);
    HexDigitValue(high % 0x10);
    HexDigitValue(sixteens % 0x10);
    HexDigitValue(u % 0x10);
    assert u == 0x10 * sixteens + u % 0x10 && sixteens == 0x10 * high + sixteens % 0x10;
    assert s[4..] == tail;
  }

  lemma UnicodeEscapeReads(u: Unit, tail: Text)
    ensures ParseEscape((UnicodeEscape(u) + tail)[1..]) == At(u, tail)
  {
    Hex4Reads(u, tail);
    var escape := [0x75] + (Hex4(u) + tail);
    assert UnicodeEscape(u) + tail == [BACKSLASH] + escape;
    assert escape[1..] == Hex4(u) + tail;
  }

  lemma EscapedUnitReads(u: Unit, tail: Text)
    ensures ParseChars(EscapeUnit(u) + tail) == Prepend(u, ParseChars(tail))
  {
    var s := EscapeUnit(u) + tail;
    if |EscapeUnit(u)| == 1 {
      assert s[1..] == tail;
    } else if |EscapeUnit(u)| == 2 {
      assert s[1..][1..] == tail;
      assert s[1..][0] == EscapeUnit(u)[1];
    } else {
      UnicodeEscapeReads(u, tail);
    }
  }

  lemma RawUnitReads(u: Unit, tail: Text)
    requires u >= 0x20 && u != QUOTE && u != BACKSLASH
    ensures ParseChars([u] + tail) == Prepend(u, ParseChars(tail))
  {
    assert ([u] + tail)[1..] == tail;
  }

  lemma SurrogatePairReads(lead: Unit, trail: Unit, tail: Text)
    requires IsLead(lead) && IsTrail(trail)
    ensures ParseChars([lead, trail] + tail) == Prepend(lead, Prepend(trail, ParseChars(tail)))
  {
    assert [lead, trail] + tail == [lead] + ([trail] + tail);
    RawUnitReads(lead, [trail] + tail);
    RawUnitReads(trail, tail);
  }

  lemma ClosingQuoteReads(rest: Text)
    ensures ParseChars([QUOTE] + rest) == At([], rest)
  {
    assert ([QUOTE] + rest)[1..] == rest;
  }

  lemma Associative(a: Text, b: Text, c: Text)
    ensures (a + b) + c == a + (b + c)
  {
  }

  lemma QuoteBodySplits(s: Text, tail: Text)
    requires |s| > 0
    ensures if |s| >= 2 && IsLead(s[0]) && IsTrail(s[1])
            then QuoteBody(s) + tail == [s[0], s[1]] + (QuoteBody(s[2..]) + tail)
            else QuoteBody(s) + tail == EscapeUnit(s[0]) + (QuoteBody(s[1..]) + tail)
  {
    if |s| >= 2 && IsLead(s[0]) && IsTrail(s[1]) {
      Associative([s[0], s[1]], QuoteBody(s[2..]), tail);
    } else {
      Associative(EscapeUnit(s[0]), QuoteBody(s[1..]), tail);
    }
  }

  /** Any string, paired and lone surrogates included, is read back from its quoted form. */
  lemma {:induction false} QuotedCharsRead(s: Text, rest: Text)
    ensures ParseChars(QuoteBody(s) + ([QUOTE] + rest)) == At(s, rest)
    decreases |s|
  {
    var close := [QUOTE] + rest;
    if |s| == 0 {
      ClosingQuoteReads(rest);
      assert QuoteBody(s) + close == close;
    } else {
      QuoteBodySplits(s, close);
      if |s| >= 2 && IsLead(s[0]) && IsTrail(s[1]) {
        QuotedCharsRead(s[2..], rest);
        SurrogatePairReads(s[0], s[1], QuoteBody(s[2..]) + close);
        assert [s[0]] + ([s[1]] + s[2..]) == s;
      } else {
        QuotedCharsRead(s[1..], rest);
        EscapedUnitReads(s[0], QuoteBody(s[1..]) + close);
        assert [s[0]] + s[1..] == s;
      }
    }
  }

  /** The quoted string at the front of a text, without its opening mark. */
  lemma QuotedTail(s: Text, rest: Text)
    ensures (Quote(s) + rest)[0] == QUOTE && (Quote(s) + rest)[1..] == QuoteBody(s) + ([QUOTE] + rest)
  {
  }

  lemma QuotedValueReads(s: Text, rest: Text)
    ensures ParseValue(Quote(s) + rest) == At(String(s), rest)
  {
    QuotedCharsRead(s, rest);
    QuotedTail(s, rest);
  }

  lemma MemberSteps(s: Text, name: Text, afterName: Text, v: Value, after: Text)
    requires |s| > 0 && s[0] == QUOTE && ParseChars(s[1..]) == At(name, afterName)
    requires |afterName| > 0 && afterName[0] == COLON && ParseValue(afterName[1..]) == At(v, after)
    ensures ParseMembers(s) == ParseMoreMembers(Member(name, v), after)
  {
  }

  lemma RenderFieldSplits(f: Field, after: Text)
    ensures var afterName := [COLON] + (Quote(f.text) + after);
            RenderField(f) + after == Quote(f.name) + afterName && afterName[1..] == Quote(f.text) + after
  {
    var afterName := [COLON] + (Quote(f.text) + after);
    assert RenderField(f) + after == Quote(f.name) + afterName;
  }

  /** One rendered member; what follows it decides. */
  lemma MemberReads(f: Field, after: Text)
    ensures ParseMembers(RenderField(f) + after) == ParseMoreMembers(Member(f.name, String(f.text)), after)
  {
    var afterName := [COLON] + (Quote(f.text) + after);
    RenderFieldSplits(f, after);
    QuotedTail(f.name, afterName);
    QuotedCharsRead(f.name, afterName);
    QuotedValueReads(f.text, after);
    MemberSteps(RenderField(f) + after, f.name, afterName, String(f.text), after);
  }

  lemma LastMemberReads(m: Member, rest: Text)
    ensures ParseMoreMembers(m, [CLOSE_BRACE] + rest) == At([m], rest)
  {
    assert ([CLOSE_BRACE] + rest)[1..] == rest;
  }

  lemma NextMemberReads(m: Member, more: Text)
    requires ParseMembers(more).At?
    ensures ParseMoreMembers(m, [COMMA] + more) == At([m] + ParseMembers(more).value, ParseMembers(more).rest)
  {
    assert ([COMMA] + more)[1..] == more;
  }

  lemma RenderFieldsSplits(fs: seq<Field>, close: Text)
    requires |fs| > 1
    ensures RenderFields(fs) + close == RenderField(fs[0]) + ([COMMA] + (RenderFields(fs[1..]) + close))
  {
    var head, tail := RenderField(fs[0]), RenderFields(fs[1..]);
    assert RenderFields(fs) == (head + [COMMA]) + tail;
    Associative(head + [COMMA], tail, close);
    Associative(head, [COMMA], tail + close);
  }

  /** A rendered field list parses to its members in the same order. */
  lemma {:induction false} RenderedFieldsRead(fs: seq<Field>, rest: Text)
    requires |fs| > 0
    ensures ParseMembers(RenderFields(fs) + ([CLOSE_BRACE] + rest)) == At(MembersOf(fs), rest)
    decreases |fs|
  {
    var m := Member(fs[0].name, String(fs[0].text));
    var close := [CLOSE_BRACE] + rest;
    if |fs| == 1 {
      MemberReads(fs[0], close);
      LastMemberReads(m, rest);
      assert MembersOf(fs[1..]) == [] && MembersOf(fs) == [m];
    } else {
      RenderFieldsSplits(fs, close);
      RenderedFieldsRead(fs[1..], rest);
      MemberReads(fs[0], [COMMA] + (RenderFields(fs[1..]) + close));
      NextMemberReads(m, RenderFields(fs[1..]) + close);
    }
  }

  lemma RenderSplits(fs: seq<Field>)
    requires |fs| > 0
    ensures var body := RenderFields(fs) + ([CLOSE_BRACE] + []);
            Render(fs) == [OPEN_BRACE] + body && |body| > 0 && body[0] == QUOTE
  {
    var first := RenderField(fs[0]);
    assert first[0] == QUOTE;
    assert RenderFields(fs)[..|first|] == first;
  }

  lemma ObjectBodyReads(body: Text)
    requires |body| > 0 && body[0] == QUOTE && ParseMembers(body).At? && ParseMembers(body).rest == []
    ensures Parse([OPEN_BRACE] + body) == Some(Object(ParseMembers(body).value))
  {
    assert ([OPEN_BRACE] + body)[1..] == body;
  }

  /** JSON.parse after JSON.stringify is the identity on flat records of strings. */
  lemma RenderedObjectReads(fs: seq<Field>)
    requires |fs| > 0
    ensures Parse(Render(fs)) == Some(Object(MembersOf(fs)))
  {
    var body := RenderFields(fs) + ([CLOSE_BRACE] + []);
    RenderedFieldsRead(fs, []);
    RenderSplits(fs);
    ObjectBodyReads(body);
  }
}
