/** The grammar of RFC 8259 as concrete syntax trees, each with its spelling and its value: the
    parser accepts exactly the spellings and returns their values. */
module JsonGrammar {
  import opened Sql
  import opened Json

  // ----- White space and digits (sections 2 and 6) -----

  predicate Spaces(s: Text) {
    forall i :: 0 <= i < |s| ==> s[i] == 0x20 || s[i] == 0x09 || s[i] == 0x0A || s[i] == 0x0D
  }

  predicate Digits(s: Text) {
    forall i :: 0 <= i < |s| ==> 0x30 <= s[i] <= 0x39
  }

  lemma {:induction false} SkipSpaceSplits(s: Text) returns (gap: Text)
    ensures s == gap + SkipSpace(s) && Spaces(gap)
  {
    if |s| > 0 && IsSpace(s[0]) {
      var more := SkipSpaceSplits(s[1..]);
      gap := [s[0]] + more;
    } else {
      gap := [];
    }
  }

  lemma {:induction false} SkipSpaceReads(gap: Text, s: Text)
    requires Spaces(gap) && (|s| > 0 ==> !IsSpace(s[0]))
    ensures SkipSpace(gap + s) == s
  {
    if |gap| == 0 {
      assert gap + s == s;
    } else {
      assert (gap + s)[1..] == gap[1..] + s;
      SkipSpaceReads(gap[1..], s);
    }
  }

  lemma {:induction false} SkipDigitsSplits(s: Text) returns (digits: Text)
    ensures s == digits + SkipDigits(s) && Digits(digits)
    ensures |SkipDigits(s)| > 0 ==> !IsDigit(SkipDigits(s)[0])
  {
    if |s| > 0 && IsDigit(s[0]) {
      var more := SkipDigitsSplits(s[1..]);
      digits := [s[0]] + more;
    } else {
      digits := [];
    }
  }

  lemma {:induction false} SkipDigitsReads(digits: Text, s: Text)
    requires Digits(digits) && (|s| > 0 ==> !IsDigit(s[0]))
    ensures SkipDigits(digits + s) == s
  {
    if |digits| == 0 {
      assert digits + s == s;
    } else {
      assert (digits + s)[1..] == digits[1..] + s;
      SkipDigitsReads(digits[1..], s);
    }
  }

  // ----- Strings (section 7) -----

  /** A character as it stands, after a reverse solidus, or by four hexadecimal digits. */
  datatype Item = Plain(u: Unit) | Short(letter: Unit) | Coded(a: Unit, b: Unit, c: Unit, d: Unit)

  predicate IsHexDigit(u: Unit) {
    0x30 <= u <= 0x39 || 0x41 <= u <= 0x46 || 0x61 <= u <= 0x66
  }

  function HexWorth(u: Unit): int {
    if u <= 0x39 then u - 0x30 else if u <= 0x46 then u - 0x37 else u - 0x57
  }

  predicate ItemOk(i: Item) {
    match i
    case Plain(u) => u >= 0x20 && u != 0x22 && u != 0x5C
    case Short(letter) => letter in {0x22, 0x5C, 0x2F, 0x62, 0x66, 0x6E, 0x72, 0x74}
    case Coded(a, b, c, d) => IsHexDigit(a) && IsHexDigit(b) && IsHexDigit(c) && IsHexDigit(d)
  }

  function SpellItem(i: Item): Text {
    match i
    case Plain(u) => [u]
    case Short(letter) => [0x5C, letter]
    case Coded(a, b, c, d) => [0x5C, 0x75, a, b, c, d]
  }

  /** The code unit an item stands for. */
  function UnitOf(i: Item): Unit
    requires ItemOk(i)
  {
    match i
    case Plain(u) => u
    case Short(letter) =>
      if letter == 0x62 then 0x08 else if letter == 0x66 then 0x0C else if letter == 0x6E then 0x0A
      else if letter == 0x72 then 0x0D else if letter == 0x74 then 0x09 else letter
    case Coded(a, b, c, d) => 4096 * HexWorth(a) + 256 * HexWorth(b) + 16 * HexWorth(c) + HexWorth(d)
  }

  predicate ItemsOk(items: seq<Item>) {
    forall i :: 0 <= i < |items| ==> ItemOk(items[i])
  }

  /** The items and the closing quotation mark. */
  function SpellItems(items: seq<Item>): (s: Text)
    ensures |s| > 0
  {
    if |items| == 0 then [0x22] else SpellItem(items[0]) + SpellItems(items[1..])
  }

  function UnitsOf(items: seq<Item>): Text
    requires ItemsOk(items)
  {
    if |items| == 0 then [] else [UnitOf(items[0])] + UnitsOf(items[1..])
  }

  lemma HexWorthIsValue(u: Unit)
    ensures HexValue(u) == if IsHexDigit(u) then Some(HexWorth(u)) else None
  {
  }

  lemma Hex4Iff(s: Text)
    ensures if |s| >= 4 && IsHexDigit(s[0]) && IsHexDigit(s[1]) && IsHexDigit(s[2]) && IsHexDigit(s[3])
            then ParseHex4(s) == At(UnitOf(Coded(s[0], s[1], s[2], s[3])), s[4..])
            else ParseHex4(s).Fail?
  {
    if |s| >= 4 {
      HexWorthIsValue(s[0]);
      HexWorthIsValue(s[1]);
      HexWorthIsValue(s[2]);
      HexWorthIsValue(s[3]);
    }
  }

  /** One item at the front of the rest of a string. */
  lemma ItemReads(i: Item, tail: Text)
    requires ItemOk(i)
    ensures ParseChars(SpellItem(i) + tail) == Prepend(UnitOf(i), ParseChars(tail))
  {
    var s := SpellItem(i) + tail;
    match i {
      case Plain(u) => assert s[1..] == tail;
      case Short(letter) => assert s[1..][1..] == tail && s[1..][0] == letter;
      case Coded(a, b, c, d) =>
        var digits := s[1..][1..];
        Hex4Iff(digits);
        assert digits == [a, b, c, d] + tail;
        assert digits[4..] == tail;
    }
  }

  lemma {:induction false} ItemsRead(items: seq<Item>, tail: Text)
    requires ItemsOk(items)
    ensures ParseChars(SpellItems(items) + tail) == At(UnitsOf(items), tail)
    decreases |items|
  {
    if |items| == 0 {
      assert ([0x22] + tail)[1..] == tail;
    } else {
      Associative(SpellItem(items[0]), SpellItems(items[1..]), tail);
      ItemReads(items[0], SpellItems(items[1..]) + tail);
      ItemsRead(items[1..], tail);
    }
  }

  /** The first item of a text that starts a longer string. */
  lemma FirstItem(s: Text) returns (i: Item, rest: Text)
    requires ParseChars(s).At? && s[0] != 0x22
    ensures ItemOk(i) && s == SpellItem(i) + rest && |rest| < |s|
    ensures ParseChars(rest).At? && ParseChars(s) == Prepend(UnitOf(i), ParseChars(rest))
  {
    if s[0] != BACKSLASH {
      i, rest := Plain(s[0]), s[1..];
    } else if s[1] == 0x75 {
      Hex4Iff(s[2..]);
      assert s[1..][1..] == s[2..];
      i, rest := Coded(s[2], s[3], s[4], s[5]), s[6..];
      assert s[2..][4..] == rest;
    } else {
      i, rest := Short(s[1]), s[2..];
      assert s[1..][1..] == rest;
    }
  }

  lemma {:induction false} StringIsSpelled(s: Text) returns (items: seq<Item>)
    requires ParseChars(s).At?
    ensures ItemsOk(items) && s == SpellItems(items) + ParseChars(s).rest && UnitsOf(items) == ParseChars(s).value
    decreases |s|
  {
    if s[0] == 0x22 {
      items := [];
    } else {
      var i, rest := FirstItem(s);
      var more := StringIsSpelled(rest);
      items := [i] + more;
      assert items[1..] == more;
      Associative(SpellItem(i), SpellItems(more), ParseChars(rest).rest);
    }
  }

  // ----- Numbers (section 6) -----

  /** `sign` is empty or one of plus and minus. */
  datatype Exponent = Exponent(letter: Unit, sign: Text, digits: Text)

  datatype Numeral = Numeral(negative: bool, whole: Text, fraction: Option<Text>, exponent: Option<Exponent>)

  predicate WholeOk(s: Text) {
    s == [0x30] || (|s| > 0 && 0x31 <= s[0] <= 0x39 && Digits(s))
  }

  predicate ExponentOk(e: Exponent) {
    e.letter in {0x45, 0x65} && e.sign in {[], [0x2B], [0x2D]} && |e.digits| > 0 && Digits(e.digits)
  }

  predicate NumeralOk(n: Numeral) {
    && WholeOk(n.whole)
    && (n.fraction.Some? ==> |n.fraction.value| > 0 && Digits(n.fraction.value))
    && (n.exponent.Some? ==> ExponentOk(n.exponent.value))
  }

  function SpellExponent(e: Option<Exponent>): Text {
    if e.None? then [] else [e.value.letter] + e.value.sign + e.value.digits
  }

  function SpellFraction(digits: Option<Text>): Text {
    if digits.None? then [] else [0x2E] + digits.value
  }

  function SignOf(n: Numeral): Text {
    if n.negative then [0x2D] else []
  }

  function SpellNumeral(n: Numeral): Text {
    SignOf(n) + (n.whole + (SpellFraction(n.fraction) + SpellExponent(n.exponent)))
  }

  /** Nothing that could continue a number. */
  predicate EndsNumber(tail: Text) {
    |tail| > 0 ==> !IsDigit(tail[0]) && tail[0] != 0x2E && tail[0] != 0x45 && tail[0] != 0x65
  }

  lemma WholeReads(whole: Text, tail: Text)
    requires WholeOk(whole) && (|tail| > 0 ==> !IsDigit(tail[0]))
    ensures ParseInt(whole + tail) == At((), tail)
  {
    var s := whole + tail;
    assert s[1..] == whole[1..] + tail;
    if whole == [0x30] {
      assert s[1..] == tail;
    } else {
      SkipDigitsReads(whole[1..], tail);
    }
  }

  lemma FractionReads(fraction: Option<Text>, tail: Text)
    requires fraction.Some? ==> |fraction.value| > 0 && Digits(fraction.value)
    requires |tail| > 0 ==> !IsDigit(tail[0]) && tail[0] != 0x2E
    ensures ParseFraction(SpellFraction(fraction) + tail) == At((), tail)
  {
    var s := SpellFraction(fraction) + tail;
    if fraction.Some? {
      assert s[1..] == fraction.value + tail;
      SkipDigitsReads(fraction.value, tail);
    } else {
      assert s == tail;
    }
  }

  lemma ExponentReads(exponent: Option<Exponent>, tail: Text)
    requires (exponent.Some? ==> ExponentOk(exponent.value)) && EndsNumber(tail)
    ensures ParseExponent(SpellExponent(exponent) + tail) == At((), tail)
  {
    var s := SpellExponent(exponent) + tail;
    if exponent.Some? {
      var e := exponent.value;
      var digits := e.digits + tail;
      assert s == [e.letter] + e.sign + digits;
      assert if |e.sign| == 0 then s[1..] == digits else s[1] == e.sign[0] && s[2..] == digits;
      SkipDigitsReads(e.digits, tail);
      assert digits[0] == e.digits[0];
    } else {
      assert s == tail;
    }
  }

  lemma NumeralSplits(n: Numeral, tail: Text)
    ensures SpellNumeral(n) + tail == SignOf(n) + (n.whole + (SpellFraction(n.fraction) + (SpellExponent(n.exponent) + tail)))
  {
    Associative(SignOf(n), n.whole + (SpellFraction(n.fraction) + SpellExponent(n.exponent)), tail);
    Associative(n.whole, SpellFraction(n.fraction) + SpellExponent(n.exponent), tail);
    Associative(SpellFraction(n.fraction), SpellExponent(n.exponent), tail);
  }

  /** What a number's parts make of the text after its sign. */
  lemma NumberSteps(s: Text, unsigned: Text, afterInt: Text, afterFraction: Text, tail: Text)
    requires unsigned == if |s| > 0 && s[0] == MINUS then s[1..] else s
    requires ParseInt(unsigned) == At((), afterInt) && ParseFraction(afterInt) == At((), afterFraction)
    requires ParseExponent(afterFraction) == At((), tail)
    ensures ParseNumber(s) == At(Number, tail)
  {
  }

  lemma UnsignedFollows(n: Numeral, rest: Text)
    requires |rest| > 0 && rest[0] != MINUS
    ensures var s := SignOf(n) + rest; rest == if |s| > 0 && s[0] == MINUS then s[1..] else s
  {
  }

  lemma PartsDoNotRunOn(n: Numeral, tail: Text)
    requires NumeralOk(n) && EndsNumber(tail)
    ensures var afterFraction := SpellExponent(n.exponent) + tail;
            var afterInt := SpellFraction(n.fraction) + afterFraction;
            && (|afterFraction| > 0 ==> !IsDigit(afterFraction[0]) && afterFraction[0] != 0x2E)
            && (|afterInt| > 0 ==> !IsDigit(afterInt[0]))
  {
  }

  lemma NumeralReads(n: Numeral, tail: Text)
    requires NumeralOk(n) && EndsNumber(tail)
    ensures ParseNumber(SpellNumeral(n) + tail) == At(Number, tail)
  {
    var afterFraction := SpellExponent(n.exponent) + tail;
    var afterInt := SpellFraction(n.fraction) + afterFraction;
    NumeralSplits(n, tail);
    PartsDoNotRunOn(n, tail);
    WholeReads(n.whole, afterInt);
    FractionReads(n.fraction, afterFraction);
    ExponentReads(n.exponent, tail);
    UnsignedFollows(n, n.whole + afterInt);
    NumberSteps(SignOf(n) + (n.whole + afterInt), n.whole + afterInt, afterInt, afterFraction, tail);
  }

  lemma WholeIsSpelled(s: Text) returns (whole: Text)
    requires ParseInt(s).At?
    ensures WholeOk(whole) && s == whole + ParseInt(s).rest
  {
    if s[0] == 0x30 {
      whole := [0x30];
    } else {
      var more := SkipDigitsSplits(s[1..]);
      whole := [s[0]] + more;
    }
  }

  lemma FractionIsSpelled(s: Text) returns (fraction: Option<Text>)
    requires ParseFraction(s).At?
    ensures fraction.Some? ==> |fraction.value| > 0 && Digits(fraction.value)
    ensures s == SpellFraction(fraction) + ParseFraction(s).rest
  {
    if |s| == 0 || s[0] != PERIOD {
      fraction := None;
    } else {
      var digits := SkipDigitsSplits(s[1..]);
      fraction := Some(digits);
    }
  }

  lemma ExponentIsSpelled(s: Text) returns (exponent: Option<Exponent>)
    requires ParseExponent(s).At?
    ensures exponent.Some? ==> ExponentOk(exponent.value)
    ensures s == SpellExponent(exponent) + ParseExponent(s).rest
  {
    if |s| == 0 || (s[0] != 0x45 && s[0] != 0x65) {
      exponent := None;
    } else {
      var sign: Text := if |s| > 1 && (s[1] == 0x2B || s[1] == MINUS) then [s[1]] else [];
      var rest := s[1 + |sign|..];
      var digits := SkipDigitsSplits(rest);
      exponent := Some(Exponent(s[0], sign, digits));
      assert s == [s[0]] + sign + rest;
      Associative([s[0]] + sign, digits, SkipDigits(rest));
    }
  }

  lemma NumberParts(s: Text) returns (unsigned: Text, afterInt: Text, afterFraction: Text)
    requires ParseNumber(s).At?
    ensures unsigned == if |s| > 0 && s[0] == MINUS then s[1..] else s
    ensures ParseInt(unsigned) == At((), afterInt) && ParseFraction(afterInt) == At((), afterFraction)
    ensures ParseExponent(afterFraction) == At((), ParseNumber(s).rest) && ParseNumber(s).value == Number
  {
    unsigned := if |s| > 0 && s[0] == MINUS then s[1..] else s;
    afterInt := ParseInt(unsigned).rest;
    afterFraction := ParseFraction(afterInt).rest;
  }

  lemma NumeralIsSpelled(s: Text) returns (n: Numeral)
    requires ParseNumber(s).At?
    ensures NumeralOk(n) && s == SpellNumeral(n) + ParseNumber(s).rest && ParseNumber(s).value == Number
  {
    var unsigned, afterInt, afterFraction := NumberParts(s);
    var whole := WholeIsSpelled(unsigned);
    var fraction := FractionIsSpelled(afterInt);
    var exponent := ExponentIsSpelled(afterFraction);
    n := Numeral(|s| > 0 && s[0] == MINUS, whole, fraction, exponent);
    NumeralSplits(n, ParseNumber(s).rest);
    assert s == SignOf(n) + unsigned;
  }

  // ----- Values, arrays and objects (sections 3 to 5) -----

  datatype Tree =
    | Literal(v: Value)
    | Numeric(n: Numeral)
    | Quoted(items: seq<Item>)
    | NoElements(gap: Text)
    | ArrayOf(elements: Elements)
    | NoMembers(gap: Text)
    | ObjectOf(members: Members)

  /** One or more elements with the white space around each. */
  datatype Elements =
    | LastElement(before: Text, tree: Tree, after: Text)
    | MoreElements(before: Text, tree: Tree, after: Text, rest: Elements)

  /** One or more members with the white space around each name and each value. */
  datatype Members =
    | LastMember(before: Text, name: seq<Item>, middle: Text, gap: Text, tree: Tree, after: Text)
    | MoreMembers(before: Text, name: seq<Item>, middle: Text, gap: Text, tree: Tree, after: Text, rest: Members)

  predicate LiteralOk(v: Value) { v in {Null, Bool(true), Bool(false)} }

  function SpellLiteral(v: Value): Text {
    if v == Bool(true) then [0x74, 0x72, 0x75, 0x65]
    else if v == Bool(false) then [0x66, 0x61, 0x6C, 0x73, 0x65]
    else [0x6E, 0x75, 0x6C, 0x6C]
  }

  predicate TreeOk(tree: Tree)
    decreases tree
  {
    match tree
    case Literal(v) => LiteralOk(v)
    case Numeric(n) => NumeralOk(n)
    case Quoted(items) => ItemsOk(items)
    case NoElements(gap) => Spaces(gap)
    case ArrayOf(es) => ElementsOk(es)
    case NoMembers(gap) => Spaces(gap)
    case ObjectOf(ms) => MembersOk(ms)
  }

  predicate ElementsOk(es: Elements)
    decreases es
  {
    Spaces(es.before) && TreeOk(es.tree) && Spaces(es.after) && (es.MoreElements? ==> ElementsOk(es.rest))
  }

  predicate MembersOk(ms: Members)
    decreases ms
  {
    && Spaces(ms.before) && ItemsOk(ms.name) && Spaces(ms.middle) && Spaces(ms.gap) && TreeOk(ms.tree) && Spaces(ms.after)
    && (ms.MoreMembers? ==> MembersOk(ms.rest))
  }

  /** The spelling of a tree in front of a text. */
  function Spell(tree: Tree, tail: Text): Text
    decreases tree
  {
    match tree
    case Literal(v) => SpellLiteral(v) + tail
    case Numeric(n) => SpellNumeral(n) + tail
    case Quoted(items) => [0x22] + (SpellItems(items) + tail)
    case NoElements(gap) => [0x5B] + (gap + ([0x5D] + tail))
    case ArrayOf(es) => [0x5B] + SpellElements(es, [0x5D] + tail)
    case NoMembers(gap) => [0x7B] + (gap + ([0x7D] + tail))
    case ObjectOf(ms) => [0x7B] + SpellMembers(ms, [0x7D] + tail)
  }

  function SpellElements(es: Elements, tail: Text): Text
    decreases es
  {
    es.before + Spell(es.tree, es.after + if es.LastElement? then tail else [0x2C] + SpellElements(es.rest, tail))
  }

  function SpellMembers(ms: Members, tail: Text): Text
    decreases ms
  {
    var afterValue := ms.after + if ms.LastMember? then tail else [0x2C] + SpellMembers(ms.rest, tail);
    ms.before + ([0x22] + (SpellItems(ms.name) + (ms.middle + ([0x3A] + (ms.gap + Spell(ms.tree, afterValue))))))
  }

  function ValueOf(tree: Tree): Value
    requires TreeOk(tree)
    decreases tree
  {
    match tree
    case Literal(v) => v
    case Numeric(n) => Number
    case Quoted(items) => String(UnitsOf(items))
    case NoElements(gap) => Array([])
    case ArrayOf(es) => Array(ElementValues(es))
    case NoMembers(gap) => Object([])
    case ObjectOf(ms) => Object(MemberValues(ms))
  }

  function ElementValues(es: Elements): seq<Value>
    requires ElementsOk(es)
    decreases es
  {
    [ValueOf(es.tree)] + if es.LastElement? then [] else ElementValues(es.rest)
  }

  function MemberValues(ms: Members): seq<Member>
    requires MembersOk(ms)
    decreases ms
  {
    [Member(UnitsOf(ms.name), ValueOf(ms.tree))] + if ms.LastMember? then [] else MemberValues(ms.rest)
  }

  // ----- The parser reads every spelling -----

  lemma LiteralTexts()
    ensures T("true") == SpellLiteral(Bool(true)) && T("false") == SpellLiteral(Bool(false)) && T("null") == SpellLiteral(Null)
  {
  }

  /** No spelling starts with white space, a closing mark or a comma. */
  lemma SpellStarts(tree: Tree, tail: Text)
    requires TreeOk(tree)
    ensures var s := Spell(tree, tail);
            && |s| > 0 && !IsSpace(s[0]) && s[0] != CLOSE_BRACKET && s[0] != CLOSE_BRACE
            && (s[0] == OPEN_BRACE <==> tree.NoMembers? || tree.ObjectOf?)
            && (s[0] == OPEN_BRACKET <==> tree.NoElements? || tree.ArrayOf?)
            && (s[0] == QUOTE <==> tree.Quoted?)
            && (tree.Numeric? ==> s[0] == MINUS || IsDigit(s[0]))
            && (tree.Literal? ==> s[0] == SpellLiteral(tree.v)[0])
  {
    if tree.Numeric? {
      NumeralSplits(tree.n, tail);
    }
  }

  lemma SkipSpaceTwice(s: Text)
    ensures SkipSpace(SkipSpace(s)) == SkipSpace(s)
  {
  }

  lemma LiteralReads(v: Value, tail: Text)
    requires LiteralOk(v)
    ensures ParseLiteral(SpellLiteral(v) + tail, SpellLiteral(v), v) == At(v, tail)
  {
    var s := SpellLiteral(v) + tail;
    assert s[..|SpellLiteral(v)|] == SpellLiteral(v) && s[|SpellLiteral(v)|..] == tail;
  }

  lemma LiteralValueReads(v: Value, tail: Text)
    requires LiteralOk(v)
    ensures ParseValue(SpellLiteral(v) + tail) == At(v, tail)
  {
    LiteralTexts();
    LiteralReads(v, tail);
    var s := SpellLiteral(v) + tail;
    assert !IsSpace(s[0]) && SkipSpace(s) == s;
  }

  lemma AfterGap(before: Text, s: Text)
    requires Spaces(before) && |s| > 0 && !IsSpace(s[0])
    ensures SkipSpace(before + s) == s && ParseValue(before + s) == ParseValue(s) && ParseMembers(before + s) == ParseMembers(s)
  {
    SkipSpaceReads(before, s);
    assert SkipSpace(s) == s;
  }

  lemma SkipBeforeElements(s: Text)
    ensures ParseElements(SkipSpace(s)) == ParseElements(s)
  {
    SkipSpaceTwice(s);
    assert ParseValue(SkipSpace(s)) == ParseValue(s);
  }

  lemma SkipBeforeMembers(s: Text)
    ensures ParseMembers(SkipSpace(s)) == ParseMembers(s)
  {
    SkipSpaceTwice(s);
  }

  /** What an opening bracket makes of the elements after it. */
  lemma ArrayStep(s: Text, inner: Text, values: seq<Value>, tail: Text)
    requires s == [OPEN_BRACKET] + inner && ParseElements(inner) == At(values, tail)
    requires |SkipSpace(inner)| > 0 && SkipSpace(inner)[0] != CLOSE_BRACKET
    ensures ParseValue(s) == At(Array(values), tail)
  {
    assert s[1..] == inner && SkipSpace(s) == s;
    SkipBeforeElements(inner);
  }

  lemma ObjectStep(s: Text, inner: Text, members: seq<Member>, tail: Text)
    requires s == [OPEN_BRACE] + inner && ParseMembers(inner) == At(members, tail)
    requires |SkipSpace(inner)| > 0 && SkipSpace(inner)[0] != CLOSE_BRACE
    ensures ParseValue(s) == At(Object(members), tail)
  {
    assert s[1..] == inner && SkipSpace(s) == s;
    SkipBeforeMembers(inner);
  }

  lemma EmptyArrayReads(gap: Text, tail: Text)
    requires Spaces(gap)
    ensures ParseValue([OPEN_BRACKET] + (gap + ([CLOSE_BRACKET] + tail))) == At(Array([]), tail)
  {
    var close := [CLOSE_BRACKET] + tail;
    var s := [OPEN_BRACKET] + (gap + close);
    assert s[1..] == gap + close && SkipSpace(s) == s && close[1..] == tail;
    SkipSpaceReads(gap, close);
  }

  lemma EmptyObjectReads(gap: Text, tail: Text)
    requires Spaces(gap)
    ensures ParseValue([OPEN_BRACE] + (gap + ([CLOSE_BRACE] + tail))) == At(Object([]), tail)
  {
    var close := [CLOSE_BRACE] + tail;
    var s := [OPEN_BRACE] + (gap + close);
    assert s[1..] == gap + close && SkipSpace(s) == s && close[1..] == tail;
    SkipSpaceReads(gap, close);
  }

  lemma StringValueReads(items: seq<Item>, tail: Text)
    requires ItemsOk(items)
    ensures ParseValue([QUOTE] + (SpellItems(items) + tail)) == At(String(UnitsOf(items)), tail)
  {
    var s := [QUOTE] + (SpellItems(items) + tail);
    ItemsRead(items, tail);
    assert s[1..] == SpellItems(items) + tail && SkipSpace(s) == s;
  }

  lemma NumberValueReads(n: Numeral, tail: Text)
    requires NumeralOk(n) && EndsNumber(tail)
    ensures ParseValue(SpellNumeral(n) + tail) == At(Number, tail)
  {
    var s := SpellNumeral(n) + tail;
    NumeralReads(n, tail);
    SpellStarts(Numeric(n), tail);
    assert SkipSpace(s) == s;
  }

  /** What follows an element decides. */
  lemma LastElementStep(s: Text, v: Value, afterValue: Text, rest: Text)
    requires ParseValue(s) == At(v, afterValue) && SkipSpace(afterValue) == [CLOSE_BRACKET] + rest
    ensures ParseElements(s) == At([v], rest)
  {
  }

  lemma MoreElementsStep(s: Text, v: Value, afterValue: Text, more: Text)
    requires ParseValue(s) == At(v, afterValue) && SkipSpace(afterValue) == [COMMA] + more && ParseElements(more).At?
    ensures ParseElements(s) == At([v] + ParseElements(more).value, ParseElements(more).rest)
  {
    assert ([COMMA] + more)[1..] == more;
  }

  lemma AfterValueIsNoNumber(after: Text, mark: Unit, tail: Text)
    requires Spaces(after) && mark in {CLOSE_BRACKET, CLOSE_BRACE, COMMA}
    ensures EndsNumber(after + ([mark] + tail)) && SkipSpace(after + ([mark] + tail)) == [mark] + tail
  {
    SkipSpaceReads(after, [mark] + tail);
  }

  lemma {:induction false} TreeReads(tree: Tree, tail: Text)
    requires TreeOk(tree) && EndsNumber(tail)
    ensures ParseValue(Spell(tree, tail)) == At(ValueOf(tree), tail)
    decreases tree
  {
    match tree {
      case Literal(v) => LiteralValueReads(v, tail);
      case Numeric(n) => NumberValueReads(n, tail);
      case Quoted(items) => StringValueReads(items, tail);
      case NoElements(gap) => EmptyArrayReads(gap, tail);
      case NoMembers(gap) => EmptyObjectReads(gap, tail);
      case ArrayOf(es) =>
        ElementsRead(es, tail);
        ArrayStep(Spell(tree, tail), SpellElements(es, [CLOSE_BRACKET] + tail), ElementValues(es), tail);
      case ObjectOf(ms) =>
        MembersRead(ms, tail);
        ObjectStep(Spell(tree, tail), SpellMembers(ms, [CLOSE_BRACE] + tail), MemberValues(ms), tail);
    }
  }

  lemma {:induction false} ElementsRead(es: Elements, tail: Text)
    requires ElementsOk(es)
    ensures var s := SpellElements(es, [CLOSE_BRACKET] + tail);
            && ParseElements(s) == At(ElementValues(es), tail)
            && |SkipSpace(s)| > 0 && SkipSpace(s)[0] != CLOSE_BRACKET
    decreases es
  {
    var close := [CLOSE_BRACKET] + tail;
    var s := SpellElements(es, close);
    var afterValue := es.after + if es.LastElement? then close else [COMMA] + SpellElements(es.rest, close);
    if es.LastElement? {
      AfterValueIsNoNumber(es.after, CLOSE_BRACKET, tail);
    } else {
      AfterValueIsNoNumber(es.after, COMMA, SpellElements(es.rest, close));
    }
    TreeReads(es.tree, afterValue);
    SpellStarts(es.tree, afterValue);
    AfterGap(es.before, Spell(es.tree, afterValue));
    if es.LastElement? {
      LastElementStep(s, ValueOf(es.tree), afterValue, tail);
      assert [ValueOf(es.tree)] + [] == [ValueOf(es.tree)];
    } else {
      ElementsRead(es.rest, tail);
      MoreElementsStep(s, ValueOf(es.tree), afterValue, SpellElements(es.rest, close));
    }
  }

  /** A name and its value at the front of a member list. */
  lemma NameStep(s: Text, name: Text, afterName: Text, afterColon: Text, v: Value, afterValue: Text)
    requires |s| > 0 && s[0] == QUOTE && ParseChars(s[1..]) == At(name, afterName)
    requires SkipSpace(afterName) == [COLON] + afterColon && ParseValue(afterColon) == At(v, afterValue)
    ensures ParseMembers(s) == ParseMoreMembers(Member(name, v), afterValue)
  {
    assert ([COLON] + afterColon)[1..] == afterColon && SkipSpace(s) == s;
  }

  lemma NameReads(name: seq<Item>, middle: Text, gap: Text, tree: Tree, afterValue: Text)
    requires ItemsOk(name) && Spaces(middle) && Spaces(gap) && TreeOk(tree)
    requires ParseValue(Spell(tree, afterValue)) == At(ValueOf(tree), afterValue)
    ensures ParseMembers([QUOTE] + (SpellItems(name) + (middle + ([COLON] + (gap + Spell(tree, afterValue))))))
            == ParseMoreMembers(Member(UnitsOf(name), ValueOf(tree)), afterValue)
  {
    var afterColon := gap + Spell(tree, afterValue);
    var afterName := middle + ([COLON] + afterColon);
    var s := [QUOTE] + (SpellItems(name) + afterName);
    ItemsRead(name, afterName);
    assert s[1..] == SpellItems(name) + afterName;
    SkipSpaceReads(middle, [COLON] + afterColon);
    SpellStarts(tree, afterValue);
    AfterGap(gap, Spell(tree, afterValue));
    NameStep(s, UnitsOf(name), afterName, afterColon, ValueOf(tree), afterValue);
  }

  lemma LastMemberStep(m: Member, afterValue: Text, rest: Text)
    requires SkipSpace(afterValue) == [CLOSE_BRACE] + rest
    ensures ParseMoreMembers(m, afterValue) == At([m], rest)
  {
  }

  lemma MoreMembersStep(m: Member, afterValue: Text, more: Text)
    requires SkipSpace(afterValue) == [COMMA] + more && ParseMembers(more).At?
    ensures ParseMoreMembers(m, afterValue) == At([m] + ParseMembers(more).value, ParseMembers(more).rest)
  {
    assert ([COMMA] + more)[1..] == more;
  }

  lemma {:induction false} MembersRead(ms: Members, tail: Text)
    requires MembersOk(ms)
    ensures var s := SpellMembers(ms, [CLOSE_BRACE] + tail);
            && ParseMembers(s) == At(MemberValues(ms), tail)
            && |SkipSpace(s)| > 0 && SkipSpace(s)[0] != CLOSE_BRACE
    decreases ms
  {
    var close := [CLOSE_BRACE] + tail;
    var afterValue := ms.after + if ms.LastMember? then close else [COMMA] + SpellMembers(ms.rest, close);
    if ms.LastMember? {
      AfterValueIsNoNumber(ms.after, CLOSE_BRACE, tail);
    } else {
      AfterValueIsNoNumber(ms.after, COMMA, SpellMembers(ms.rest, close));
    }
    TreeReads(ms.tree, afterValue);
    NameReads(ms.name, ms.middle, ms.gap, ms.tree, afterValue);
    var named := [QUOTE] + (SpellItems(ms.name) + (ms.middle + ([COLON] + (ms.gap + Spell(ms.tree, afterValue)))));
    AfterGap(ms.before, named);
    var m := Member(UnitsOf(ms.name), ValueOf(ms.tree));
    if ms.LastMember? {
      LastMemberStep(m, afterValue, tail);
      assert [m] + [] == [m];
    } else {
      MembersRead(ms.rest, tail);
      MoreMembersStep(m, afterValue, SpellMembers(ms.rest, close));
    }
  }

  // ----- Whatever the parser reads is a spelling -----

  /** White space in front of the first element, or of the first member. */
  function Indented(gap: Text, es: Elements): Elements {
    es.(before := gap + es.before)
  }

  function IndentedMembers(gap: Text, ms: Members): Members {
    ms.(before := gap + ms.before)
  }

  lemma IndentElements(gap: Text, es: Elements, tail: Text)
    requires Spaces(gap) && ElementsOk(es)
    ensures ElementsOk(Indented(gap, es)) && ElementValues(Indented(gap, es)) == ElementValues(es)
    ensures SpellElements(Indented(gap, es), tail) == gap + SpellElements(es, tail)
  {
    var afterValue := es.after + if es.LastElement? then tail else [0x2C] + SpellElements(es.rest, tail);
    Associative(gap, es.before, Spell(es.tree, afterValue));
  }

  lemma IndentMembers(gap: Text, ms: Members, tail: Text)
    requires Spaces(gap) && MembersOk(ms)
    ensures MembersOk(IndentedMembers(gap, ms)) && MemberValues(IndentedMembers(gap, ms)) == MemberValues(ms)
    ensures SpellMembers(IndentedMembers(gap, ms), tail) == gap + SpellMembers(ms, tail)
  {
    var afterValue := ms.after + if ms.LastMember? then tail else [0x2C] + SpellMembers(ms.rest, tail);
    Associative(gap, ms.before,
                [0x22] + (SpellItems(ms.name) + (ms.middle + ([0x3A] + (ms.gap + Spell(ms.tree, afterValue))))));
  }

  lemma LiteralIsSpelled(s: Text, v: Value) returns (tree: Tree)
    requires LiteralOk(v) && ParseLiteral(s, SpellLiteral(v), v).At?
    ensures TreeOk(tree) && ValueOf(tree) == v && s == Spell(tree, ParseLiteral(s, SpellLiteral(v), v).rest)
  {
    tree := Literal(v);
    assert s == s[..|SpellLiteral(v)|] + s[|SpellLiteral(v)|..];
  }

  /** The spelling without white space before it. */
  predicate Reads(s: Text, tree: Tree, v: Value, rest: Text) {
    TreeOk(tree) && s == Spell(tree, rest) && ValueOf(tree) == v
  }

  lemma WordIsSpelled(s: Text) returns (tree: Tree)
    requires |s| > 0 && !IsSpace(s[0]) && s[0] in {0x74, 0x66, 0x6E} && ParseValue(s).At?
    ensures Reads(s, tree, ParseValue(s).value, ParseValue(s).rest)
  {
    LiteralTexts();
    assert SkipSpace(s) == s;
    if s[0] == 0x74 {
      tree := LiteralIsSpelled(s, Bool(true));
    } else if s[0] == 0x66 {
      tree := LiteralIsSpelled(s, Bool(false));
    } else {
      tree := LiteralIsSpelled(s, Null);
    }
  }

  lemma ScalarIsSpelled(s: Text) returns (tree: Tree)
    requires |s| > 0 && !IsSpace(s[0]) && s[0] != OPEN_BRACE && s[0] != OPEN_BRACKET && ParseValue(s).At?
    ensures Reads(s, tree, ParseValue(s).value, ParseValue(s).rest)
  {
    assert SkipSpace(s) == s;
    if s[0] == QUOTE {
      var items := StringIsSpelled(s[1..]);
      tree := Quoted(items);
      assert s == [QUOTE] + s[1..];
    } else if s[0] in {0x74, 0x66, 0x6E} {
      tree := WordIsSpelled(s);
    } else {
      var n := NumeralIsSpelled(s);
      tree := Numeric(n);
    }
  }

  lemma {:induction false} ValueIsSpelled(text: Text) returns (before: Text, tree: Tree)
    requires ParseValue(text).At?
    ensures Spaces(before) && TreeOk(tree)
    ensures text == before + Spell(tree, ParseValue(text).rest) && ValueOf(tree) == ParseValue(text).value
    decreases |text|, 0
  {
    before := SkipSpaceSplits(text);
    var s := SkipSpace(text);
    SkipSpaceTwice(text);
    assert ParseValue(s) == ParseValue(text);
    if s[0] == OPEN_BRACE {
      tree := ObjectIsSpelled(s);
    } else if s[0] == OPEN_BRACKET {
      tree := ArrayIsSpelled(s);
    } else {
      tree := ScalarIsSpelled(s);
    }
  }

  /** What an opening bracket is followed by. */
  lemma ArrayParts(s: Text) returns (gap: Text, body: Text)
    requires |s| > 0 && s[0] == OPEN_BRACKET && ParseValue(s).At?
    ensures Spaces(gap) && s == [OPEN_BRACKET] + (gap + body) && |body| < |s|
    ensures if |body| > 0 && body[0] == CLOSE_BRACKET then ParseValue(s) == At(Array([]), body[1..])
            else ParseElements(body).At? && ParseValue(s) == At(Array(ParseElements(body).value), ParseElements(body).rest)
  {
    assert SkipSpace(s) == s && s == [OPEN_BRACKET] + s[1..];
    gap := SkipSpaceSplits(s[1..]);
    body := SkipSpace(s[1..]);
  }

  lemma ObjectParts(s: Text) returns (gap: Text, body: Text)
    requires |s| > 0 && s[0] == OPEN_BRACE && ParseValue(s).At?
    ensures Spaces(gap) && s == [OPEN_BRACE] + (gap + body) && |body| < |s|
    ensures if |body| > 0 && body[0] == CLOSE_BRACE then ParseValue(s) == At(Object([]), body[1..])
            else ParseMembers(body).At? && ParseValue(s) == At(Object(ParseMembers(body).value), ParseMembers(body).rest)
  {
    assert SkipSpace(s) == s && s == [OPEN_BRACE] + s[1..];
    gap := SkipSpaceSplits(s[1..]);
    body := SkipSpace(s[1..]);
  }

  lemma {:induction false} ArrayIsSpelled(s: Text) returns (tree: Tree)
    requires |s| > 0 && s[0] == OPEN_BRACKET && ParseValue(s).At?
    ensures Reads(s, tree, ParseValue(s).value, ParseValue(s).rest)
    decreases |s| - 1, 3
  {
    var gap, body := ArrayParts(s);
    if |body| > 0 && body[0] == CLOSE_BRACKET {
      tree := NoElements(gap);
      assert body == [CLOSE_BRACKET] + body[1..];
    } else {
      var es := ElementsAreSpelled(body);
      IndentElements(gap, es, [CLOSE_BRACKET] + ParseElements(body).rest);
      tree := ArrayOf(Indented(gap, es));
    }
  }

  lemma {:induction false} ObjectIsSpelled(s: Text) returns (tree: Tree)
    requires |s| > 0 && s[0] == OPEN_BRACE && ParseValue(s).At?
    ensures Reads(s, tree, ParseValue(s).value, ParseValue(s).rest)
    decreases |s| - 1, 3
  {
    var gap, body := ObjectParts(s);
    if |body| > 0 && body[0] == CLOSE_BRACE {
      tree := NoMembers(gap);
      assert body == [CLOSE_BRACE] + body[1..];
    } else {
      var ms := MembersAreSpelled(body);
      IndentMembers(gap, ms, [CLOSE_BRACE] + ParseMembers(body).rest);
      tree := ObjectOf(IndentedMembers(gap, ms));
    }
  }

  /** The parts of an element list after its first value. */
  lemma ElementParts(text: Text) returns (afterValue: Text, next: Text)
    requires ParseElements(text).At?
    ensures ParseValue(text).At? && afterValue == ParseValue(text).rest && next == SkipSpace(afterValue)
    ensures 0 < |next| < |text| && next == [next[0]] + next[1..] && (next[0] == CLOSE_BRACKET || next[0] == COMMA)
    ensures ParseElements(text) ==
            if next[0] == CLOSE_BRACKET then At([ParseValue(text).value], next[1..])
            else if ParseElements(next[1..]).Fail? then Fail
            else At([ParseValue(text).value] + ParseElements(next[1..]).value, ParseElements(next[1..]).rest)
  {
    afterValue := ParseValue(text).rest;
    next := SkipSpace(afterValue);
  }

  lemma LastElementSpells(before: Text, tree: Tree, after: Text, tail: Text)
    requires Spaces(before) && TreeOk(tree) && Spaces(after)
    ensures var es := LastElement(before, tree, after);
            && ElementsOk(es) && ElementValues(es) == [ValueOf(tree)]
            && SpellElements(es, tail) == before + Spell(tree, after + tail)
  {
  }

  lemma MoreElementsSpell(before: Text, tree: Tree, after: Text, rest: Elements, tail: Text)
    requires Spaces(before) && TreeOk(tree) && Spaces(after) && ElementsOk(rest)
    ensures var es := MoreElements(before, tree, after, rest);
            && ElementsOk(es) && ElementValues(es) == [ValueOf(tree)] + ElementValues(rest)
            && SpellElements(es, tail) == before + Spell(tree, after + ([COMMA] + SpellElements(rest, tail)))
  {
  }

  lemma {:induction false} ElementsAreSpelled(text: Text) returns (es: Elements)
    requires ParseElements(text).At?
    ensures ElementsOk(es) && ElementValues(es) == ParseElements(text).value
    ensures text == SpellElements(es, [CLOSE_BRACKET] + ParseElements(text).rest)
    decreases |text|, 1
  {
    var before, tree := ValueIsSpelled(text);
    var afterValue, next := ElementParts(text);
    var after := SkipSpaceSplits(afterValue);
    if next[0] == CLOSE_BRACKET {
      es := LastElement(before, tree, after);
      LastElementSpells(before, tree, after, next);
    } else {
      var more := ElementsAreSpelled(next[1..]);
      es := MoreElements(before, tree, after, more);
      MoreElementsSpell(before, tree, after, more, [CLOSE_BRACKET] + ParseElements(text).rest);
    }
  }

  /** The parts of the first member of a list. */
  lemma MemberParts(text: Text) returns (s: Text, afterName: Text, colon: Text, afterValue: Text)
    requires ParseMembers(text).At?
    ensures s == SkipSpace(text) && |s| > 0 && s[0] == QUOTE && ParseChars(s[1..]).At?
    ensures afterName == ParseChars(s[1..]).rest && colon == SkipSpace(afterName) && |colon| > 0 && colon[0] == COLON
    ensures ParseValue(colon[1..]).At? && afterValue == ParseValue(colon[1..]).rest && |colon| <= |text|
    ensures ParseMembers(text)
            == ParseMoreMembers(Member(ParseChars(s[1..]).value, ParseValue(colon[1..]).value), afterValue)
  {
    s := SkipSpace(text);
    afterName := ParseChars(s[1..]).rest;
    colon := SkipSpace(afterName);
    afterValue := ParseValue(colon[1..]).rest;
  }

  /** What follows a member. */
  lemma AfterMember(m: Member, afterValue: Text) returns (after: Text, next: Text)
    requires ParseMoreMembers(m, afterValue).At?
    ensures Spaces(after) && afterValue == after + next && |next| <= |afterValue|
    ensures |next| > 0 && next == [next[0]] + next[1..] && (next[0] == CLOSE_BRACE || next[0] == COMMA)
    ensures if next[0] == CLOSE_BRACE then ParseMoreMembers(m, afterValue) == At([m], next[1..])
            else ParseMembers(next[1..]).At?
                 && ParseMoreMembers(m, afterValue) == At([m] + ParseMembers(next[1..]).value, ParseMembers(next[1..]).rest)
  {
    after := SkipSpaceSplits(afterValue);
    next := SkipSpace(afterValue);
  }

  /** A name and its value in front of a text. */
  function SpellName(before: Text, name: seq<Item>, middle: Text, gap: Text, tree: Tree, afterValue: Text): Text {
    before + ([QUOTE] + (SpellItems(name) + (middle + ([COLON] + (gap + Spell(tree, afterValue))))))
  }

  lemma LastMemberSpells(before: Text, name: seq<Item>, middle: Text, gap: Text, tree: Tree, after: Text, tail: Text)
    requires Spaces(before) && ItemsOk(name) && Spaces(middle) && Spaces(gap) && TreeOk(tree) && Spaces(after)
    ensures var ms := LastMember(before, name, middle, gap, tree, after);
            && MembersOk(ms) && MemberValues(ms) == [Member(UnitsOf(name), ValueOf(tree))]
            && SpellMembers(ms, tail) == SpellName(before, name, middle, gap, tree, after + tail)
  {
  }

  lemma MoreMembersSpell(before: Text, name: seq<Item>, middle: Text, gap: Text, tree: Tree, after: Text, rest: Members, tail: Text)
    requires Spaces(before) && ItemsOk(name) && Spaces(middle) && Spaces(gap) && TreeOk(tree) && Spaces(after) && MembersOk(rest)
    ensures var ms := MoreMembers(before, name, middle, gap, tree, after, rest);
            && MembersOk(ms) && MemberValues(ms) == [Member(UnitsOf(name), ValueOf(tree))] + MemberValues(rest)
            && SpellMembers(ms, tail)
               == SpellName(before, name, middle, gap, tree, after + ([COMMA] + SpellMembers(rest, tail)))
  {
  }

  lemma {:induction false} NameIsSpelled(text: Text)
      returns (before: Text, name: seq<Item>, middle: Text, gap: Text, tree: Tree, afterValue: Text)
    requires ParseMembers(text).At?
    ensures Spaces(before) && ItemsOk(name) && Spaces(middle) && Spaces(gap) && TreeOk(tree)
    ensures text == SpellName(before, name, middle, gap, tree, afterValue) && |afterValue| < |text|
    ensures ParseMembers(text) == ParseMoreMembers(Member(UnitsOf(name), ValueOf(tree)), afterValue)
    decreases |text|, 1
  {
    var s, afterName, colon, rest := MemberParts(text);
    before := SkipSpaceSplits(text);
    name := StringIsSpelled(s[1..]);
    middle := SkipSpaceSplits(afterName);
    gap, tree := ValueIsSpelled(colon[1..]);
    afterValue := rest;
    assert s == [QUOTE] + s[1..] && colon == [COLON] + colon[1..];
  }

  lemma {:induction false} MembersAreSpelled(text: Text) returns (ms: Members)
    requires ParseMembers(text).At?
    ensures MembersOk(ms) && MemberValues(ms) == ParseMembers(text).value
    ensures text == SpellMembers(ms, [CLOSE_BRACE] + ParseMembers(text).rest)
    decreases |text|, 2
  {
    var before, name, middle, gap, tree, afterValue := NameIsSpelled(text);
    var after, next := AfterMember(Member(UnitsOf(name), ValueOf(tree)), afterValue);
    if next[0] == CLOSE_BRACE {
      ms := LastMember(before, name, middle, gap, tree, after);
      LastMemberSpells(before, name, middle, gap, tree, after, next);
    } else {
      var more := MembersAreSpelled(next[1..]);
      ms := MoreMembers(before, name, middle, gap, tree, after, more);
      MoreMembersSpell(before, name, middle, gap, tree, after, more, [CLOSE_BRACE] + ParseMembers(text).rest);
    }
  }

  // ----- The whole text -----

  /** White space, a value, white space. */
  ghost predicate Denotes(text: Text, v: Value) {
    exists before: Text, tree: Tree, after: Text ::
      Spaces(before) && Spaces(after) && TreeOk(tree) && text == before + Spell(tree, after) && ValueOf(tree) == v
  }

  /** JSON.parse accepts a text if and only if the grammar of RFC 8259 has it, and returns the
      value that the text denotes. */
  lemma ParseIff(text: Text, v: Value)
    ensures Parse(text) == Some(v) <==> Denotes(text, v)
  {
    if Parse(text) == Some(v) {
      var before, tree := ValueIsSpelled(text);
      var rest := ParseValue(text).rest;
      var after := SkipSpaceSplits(rest);
      assert after + SkipSpace(rest) == after;
      assert Spaces(before) && Spaces(after) && TreeOk(tree) && text == before + Spell(tree, after) && ValueOf(tree) == v;
    }
    if Denotes(text, v) {
      var before: Text, tree: Tree, after: Text :|
        Spaces(before) && Spaces(after) && TreeOk(tree) && text == before + Spell(tree, after) && ValueOf(tree) == v;
      TreeReads(tree, after);
      SpellStarts(tree, after);
      AfterGap(before, Spell(tree, after));
      SkipSpaceReads(after, []);
      assert after + [] == after;
    }
  }
}
