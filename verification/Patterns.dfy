/** The text formats are those of the regular expressions in the schema: lists of character
    classes with repetition bounds, matched against the whole string. */
module Patterns {
  import opened Sql
  import opened Outbox
  import opened ReplayGuard
  import opened EvidenceVault

  /** What stands between brackets. */
  datatype Class = Range(first: char, last: char) | Or(Class, Class)

  predicate InClass(c: char, chars: Class) {
    match chars
    case Range(first, last) => first <= c <= last
    case Or(a, b) => InClass(c, a) || InClass(c, b)
  }

  /** `[chars]{least,most}` */
  datatype Piece = Piece(chars: Class, least: nat, most: nat)

  predicate AllInClass(s: string, chars: Class) {
    forall i :: 0 <= i < |s| ==> InClass(s[i], chars)
  }

  /** The first n characters are those of the piece. */
  predicate Takes(s: string, p: Piece, n: nat) {
    n <= |s| && p.least <= n <= p.most && AllInClass(s[..n], p.chars)
  }

  /** The whole string, from `^` to `$`. */
  predicate Matches(s: string, pieces: seq<Piece>) {
    if |pieces| == 0 then s == ""
    else exists n :: 0 <= n <= |s| && Takes(s, pieces[0], n) && Matches(s[n..], pieces[1..])
  }

  lemma OnePieceIff(s: string, p: Piece)
    ensures Matches(s, [p]) <==> p.least <= |s| <= p.most && AllInClass(s, p.chars)
  {
    assert [p][1..] == [] && s[..|s|] == s && s[|s|..] == "";
    if Matches(s, [p]) {
      var n :| 0 <= n <= |s| && Takes(s, p, n) && Matches(s[n..], [p][1..]);
      assert s[n..] == "";
    } else if p.least <= |s| <= p.most && AllInClass(s, p.chars) {
      assert Takes(s, p, |s|) && Matches(s[|s|..], [p][1..]);
    }
  }

  /** One character of the first class, then the others of the second. */
  lemma FirstAndRestIff(s: string, first: Class, rest: Piece)
    ensures Matches(s, [Piece(first, 1, 1), rest]) <==>
              && |s| > 0 && rest.least <= |s| - 1 <= rest.most
              && InClass(s[0], first) && AllInClass(s[1..], rest.chars)
  {
    var p := Piece(first, 1, 1);
    assert [p, rest][1..] == [rest];
    if Matches(s, [p, rest]) {
      var n :| 0 <= n <= |s| && Takes(s, p, n) && Matches(s[n..], [p, rest][1..]);
      assert s[..1][0] == s[0];
      OnePieceIff(s[1..], rest);
    } else if |s| > 0 && InClass(s[0], first) {
      OnePieceIff(s[1..], rest);
      assert Takes(s, p, 1);
    }
  }

  const UPPER: Class := Range('A', 'Z')
  const LOWER: Class := Range('a', 'z')
  const DIGIT: Class := Range('0', '9')

  function Only(c: char): Class { Range(c, c) }

  const REASON_CHARS: Class := Or(UPPER, Or(DIGIT, Only('_')))
  const NAME_CHARS: Class := Or(Or(LOWER, DIGIT), Or(Only('.'), Or(Only('_'), Only('-'))))
  const WORKER_CHARS: Class := Or(NAME_CHARS, Only(':'))
  const BASE64URL_CHARS: Class := Or(Or(UPPER, LOWER), Or(DIGIT, Or(Only('_'), Only('-'))))
  const HEX_CHARS: Class := Or(DIGIT, Range('a', 'f'))

  lemma LowerOrDigit(c: char)
    ensures InClass(c, Or(LOWER, DIGIT)) <==> 'a' <= c <= 'z' || '0' <= c <= '9'
  {
  }

  lemma ReasonChars(c: char)
    ensures InClass(c, REASON_CHARS) <==> 'A' <= c <= 'Z' || '0' <= c <= '9' || c == '_'
  {
    assert InClass(c, Or(DIGIT, Only('_'))) <==> '0' <= c <= '9' || c == '_';
  }

  lemma NameChars(c: char)
    ensures InClass(c, NAME_CHARS) <==> 'a' <= c <= 'z' || '0' <= c <= '9' || c == '.' || c == '_' || c == '-'
    ensures InClass(c, WORKER_CHARS) <==> InClass(c, NAME_CHARS) || c == ':'
  {
    LowerOrDigit(c);
    assert InClass(c, Or(Only('_'), Only('-'))) <==> c == '_' || c == '-';
    assert InClass(c, Or(Only('.'), Or(Only('_'), Only('-')))) <==> c == '.' || c == '_' || c == '-';
  }

  lemma Base64UrlChars(c: char)
    ensures InClass(c, BASE64URL_CHARS) <==>
              'A' <= c <= 'Z' || 'a' <= c <= 'z' || '0' <= c <= '9' || c == '_' || c == '-'
  {
    assert InClass(c, Or(UPPER, LOWER)) <==> 'A' <= c <= 'Z' || 'a' <= c <= 'z';
    assert InClass(c, Or(Only('_'), Only('-'))) <==> c == '_' || c == '-';
    assert InClass(c, Or(DIGIT, Or(Only('_'), Only('-')))) <==> '0' <= c <= '9' || c == '_' || c == '-';
  }

  /** `^[A-Z][A-Z0-9_]{2,63}$` */
  lemma ReasonCodeIff(s: string)
    ensures ReasonCodeFormat(s) <==> Matches(s, [Piece(UPPER, 1, 1), Piece(REASON_CHARS, 2, 63)])
  {
    FirstAndRestIff(s, UPPER, Piece(REASON_CHARS, 2, 63));
    if |s| > 0 {
      var rest := s[1..];
      assert forall i :: 1 <= i < |s| ==> s[i] == rest[i - 1];
      forall i | 0 <= i < |rest|
        ensures InClass(rest[i], REASON_CHARS) <==> 'A' <= rest[i] <= 'Z' || '0' <= rest[i] <= '9' || rest[i] == '_'
      {
        ReasonChars(rest[i]);
      }
    }
  }

  /** `^[a-z0-9][a-z0-9._:-]{2,127}$` */
  lemma WorkerIff(s: string)
    ensures WorkerFormat(s) <==> Matches(s, [Piece(Or(LOWER, DIGIT), 1, 1), Piece(WORKER_CHARS, 2, 127)])
  {
    FirstAndRestIff(s, Or(LOWER, DIGIT), Piece(WORKER_CHARS, 2, 127));
    if |s| > 0 {
      var rest := s[1..];
      LowerOrDigit(s[0]);
      assert forall i :: 1 <= i < |s| ==> s[i] == rest[i - 1];
      forall i | 0 <= i < |rest|
        ensures InClass(rest[i], WORKER_CHARS) <==> 'a' <= rest[i] <= 'z' || '0' <= rest[i] <= '9' || rest[i] in "._:-"
      {
        NameChars(rest[i]);
      }
    }
  }

  /** `^[a-z0-9][a-z0-9._-]{2,63}$` */
  lemma KeyIdIff(s: string)
    ensures KeyIdFormat(s) <==> Matches(s, [Piece(Or(LOWER, DIGIT), 1, 1), Piece(NAME_CHARS, 2, 63)])
  {
    FirstAndRestIff(s, Or(LOWER, DIGIT), Piece(NAME_CHARS, 2, 63));
    if |s| > 0 {
      var rest := s[1..];
      LowerOrDigit(s[0]);
      assert forall i :: 1 <= i < |s| ==> s[i] == rest[i - 1];
      forall i | 0 <= i < |rest|
        ensures InClass(rest[i], NAME_CHARS) <==> 'a' <= rest[i] <= 'z' || '0' <= rest[i] <= '9' || rest[i] in "._-"
      {
        NameChars(rest[i]);
      }
    }
  }

  /** `^[A-Za-z0-9_-]{22,64}$` */
  lemma NonceIff(s: string)
    ensures NonceFormat(s) <==> Matches(s, [Piece(BASE64URL_CHARS, 22, 64)])
  {
    OnePieceIff(s, Piece(BASE64URL_CHARS, 22, 64));
    forall i | 0 <= i < |s|
      ensures InClass(s[i], BASE64URL_CHARS) <==>
                'A' <= s[i] <= 'Z' || 'a' <= s[i] <= 'z' || '0' <= s[i] <= '9' || s[i] == '_' || s[i] == '-'
    {
      Base64UrlChars(s[i]);
    }
  }

  /** `^[0-9a-f]{64}$` */
  lemma HashIff(s: string)
    ensures HashFormat(s) <==> Matches(s, [Piece(HEX_CHARS, 64, 64)])
  {
    OnePieceIff(s, Piece(HEX_CHARS, 64, 64));
    assert forall i :: 0 <= i < |s| ==> (InClass(s[i], HEX_CHARS) <==> '0' <= s[i] <= '9' || 'a' <= s[i] <= 'f');
  }
}
