/** The numeric tests of the field classifier: the regular expression
    `^-?[0-9\.]+( .*)?` as `re.match` applies it, the token `v.split(" ")[0]`,
    and which tokens Python's `float()` accepts. */
module Numbers {
  import Text

  predicate IsDigit(c: char)
  {
    '0' <= c <= '9'
  }

  /** A character of the class `[0-9\.]`. */
  predicate IsNumberChar(c: char)
  {
    IsDigit(c) || c == '.'
  }

  /** `p` matches `-?[0-9\.]+` in full. */
  predicate FullMatchesNumber(p: string)
  {
    var digits := if |p| > 0 && p[0] == '-' then p[1..] else p;
    |digits| > 0 && AllNumberChars(digits)
  }

  predicate AllNumberChars(s: string)
  {
    forall i :: 0 <= i < |s| ==> IsNumberChar(s[i])
  }

  /** `re.match(r"^-?[0-9\.]+( .*)?", v)` succeeds. The group `( .*)?` is optional
      and nothing anchors the end, so this only looks at the first one or two
      characters. */
  predicate MatchesNumeric(v: string)
  {
    var rest := if |v| > 0 && v[0] == '-' then v[1..] else v;
    |rest| > 0 && IsNumberChar(rest[0])
  }

  /** The check is a prefix match: v passes exactly when some non-empty prefix of v
      matches `-?[0-9\.]+` in full. */
  lemma MatchesNumericIsPrefixMatch(v: string)
    ensures MatchesNumeric(v) <==> exists n :: 0 < n <= |v| && FullMatchesNumber(v[..n])
  {
    if MatchesNumeric(v) {
      var n := if v[0] == '-' then 2 else 1;
      assert FullMatchesNumber(v[..n]);
    }
    if exists n :: 0 < n <= |v| && FullMatchesNumber(v[..n]) {
      var n :| 0 < n <= |v| && FullMatchesNumber(v[..n]);
      var p := v[..n];
      assert FullMatchesNumber(p);
      var digits := if |p| > 0 && p[0] == '-' then p[1..] else p;
      assert AllNumberChars(digits);
      assert IsNumberChar(digits[0]);
      assert p[0] == v[0];
      if p[0] == '-' {
        assert digits[0] == v[1];
      }
    }
  }

  /** The position of the first character of s that is in cs, or |s| if none is. */
  function IndexOfAny(s: string, cs: set<char>): (i: nat)
    ensures i <= |s|
    ensures i < |s| ==> s[i] in cs
    ensures forall j :: 0 <= j < i ==> s[j] !in cs
  {
    if |s| == 0 then 0
    else if s[0] in cs then 0
    else 1 + IndexOfAny(s[1..], cs)
  }

  /** `v.split(" ")[0]`: everything before the first space. */
  function FirstToken(v: string): (t: string)
    ensures |t| <= |v| && t == v[..|t|]
    ensures forall i :: 0 <= i < |t| ==> t[i] != ' '
    ensures |t| == |v| || v[|t|] == ' '
  {
    v[..IndexOfAny(v, {' '})]
  }

  /** The sensor reading "602000000 Hz" is read as 602000000: the unit is dropped. */
  lemma FirstTokenDropsUnit()
    ensures FirstToken("602000000 Hz") == "602000000"
  {
    assert "602000000 Hz" == "602000000" + " " + "Hz";
    FirstTokenOfWords("602000000", "Hz");
  }

  /** The first token of a word, a space and anything after it is the word. */
  lemma FirstTokenOfWords(word: string, rest: string)
    requires forall i :: 0 <= i < |word| ==> word[i] != ' '
    ensures FirstToken(word + " " + rest) == word
  {
    var v := word + " " + rest;
    assert v[|word|] == ' ';
    assert forall j :: 0 <= j < |word| ==> v[j] == word[j];
    assert v[..|word|] == word;
  }

  // Python's float() on a str: surrounding whitespace (IsFloatSpace) is ignored, then
  //   [sign] (digitpart ["." [digitpart]] | "." digitpart) [exponent]
  // where a digitpart may put single underscores between digits and
  //   exponent = ("e" | "E") [sign] digitpart
  // ("inf" and "nan" cannot start a token the numeric pattern lets through).

  /** A digitpart: digits, with single underscores allowed between two digits. */
  predicate IsDigitPart(s: string)
  {
    && |s| > 0
    && IsDigit(s[0])
    && forall i :: 0 <= i < |s| ==> DigitOrJoin(s, i)
  }

  /** s[i] is a digit, or an underscore with a digit right after it. */
  predicate DigitOrJoin(s: string, i: nat)
    requires i < |s|
  {
    IsDigit(s[i]) || (s[i] == '_' && i + 1 < |s| && IsDigit(s[i + 1]))
  }

  function DropSign(s: string): string
  {
    if |s| > 0 && (s[0] == '+' || s[0] == '-') then s[1..] else s
  }

  /** The part before the exponent: digits with at most one point, not the point alone. */
  predicate IsMantissa(s: string)
  {
    var p := IndexOfAny(s, {'.'});
    if p == |s| then IsDigitPart(s)
    else
      var whole, fraction := s[..p], s[p + 1..];
      && (whole == [] || IsDigitPart(whole))
      && (fraction == [] || IsDigitPart(fraction))
      && (whole != [] || fraction != [])
  }

  /** A decimal literal that `float()` converts. */
  predicate IsFloatLiteral(s: string)
  {
    var body := DropSign(s);
    var e := IndexOfAny(body, {'e', 'E'});
    if e == |body| then IsMantissa(body)
    else IsMantissa(body[..e]) && IsDigitPart(DropSign(body[e + 1..]))
  }

  /** The whitespace float() ignores around a literal: what `str.isspace()` accepts
      except the separators U+001C..U+001F. float() turns non-ASCII whitespace into
      ' ' and then trims only ' ', '\t', '\n', '\v', '\f' and '\r', so a separator
      stays in the token and makes it fail. */
  predicate IsFloatSpace(c: char)
  {
    Text.IsSpace(c) && !('\U{1C}' <= c <= '\U{1F}')
  }

  /** What float() parses: s without its leading and trailing float() whitespace. */
  function FloatTrim(s: string): string
  {
    Text.TrimBy(s, IsFloatSpace)
  }

  /** `float(token)` returns a value instead of raising ValueError, for a token the
      numeric pattern lets through (PatternTokenStartsNumeric). float() also accepts
      "inf", "infinity" and "nan", which such a token never is, and which this
      predicate rejects. */
  predicate FloatAccepts(token: string)
  {
    IsFloatLiteral(FloatTrim(token))
  }

  /** float() ignores surrounding float() whitespace, so on a token the numeric
      pattern lets through that neither starts nor ends with any, it accepts exactly
      the decimal literals. */
  lemma FloatAcceptsUnpadded(t: string)
    requires |t| > 0 && !IsFloatSpace(t[0]) && !IsFloatSpace(t[|t| - 1])
    ensures FloatAccepts(t) <==> IsFloatLiteral(t)
  {
  }

  /** An information separator is whitespace to `str.strip()` but not to float():
      "5\U{1C}" passes the numeric pattern and makes float() raise. */
  lemma SeparatorIsNotFloatSpace()
    ensures Text.IsSpace('\U{1C}') && !IsFloatSpace('\U{1C}')
    ensures MatchesNumeric("5\U{1C}") && !FloatAccepts(FirstToken("5\U{1C} dBmV"))
  {
    var t := "5\U{1C}";
    assert "5\U{1C} dBmV" == t + " " + "dBmV";
    FirstTokenOfWords(t, "dBmV");
    FloatAcceptsUnpadded(t);
    NotAFloatLiteralSeparator();
  }

  lemma NotAFloatLiteralSeparator()
    ensures !IsFloatLiteral("5\U{1C}")
  {
    var v := "5\U{1C}";
    assert DropSign(v) == v;
    assert IndexOfAny(v, {'e', 'E'}) == |v|;
    assert IndexOfAny(v, {'.'}) == |v|;
    NotDigitPartAt(v, 1);
    assert !IsDigitPart(v);
  }

  /** A character that is neither a digit nor an underscore rules out a digitpart. */
  lemma NotDigitPartAt(s: string, i: nat)
    requires i < |s| && !IsDigit(s[i]) && s[i] != '_'
    ensures !IsDigitPart(s)
  {
    assert !DigitOrJoin(s, i);
  }

  /** A string without a space is its own first token. */
  lemma FirstTokenNoSpace(v: string)
    requires forall i :: 0 <= i < |v| ==> v[i] != ' '
    ensures FirstToken(v) == v
  {
    assert IndexOfAny(v, {' '}) == |v|;
  }

  /** The token of a value that passes the numeric pattern starts, after an optional
      '-', with a digit or a point, and not with float() whitespace; so it is never
      one of float()'s special values "inf", "infinity" or "nan", in any case or with
      any sign. */
  lemma PatternTokenStartsNumeric(v: string)
    requires MatchesNumeric(v)
    ensures var t := FirstToken(v);
            && |t| > 0 && !IsFloatSpace(t[0])
            && |DropSign(t)| > 0 && IsNumberChar(DropSign(t)[0])
  {
    var t := FirstToken(v);
    assert v[0] != ' ';
    if v[0] == '-' {
      assert v[1] != ' ';
      assert |t| >= 2 && t[1] == v[1];
    }
  }

  /** The numeric pattern is weaker than what float() accepts: "12abc" passes it
      and makes float() raise. */
  lemma PatternAdmitsTrailingLetters()
    ensures MatchesNumeric("12abc") && !FloatAccepts(FirstToken("12abc"))
  {
    FirstTokenNoSpace("12abc");
    assert FirstToken("12abc") == "12abc";
    NotAFloat12abc();
  }

  lemma NotAFloat12abc()
    ensures !FloatAccepts("12abc")
  {
    NotAFloatLiteral12abc();
    FloatAcceptsUnpadded("12abc");
  }

  lemma NotAFloatLiteral12abc()
    ensures !IsFloatLiteral("12abc")
  {
    var v := "12abc";
    assert DropSign(v) == v;
    assert IndexOfAny(v, {'e', 'E'}) == |v|;
    assert IndexOfAny(v, {'.'}) == |v|;
    NotDigitPartAt(v, 2);
    assert !IsDigitPart(v);
  }

  /** "1.2.3" passes the numeric pattern and makes float() raise. */
  lemma PatternAdmitsTwoPoints()
    ensures MatchesNumeric("1.2.3") && !FloatAccepts(FirstToken("1.2.3"))
  {
    FirstTokenNoSpace("1.2.3");
    NotAFloatTwoPoints();
  }

  lemma NotAFloatTwoPoints()
    ensures !FloatAccepts("1.2.3")
  {
    NotAFloatLiteralTwoPoints();
    FloatAcceptsUnpadded("1.2.3");
  }

  lemma NotAFloatLiteralTwoPoints()
    ensures !IsFloatLiteral("1.2.3")
  {
    var v := "1.2.3";
    assert DropSign(v) == v;
    assert IndexOfAny(v, {'e', 'E'}) == |v|;
    assert IndexOfAny(v, {'.'}) == 1;
    var fraction := v[2..];
    assert fraction[1] == '.';
    NotDigitPartAt(fraction, 1);
  }

  /** A negative decimal reading such as "-2.1" converts. */
  lemma NegativeDecimalConverts()
    ensures FloatAccepts("-2.1")
  {
    NegativeDecimalIsLiteral();
    FloatAcceptsUnpadded("-2.1");
  }

  lemma NegativeDecimalIsLiteral()
    ensures IsFloatLiteral("-2.1")
  {
    var body := DropSign("-2.1");
    assert body == "2.1";
    assert IndexOfAny(body, {'e', 'E'}) == |body|;
    assert IndexOfAny(body, {'.'}) == 1;
    assert body[..1] == "2" && body[2..] == "1";
  }
}
