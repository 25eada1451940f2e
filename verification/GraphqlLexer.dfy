/** Tokens of a GraphQL document: the tokenizer, and the spelling of tokens it undoes. */
module GraphqlLexer {
  import opened Outcome
  import opened JsText

  datatype Kind = Name | String | Number | Punct

  datatype Token = Token(kind: Kind, value: Text)

  datatype Error =
    | TooLarge | InvalidEscape | UnterminatedString | InvalidNumber | UnexpectedCharacter
    | UnexpectedEnd | Expected(text: Text) | ExpectedName | EmptyDocument | Subscription | UnsupportedOperation
    | SelectionTooDeep | TooManyFields | DuplicateArgument | ValueTooDeep | ExpectedValue | InvalidValue

  const MAX_BYTES := 64 * 1024

  predicate NameStart(c: CodeUnit) { IsLetter(c) || c == U('_') }
  predicate NameContinue(c: CodeUnit) { NameStart(c) || IsDigit(c) }
  predicate NumberPart(c: CodeUnit) {
    IsDigit(c) || c == U('.') || c == U('e') || c == U('E') || c == U('+') || c == U('-')
  }
  predicate InComment(c: CodeUnit) { c != 10 }
  predicate IsPunct(c: CodeUnit) {
    c == U('!') || c == U('$') || c == U('(') || c == U(')') || c == U(':') || c == U('=') || c == U('@')
    || c == U('[') || c == U(']') || c == U('{') || c == U('}')
  }

  predicate IsName(t: Text) {
    |t| > 0 && NameStart(t[0]) && forall k :: 0 <= k < |t| ==> NameContinue(t[k])
  }

  // -------------------------------------------------------------- numbers

  /** -?(0|[1-9]\d*) from i, or i itself when there is no integer part. */
  function IntegerEnd(t: Text, i: nat): (end: nat)
    requires i <= |t|
    ensures i <= end <= |t| && forall k :: i <= k < end ==> IsDigit(t[k])
  {
    if i < |t| && t[i] == U('0') then i + 1
    else Span(t, i, IsDigit)
  }

  function FractionEnd(t: Text, i: nat): (end: nat)
    requires i <= |t|
    ensures i <= end <= |t| && forall k :: i <= k < end ==> NumberPart(t[k])
  {
    if i + 1 < |t| && t[i] == U('.') && IsDigit(t[i + 1]) then Span(t, i + 1, IsDigit) else i
  }

  function ExponentEnd(t: Text, i: nat): (end: nat)
    requires i <= |t|
    ensures i <= end <= |t| && forall k :: i <= k < end ==> NumberPart(t[k])
  {
    if i < |t| && (t[i] == U('e') || t[i] == U('E')) then
      var d := if i + 1 < |t| && (t[i + 1] == U('+') || t[i + 1] == U('-')) then i + 2 else i + 1;
      if d < |t| && IsDigit(t[d]) then Span(t, d, IsDigit) else i
    else i
  }

  function SignEnd(t: Text): (i: nat)
    ensures i <= |t| && i <= 1
  {
    if |t| > 0 && t[0] == U('-') then 1 else 0
  }

  predicate IsNumber(t: Text) {
    var n := IntegerEnd(t, SignEnd(t));
    n > SignEnd(t) && ExponentEnd(t, FractionEnd(t, n)) == |t|
  }

  /** The code's own test for a number that is not an integer. */
  predicate IsFloat(t: Text) {
    exists k :: 0 <= k < |t| && (t[k] == U('.') || t[k] == U('e') || t[k] == U('E'))
  }

  predicate DigitsOnly(t: Text) { |t| > 0 && forall k :: 0 <= k < |t| ==> IsDigit(t[k]) }

  /** -?(0|[1-9]\d*)(\.\d+)?([eE][+-]?\d+)? */
  predicate Numeral(sign: Text, whole: Text, fraction: Text, exponent: Text) {
    && (sign == [] || sign == [U('-')])
    && DigitsOnly(whole) && (whole[0] == U('0') ==> |whole| == 1)
    && (fraction != [] ==> fraction[0] == U('.') && DigitsOnly(fraction[1..]))
    && (exponent != [] ==>
          && (exponent[0] == U('e') || exponent[0] == U('E'))
          && (DigitsOnly(exponent[1..])
              || (|exponent| > 1 && (exponent[1] == U('+') || exponent[1] == U('-')) && DigitsOnly(exponent[2..]))))
  }

  lemma SignReads(t: Text, sign: Text, whole: Text, rest: Text)
    requires t == sign + whole + rest && (sign == [] || sign == [U('-')]) && DigitsOnly(whole)
    ensures SignEnd(t) == |sign|
  {
    assert t[|sign|] == whole[0];
  }

  lemma WholeReads(t: Text, i: nat, whole: Text)
    requires OnAt(t, i, whole) && DigitsOnly(whole) && (whole[0] == U('0') ==> |whole| == 1)
    requires i + |whole| < |t| ==> !IsDigit(t[i + |whole|])
    ensures i <= |t| && IntegerEnd(t, i) == i + |whole|
  {
    assert t[i] == whole[0];
    forall k | i <= k < i + |whole| ensures IsDigit(t[k]) { assert t[k] == whole[k - i]; }
    SpanIs(t, i, i + |whole|, IsDigit);
  }

  lemma FractionReads(t: Text, i: nat, fraction: Text)
    requires i <= |t| && OnAt(t, i, fraction) && (fraction != [] ==> fraction[0] == U('.') && DigitsOnly(fraction[1..]))
    requires var end := i + |fraction|; end < |t| ==> !IsDigit(t[end]) && t[end] != U('.')
    ensures FractionEnd(t, i) == i + |fraction|
  {
    if fraction != [] {
      assert t[i] == fraction[0] && t[i + 1] == fraction[1] == fraction[1..][0];
      forall k | i + 1 <= k < i + |fraction| ensures IsDigit(t[k]) { assert t[k] == fraction[k - i] == fraction[1..][k - i - 1]; }
      SpanIs(t, i + 1, i + |fraction|, IsDigit);
    }
  }

  lemma ExponentReads(t: Text, i: nat, exponent: Text)
    requires OnAt(t, i, exponent) && i + |exponent| == |t|
    requires exponent != [] ==>
      && (exponent[0] == U('e') || exponent[0] == U('E'))
      && (DigitsOnly(exponent[1..])
          || (|exponent| > 1 && (exponent[1] == U('+') || exponent[1] == U('-')) && DigitsOnly(exponent[2..])))
    ensures ExponentEnd(t, i) == |t|
  {
    if exponent != [] {
      assert t[i] == exponent[0] && t[i + 1] == exponent[1];
      var d := if exponent[1] == U('+') || exponent[1] == U('-') then 2 else 1;
      assert DigitsOnly(exponent[d..]) by { if d == 2 { assert exponent[1..][0] == exponent[1]; } }
      assert t[i + d] == exponent[d] == exponent[d..][0];
      forall k | i + d <= k < |t| ensures IsDigit(t[k]) { assert t[k] == exponent[k - i] == exponent[d..][k - i - d]; }
      SpanIs(t, i + d, |t|, IsDigit);
    }
  }

  lemma EndsMakeNumber(t: Text, n: nat, m: nat)
    requires SignEnd(t) < n <= m <= |t| && IntegerEnd(t, SignEnd(t)) == n && FractionEnd(t, n) == m && ExponentEnd(t, m) == |t|
    ensures IsNumber(t)
  {
  }

  lemma PartsStand(t: Text, sign: Text, whole: Text, fraction: Text, exponent: Text)
    requires t == sign + whole + fraction + exponent
    ensures var n := |sign| + |whole|;
      && OnAt(t, |sign|, whole) && OnAt(t, n, fraction) && OnAt(t, n + |fraction|, exponent)
      && |t| == n + |fraction| + |exponent| && t == sign + whole + (fraction + exponent)
    ensures var n := |sign| + |whole|;
      && (fraction != [] ==> t[n] == fraction[0]) && (exponent != [] ==> t[n + |fraction|] == exponent[0])
  {
    assert t == sign + whole + (fraction + exponent);
  }

  lemma NumeralIsNumber(sign: Text, whole: Text, fraction: Text, exponent: Text)
    requires Numeral(sign, whole, fraction, exponent)
    ensures IsNumber(sign + whole + fraction + exponent)
  {
    hide Span, DigitsOnly, IntegerEnd, FractionEnd, ExponentEnd, SignEnd, OnAt, IsNumber;
    var t := sign + whole + fraction + exponent;
    var n := |sign| + |whole|;
    PartsStand(t, sign, whole, fraction, exponent);
    SignReads(t, sign, whole, fraction + exponent);
    WholeReads(t, |sign|, whole);
    FractionReads(t, n, fraction);
    ExponentReads(t, n + |fraction|, exponent);
    assert |whole| > 0 by { SomeDigits(whole); }
    EndsMakeNumber(t, n, n + |fraction|);
  }

  lemma SomeDigits(t: Text)
    requires DigitsOnly(t)
    ensures |t| > 0
  {
  }

  lemma DigitsBetween(t: Text, a: nat, b: nat)
    requires a < b <= |t| && forall k :: a <= k < b ==> IsDigit(t[k])
    ensures DigitsOnly(t[a..b])
  {
  }

  lemma WholePart(t: Text, i: nat)
    requires i <= |t| && IntegerEnd(t, i) > i
    ensures var whole := t[i..IntegerEnd(t, i)]; DigitsOnly(whole) && (whole[0] == U('0') ==> |whole| == 1)
  {
    DigitsBetween(t, i, IntegerEnd(t, i));
  }

  lemma FractionPart(t: Text, n: nat)
    requires n <= |t|
    ensures var fraction := t[n..FractionEnd(t, n)]; fraction != [] ==> fraction[0] == U('.') && DigitsOnly(fraction[1..])
  {
    var m := FractionEnd(t, n);
    if m > n {
      DigitsBetween(t, n + 1, m);
      assert t[n..m][1..] == t[n + 1..m];
    }
  }

  lemma ExponentPart(t: Text, m: nat)
    requires m <= |t| && ExponentEnd(t, m) == |t|
    ensures Numeral([], [U('1')], [], t[m..])
  {
    var exponent := t[m..];
    if exponent != [] {
      var d := if t[m + 1] == U('+') || t[m + 1] == U('-') then 2 else 1;
      DigitsBetween(t, m + d, |t|);
      assert exponent[d..] == t[m + d..|t|];
    }
  }

  lemma NumberHasParts(t: Text) returns (sign: Text, whole: Text, fraction: Text, exponent: Text)
    requires IsNumber(t)
    ensures Numeral(sign, whole, fraction, exponent) && t == sign + whole + fraction + exponent
  {
    hide Span, DigitsOnly, IntegerEnd, FractionEnd, ExponentEnd;
    var i := SignEnd(t);
    var n := IntegerEnd(t, i);
    var m := FractionEnd(t, n);
    sign, whole, fraction, exponent := t[..i], t[i..n], t[n..m], t[m..];
    assert sign == [] || sign == [U('-')];
    WholePart(t, i);
    FractionPart(t, n);
    ExponentPart(t, m);
  }

  /** The scanner's test is the grammar of numbers. */
  lemma NumberExactlyWhenNumeral(t: Text)
    ensures IsNumber(t) <==>
      exists sign, whole, fraction, exponent :: Numeral(sign, whole, fraction, exponent) && t == sign + whole + fraction + exponent
  {
    hide Numeral, IsNumber;
    if IsNumber(t) { var sign, whole, fraction, exponent := NumberHasParts(t); }
    forall sign, whole, fraction, exponent | Numeral(sign, whole, fraction, exponent) && t == sign + whole + fraction + exponent
      ensures IsNumber(t)
    {
      NumeralIsNumber(sign, whole, fraction, exponent);
    }
  }

  lemma NumberParts(t: Text)
    requires IsNumber(t)
    ensures |t| > 0 && (t[0] == U('-') || IsDigit(t[0])) && forall k :: 0 <= k < |t| ==> NumberPart(t[k])
  {
  }

  function IntText(n: int): Text {
    if n < 0 then [U('-')] + Decimal(-n) else Decimal(n)
  }

  /** parseInt(t, 10) on a number token. */
  function IntValue(t: Text): int {
    if SignEnd(t) == 1 then -DecimalValue(t[1..]) else DecimalValue(t)
  }

  /** Digits that reach the end of the text, without a superfluous leading zero, are an integer part. */
  lemma DigitsAreInteger(t: Text)
    requires var i := SignEnd(t); i < |t| && (forall k :: i <= k < |t| ==> IsDigit(t[k])) && (t[i] == U('0') ==> |t| == i + 1)
    ensures IsNumber(t) && !IsFloat(t)
  {
    if t[SignEnd(t)] != U('0') { SpanIs(t, SignEnd(t), |t|, IsDigit); }
  }

  lemma IntRoundTrip(n: int)
    ensures IsNumber(IntText(n)) && !IsFloat(IntText(n)) && IntValue(IntText(n)) == n
  {
    var t := IntText(n);
    DecimalRoundTrip(if n < 0 then -n else n);
    if n < 0 { assert t[1..] == Decimal(-n); }
    DigitsAreInteger(t);
  }

  // ------------------------------------------------------------ tokenizer

  function HexAt(s: Text, i: nat): Text
    requires i <= |s|
  {
    if i + 4 <= |s| then s[i..i + 4] else s[i..]
  }

  predicate IsHex4(h: Text) { |h| == 4 && forall k :: 0 <= k < |h| ==> IsHex(h[k]) }

  lemma {:induction false} HexFits(h: Text)
    requires forall k :: 0 <= k < |h| ==> IsHex(h[k])
    ensures HexValue(h) < Pow16(|h|)
  {
    if |h| > 0 { HexFits(h[..|h| - 1]); }
  }

  function HexUnit(h: Text): CodeUnit
    requires IsHex4(h)
  {
    HexFits(h);
    assert Pow16(4) == 0x1_0000;
    HexValue(h)
  }

  /** What an escape letter other than u stands for. */
  function Unescaped(c: CodeUnit): CodeUnit {
    if c == U('n') then 10 else if c == U('r') then 13 else if c == U('t') then 9
    else if c == U('b') then 8 else if c == U('f') then 12 else c
  }

  /** The rest of a string literal from i: its value, and the position after the closing quote. */
  function LexString(s: Text, i: nat, value: Text): (r: Result<(Text, nat), Error>)
    requires i <= |s|
    ensures r.Ok? ==> i < r.value.1 <= |s|
    decreases |s| - i
  {
    if i >= |s| then Err(UnterminatedString)
    else if s[i] == U('"') then Ok((value, i + 1))
    else if s[i] == U('\\') then
      if i + 1 >= |s| then Err(UnterminatedString)
      else if s[i + 1] == U('u') then
        if IsHex4(HexAt(s, i + 2)) then LexString(s, i + 6, value + [HexUnit(HexAt(s, i + 2))]) else Err(InvalidEscape)
      else LexString(s, i + 2, value + [Unescaped(s[i + 1])])
    else LexString(s, i + 1, value + [s[i]])
  }

  function Lex(s: Text, i: nat, tokens: seq<Token>): Result<seq<Token>, Error>
    requires i <= |s|
    decreases |s| - i
  {
    if i == |s| then Ok(tokens)
    else
      var c := s[i];
      if IsSpace(c) || c == U(',') then Lex(s, i + 1, tokens)
      else if c == U('#') then Lex(s, Span(s, i + 1, InComment), tokens)
      else if NameStart(c) then
        var end := Span(s, i + 1, NameContinue);
        Lex(s, end, tokens + [Token(Name, s[i..end])])
      else if c == U('"') then
        var (value, end) :- LexString(s, i + 1, []);
        Lex(s, end, tokens + [Token(String, value)])
      else if c == U('-') || IsDigit(c) then
        var end := Span(s, i + 1, NumberPart);
        if IsNumber(s[i..end]) then Lex(s, end, tokens + [Token(Number, s[i..end])]) else Err(InvalidNumber)
      else if IsPunct(c) then Lex(s, i + 1, tokens + [Token(Punct, [c])])
      else Err(UnexpectedCharacter)
  }

  /** Length in UTF-8: a surrogate pair takes four bytes, a lone surrogate three. */
  function Utf8Length(s: Text): nat {
    if |s| == 0 then 0
    else if s[0] < 0x80 then 1 + Utf8Length(s[1..])
    else if s[0] < 0x800 then 2 + Utf8Length(s[1..])
    else if |s| > 1 && 0xD800 <= s[0] < 0xDC00 && 0xDC00 <= s[1] < 0xE000 then 4 + Utf8Length(s[2..])
    else 3 + Utf8Length(s[1..])
  }

  /** The bytes of section 3 of RFC 3629; a surrogate on its own is written as U+FFFD. */
  function Utf8(s: Text): seq<nat> {
    if |s| == 0 then []
    else if s[0] <= 0x7F then [s[0]] + Utf8(s[1..])
    else if s[0] <= 0x7FF then [0xC0 + s[0] / 64, 0x80 + s[0] % 64] + Utf8(s[1..])
    else if |s| > 1 && 0xD800 <= s[0] <= 0xDBFF && 0xDC00 <= s[1] <= 0xDFFF then
      var point: nat := 0x1_0000 + (s[0] as int - 0xD800) * 0x400 + (s[1] as int - 0xDC00);
      [0xF0 + point / 0x4_0000, 0x80 + point / 0x1000 % 64, 0x80 + point / 64 % 64, 0x80 + point % 64] + Utf8(s[2..])
    else if 0xD800 <= s[0] <= 0xDFFF then [0xEF, 0xBF, 0xBD] + Utf8(s[1..])
    else [0xE0 + s[0] / 0x1000, 0x80 + s[0] / 64 % 64, 0x80 + s[0] % 64] + Utf8(s[1..])
  }

  lemma {:induction false} Utf8LengthCounts(s: Text)
    ensures Utf8Length(s) == |Utf8(s)|
    decreases |s|
  {
    if |s| > 0 {
      Utf8LengthCounts(s[1..]);
      if |s| > 1 { Utf8LengthCounts(s[2..]); }
    }
  }

  function Tokenize(s: Text): Result<seq<Token>, Error> {
    if Utf8Length(s) > MAX_BYTES then Err(TooLarge) else Lex(s, 0, [])
  }

  method Utf8ByteLength(s: Text) returns (n: nat)
    ensures n == Utf8Length(s)
  {
    n := 0;
    var i := 0;
    while i < |s|
      invariant 0 <= i <= |s|
      invariant n + Utf8Length(s[i..]) == Utf8Length(s)
    {
      assert s[i..][1..] == s[i + 1..];
      if s[i] < 0x80 { n := n + 1; }
      else if s[i] < 0x800 { n := n + 2; }
      else if i + 1 < |s| && 0xD800 <= s[i] < 0xDC00 && 0xDC00 <= s[i + 1] < 0xE000 {
        assert s[i..][2..] == s[i + 2..];
        n := n + 4;
        i := i + 1;
      } else { n := n + 3; }
      i := i + 1;
    }
  }

  method ScanString(s: Text, start: nat) returns (r: Result<(Text, nat), Error>)
    requires start <= |s|
    ensures r == LexString(s, start, [])
  {
    var index := start;
    var value: Text := [];
    while index < |s|
      invariant start <= index <= |s|
      invariant LexString(s, start, []) == LexString(s, index, value)
      decreases |s| - index
    {
      var current := s[index];
      index := index + 1;
      if current == U('"') { return Ok((value, index)); }
      if current == U('\\') {
        if index >= |s| { return Err(UnterminatedString); }
        var escaped := s[index];
        index := index + 1;
        if escaped == U('u') {
          var hex := HexAt(s, index);
          if !IsHex4(hex) { return Err(InvalidEscape); }
          value := value + [HexUnit(hex)];
          index := index + 4;
        } else {
          value := value + [Unescaped(escaped)];
        }
      } else {
        value := value + [current];
      }
    }
    return Err(UnterminatedString);
  }

  method ScanWhile(s: Text, start: nat, p: CodeUnit -> bool) returns (index: nat)
    requires start <= |s|
    ensures index == Span(s, start, p)
  {
    index := start;
    while index < |s| && p(s[index])
      invariant start <= index <= |s|
      invariant Span(s, start, p) == Span(s, index, p)
    {
      index := index + 1;
    }
  }

  method TokenizeSource(source: Text) returns (r: Result<seq<Token>, Error>)
    ensures r == Tokenize(source)
    ensures r == if |Utf8(source)| > 65_536 then Err(TooLarge) else Lex(source, 0, [])
  {
    hide Lex, Utf8;
    Utf8LengthCounts(source);
    var bytes := Utf8ByteLength(source);
    if bytes > MAX_BYTES { return Err(TooLarge); }
    r := ScanTokens(source);
  }

  method ScanTokens(source: Text) returns (r: Result<seq<Token>, Error>)
    ensures r == Lex(source, 0, [])
  {
    hide *;
    var tokens: seq<Token> := [];
    var index := 0;
    while index < |source|
      invariant 0 <= index <= |source|
      invariant Lex(source, 0, []) == Lex(source, index, tokens)
      decreases |source| - index
    {
      var unit := source[index];
      if IsSpace(unit) || unit == U(',') {
        LexBlank(source, index, tokens);
        index := index + 1;
      } else if unit == U('#') {
        LexComment(source, index, tokens);
        index := ScanWhile(source, index + 1, InComment);
      } else if NameStart(unit) {
        var end := ScanWhile(source, index + 1, NameContinue);
        LexName(source, index, end, tokens);
        tokens := tokens + [Token(Name, source[index..end])];
        index := end;
      } else if unit == U('"') {
        var scanned := ScanString(source, index + 1);
        LexQuotedOrFail(source, index, tokens);
        if scanned.Err? { return Err(scanned.error); }
        tokens := tokens + [Token(String, scanned.value.0)];
        index := scanned.value.1;
      } else if unit == U('-') || IsDigit(unit) {
        var end := ScanWhile(source, index + 1, NumberPart);
        LexNumberOrFail(source, index, end, tokens);
        if !IsNumber(source[index..end]) { return Err(InvalidNumber); }
        tokens := tokens + [Token(Number, source[index..end])];
        index := end;
      } else if IsPunct(unit) {
        PunctReads(source, index, unit, tokens);
        tokens := tokens + [Token(Punct, [unit])];
        index := index + 1;
      } else {
        LexFails(source, index, tokens);
        return Err(UnexpectedCharacter);
      }
    }
    LexEnds(source, tokens);
    return Ok(tokens);
  }

  // The steps of Lex, one lemma a branch.

  lemma LexBlank(s: Text, i: nat, tokens: seq<Token>)
    requires i < |s| && (IsSpace(s[i]) || s[i] == U(','))
    ensures Lex(s, i, tokens) == Lex(s, i + 1, tokens)
  {
  }

  lemma LexComment(s: Text, i: nat, tokens: seq<Token>)
    requires i < |s| && s[i] == U('#')
    ensures Lex(s, i, tokens) == Lex(s, Span(s, i + 1, InComment), tokens)
  {
  }

  lemma LexName(s: Text, i: nat, end: nat, tokens: seq<Token>)
    requires i < |s| && NameStart(s[i]) && end == Span(s, i + 1, NameContinue)
    ensures Lex(s, i, tokens) == Lex(s, end, tokens + [Token(Name, s[i..end])])
  {
  }

  lemma LexQuotedOrFail(s: Text, i: nat, tokens: seq<Token>)
    requires i < |s| && s[i] == U('"')
    ensures var r := LexString(s, i + 1, []);
      && (r.Ok? ==> Lex(s, i, tokens) == Lex(s, r.value.1, tokens + [Token(String, r.value.0)]))
      && (r.Err? ==> Lex(s, i, tokens) == Err(r.error))
  {
  }

  lemma LexNumberOrFail(s: Text, i: nat, end: nat, tokens: seq<Token>)
    requires i < |s| && (s[i] == U('-') || IsDigit(s[i])) && end == Span(s, i + 1, NumberPart)
    ensures IsNumber(s[i..end]) ==> Lex(s, i, tokens) == Lex(s, end, tokens + [Token(Number, s[i..end])])
    ensures !IsNumber(s[i..end]) ==> Lex(s, i, tokens) == Err(InvalidNumber)
  {
  }

  lemma PunctReads(s: Text, i: nat, c: CodeUnit, tokens: seq<Token>)
    requires IsPunct(c) && i < |s| && s[i] == c
    ensures Lex(s, i, tokens) == Lex(s, i + 1, tokens + [Token(Punct, [c])])
  {
  }

  lemma LexFails(s: Text, i: nat, tokens: seq<Token>)
    requires i < |s| && !IsSpace(s[i]) && s[i] != U(',') && s[i] != U('#') && !NameStart(s[i]) && s[i] != U('"')
    requires s[i] != U('-') && !IsDigit(s[i]) && !IsPunct(s[i])
    ensures Lex(s, i, tokens) == Err(UnexpectedCharacter)
  {
  }

  lemma LexEnds(s: Text, tokens: seq<Token>)
    ensures Lex(s, |s|, tokens) == Ok(tokens)
  {
  }

  // ------------------------------------------------------------- spelling

  /** A token the tokenizer can produce. */
  predicate TokenOk(t: Token) {
    match t.kind
    case Name => IsName(t.value)
    case String => true
    case Number => IsNumber(t.value)
    case Punct => |t.value| == 1 && IsPunct(t.value[0])
  }

  predicate TokensOk(ts: seq<Token>) { forall k :: 0 <= k < |ts| ==> TokenOk(ts[k]) }

  function Escaped(c: CodeUnit): Text {
    if c == U('"') || c == U('\\') then [U('\\'), c]
    else if c == 10 then [U('\\'), U('n')]
    else if c == 13 then [U('\\'), U('r')]
    else if c == 9 then [U('\\'), U('t')]
    else if c == 8 then [U('\\'), U('b')]
    else if c == 12 then [U('\\'), U('f')]
    else if c < 0x20 || 0xD800 <= c < 0xE000 then [U('\\'), U('u')] + HexPadded(c, 4)
    else [c]
  }

  function EscapedText(t: Text): Text {
    if |t| == 0 then [] else Escaped(t[0]) + EscapedText(t[1..])
  }

  function Spelling(t: Token): Text {
    if t.kind == String then [U('"')] + EscapedText(t.value) + [U('"')] else t.value
  }

  /** What may stand between two tokens. */
  datatype Gap = Blank(c: CodeUnit) | Comment(body: Text)

  predicate GapOk(g: Gap) {
    match g
    case Blank(c) => IsSpace(c) || c == U(',')
    case Comment(body) => forall k :: 0 <= k < |body| ==> InComment(body[k])
  }

  predicate GapsOk(gs: seq<Gap>) { forall k :: 0 <= k < |gs| ==> GapOk(gs[k]) }

  function GapText(g: Gap): Text {
    match g
    case Blank(c) => [c]
    case Comment(body) => [U('#')] + body + [10]
  }

  function GapsText(gs: seq<Gap>): Text {
    if |gs| == 0 then [] else GapText(gs[0]) + GapsText(gs[1..])
  }

  /**
   * A layout: what stands before the first token, what follows each token,
   * which may be nothing, and a comment that the text ends in.
   */
  datatype Layout = Layout(lead: seq<Gap>, gaps: seq<seq<Gap>>, tail: Option<Text>)

  predicate Shaped(ts: seq<Token>, gaps: seq<seq<Gap>>) {
    |gaps| == |ts| && forall k :: 0 <= k < |gaps| ==> GapsOk(gaps[k])
  }

  /** A scan that has read t goes on over c. */
  predicate Continues(t: Token, c: CodeUnit) {
    match t.kind
    case Name => NameContinue(c)
    case Number => NumberPart(c)
    case _ => false
  }

  /** a and b may be written without anything between them. */
  predicate MayTouch(a: Token, b: Token) { |Spelling(b)| > 0 ==> !Continues(a, Spelling(b)[0]) }

  /** Tokens stand next to each other only where the first cannot run on into the second. */
  predicate Separated(ts: seq<Token>, gaps: seq<seq<Gap>>)
    requires |gaps| == |ts|
  {
    forall k :: 0 <= k && k + 1 < |ts| ==> |gaps[k]| > 0 || MayTouch(ts[k], ts[k + 1])
  }

  predicate TailOk(tail: Option<Text>) {
    tail.Some? ==> forall k :: 0 <= k < |tail.value| ==> InComment(tail.value[k])
  }

  /** The layouts of ts. */
  predicate LayoutShaped(ts: seq<Token>, layout: Layout) {
    GapsOk(layout.lead) && Shaped(ts, layout.gaps) && TailOk(layout.tail)
  }

  /** The layouts that keep the tokens of ts apart. */
  predicate LayoutOk(ts: seq<Token>, layout: Layout) {
    LayoutShaped(ts, layout) && Separated(ts, layout.gaps)
  }

  function RenderTokens(ts: seq<Token>, gaps: seq<seq<Gap>>): Text
    requires |gaps| == |ts|
  {
    if |ts| == 0 then [] else Spelling(ts[0]) + (GapsText(gaps[0]) + RenderTokens(ts[1..], gaps[1..]))
  }

  function TailText(tail: Option<Text>): Text {
    if tail.Some? then [U('#')] + tail.value else []
  }

  function Render(ts: seq<Token>, layout: Layout): Text
    requires |layout.gaps| == |ts|
  {
    GapsText(layout.lead) + (RenderTokens(ts, layout.gaps) + TailText(layout.tail))
  }

  lemma EscapedUnitReads(s: Text, i: nat, c: CodeUnit, value: Text)
    requires OnAt(s, i, Escaped(c))
    ensures LexString(s, i, value) == LexString(s, i + |Escaped(c)|, value + [c])
  {
    var e := Escaped(c);
    assert s[i] == e[0];
    if |e| == 2 { assert s[i + 1] == e[1]; }
    if |e| == 6 {
      var h := HexPadded(c, 4);
      assert s[i + 1] == e[1];
      forall k | 0 <= k < 4 ensures s[i + 2..i + 6][k] == h[k] { assert s[i + 2 + k] == e[2 + k]; }
      assert HexAt(s, i + 2) == h;
      assert Pow16(4) == 0x1_0000;
      HexPaddedRoundTrip(c, 4);
    }
  }

  lemma EscapedUnfolds(t: Text)
    ensures |t| == 0 ==> EscapedText(t) == []
    ensures |t| > 0 ==> EscapedText(t) == Escaped(t[0]) + EscapedText(t[1..])
  {
  }

  lemma StandsAt(s: Text, i: nat, c: CodeUnit)
    requires OnAt(s, i, [c])
    ensures i < |s| && s[i] == c
  {
  }

  lemma EscapedSplit(s: Text, i: nat, t: Text)
    requires OnAt(s, i, EscapedText(t) + [U('"')])
    ensures |t| == 0 ==> i < |s| && s[i] == U('"') && |EscapedText(t)| == 0
    ensures |t| > 0 ==>
      && OnAt(s, i, Escaped(t[0])) && OnAt(s, i + |Escaped(t[0])|, EscapedText(t[1..]) + [U('"')])
      && |EscapedText(t)| == |Escaped(t[0])| + |EscapedText(t[1..])|
  {
    hide *;
    EscapedUnfolds(t);
    if |t| > 0 {
      AppendAssoc(Escaped(t[0]), EscapedText(t[1..]), [U('"')]);
      OnAtSplit(s, i, Escaped(t[0]), EscapedText(t[1..]) + [U('"')]);
    } else {
      assert [] + [U('"')] == [U('"')];
      StandsAt(s, i, U('"'));
    }
  }

  lemma QuoteCloses(s: Text, i: nat, value: Text)
    requires i < |s| && s[i] == U('"')
    ensures LexString(s, i, value) == Ok((value, i + 1))
  {
  }

  lemma {:induction false} EscapedTextReads(s: Text, i: nat, t: Text, value: Text)
    requires OnAt(s, i, EscapedText(t) + [U('"')])
    ensures i <= |s| && LexString(s, i, value) == Ok((value + t, i + |EscapedText(t)| + 1))
    decreases |t|
  {
    hide *;
    EscapedSplit(s, i, t);
    if |t| == 0 {
      QuoteCloses(s, i, value);
      assert value + t == value;
    } else {
      EscapedTextReads(s, i + |Escaped(t[0])|, t[1..], value + [t[0]]);
      EscapedUnitReads(s, i, t[0], value);
      assert value + [t[0]] + t[1..] == value + t;
    }
  }

  /** What stands at end cannot continue t. */
  predicate Ends(s: Text, end: nat, t: Token) { end < |s| ==> !Continues(t, s[end]) }

  lemma NameReads(s: Text, i: nat, name: Text, tokens: seq<Token>)
    requires IsName(name) && OnAt(s, i, name) && Ends(s, i + |name|, Token(Name, name))
    ensures Lex(s, i, tokens) == Lex(s, i + |name|, tokens + [Token(Name, name)])
  {
    var end := i + |name|;
    assert s[i] == name[0];
    forall k | i + 1 <= k < end ensures NameContinue(s[k]) { assert s[k] == name[k - i]; }
    SpanIs(s, i + 1, end, NameContinue);
    assert s[i..end] == name;
    hide *;
    LexName(s, i, end, tokens);
  }

  lemma NumberReads(s: Text, i: nat, number: Text, tokens: seq<Token>)
    requires IsNumber(number) && OnAt(s, i, number) && Ends(s, i + |number|, Token(Number, number))
    ensures Lex(s, i, tokens) == Lex(s, i + |number|, tokens + [Token(Number, number)])
  {
    var end := i + |number|;
    NumberParts(number);
    assert s[i] == number[0];
    forall k | i + 1 <= k < end ensures NumberPart(s[k]) { assert s[k] == number[k - i]; }
    SpanIs(s, i + 1, end, NumberPart);
    assert s[i..end] == number;
    hide *;
    LexNumberOrFail(s, i, end, tokens);
  }

  lemma StringReads(s: Text, i: nat, value: Text, tokens: seq<Token>)
    requires OnAt(s, i, [U('"')] + EscapedText(value) + [U('"')])
    ensures Lex(s, i, tokens) == Lex(s, i + |EscapedText(value)| + 2, tokens + [Token(String, value)])
  {
    hide *;
    AppendAssoc([U('"')], EscapedText(value), [U('"')]);
    OnAtSplit(s, i, [U('"')], EscapedText(value) + [U('"')]);
    StandsAt(s, i, U('"'));
    EscapedTextReads(s, i + 1, value, []);
    assert [] + value == value;
    LexQuotedOrFail(s, i, tokens);
  }

  /** One token, followed by something that cannot continue it, is read back as itself. */
  lemma TokenReads(s: Text, i: nat, t: Token, tokens: seq<Token>)
    requires TokenOk(t) && OnAt(s, i, Spelling(t)) && Ends(s, i + |Spelling(t)|, t)
    ensures Lex(s, i, tokens) == Lex(s, i + |Spelling(t)|, tokens + [t])
  {
    hide Lex;
    match t.kind
    case Name => NameReads(s, i, t.value, tokens);
    case Number => NumberReads(s, i, t.value, tokens);
    case Punct =>
      assert t.value == [t.value[0]] && s[i] == t.value[0];
      PunctReads(s, i, t.value[0], tokens);
    case String => StringReads(s, i, t.value, tokens);
  }

  lemma GapReads(s: Text, i: nat, g: Gap, tokens: seq<Token>)
    requires GapOk(g) && OnAt(s, i, GapText(g))
    ensures Lex(s, i, tokens) == Lex(s, i + |GapText(g)|, tokens)
  {
    var text := GapText(g);
    if g.Comment? {
      var stop := i + |text| - 1;
      SpanIs(s, i + 1, stop, InComment);
      assert s[stop] == 10 && IsSpace(s[stop]);
    }
  }

  lemma GapsSplit(s: Text, i: nat, gs: seq<Gap>)
    requires GapsOk(gs) && OnAt(s, i, GapsText(gs))
    ensures |gs| == 0 ==> |GapsText(gs)| == 0
    ensures |gs| > 0 ==>
      && GapOk(gs[0]) && GapsOk(gs[1..])
      && OnAt(s, i, GapText(gs[0])) && OnAt(s, i + |GapText(gs[0])|, GapsText(gs[1..]))
      && |GapsText(gs)| == |GapText(gs[0])| + |GapsText(gs[1..])|
  {
    if |gs| > 0 { OnAtSplit(s, i, GapText(gs[0]), GapsText(gs[1..])); }
  }

  lemma {:induction false} GapsRead(s: Text, i: nat, gs: seq<Gap>, tokens: seq<Token>)
    requires GapsOk(gs) && OnAt(s, i, GapsText(gs))
    ensures Lex(s, i, tokens) == Lex(s, i + |GapsText(gs)|, tokens)
    decreases |gs|
  {
    hide *;
    GapsSplit(s, i, gs);
    if |gs| > 0 {
      GapReads(s, i, gs[0], tokens);
      GapsRead(s, i + |GapText(gs[0])|, gs[1..], tokens);
    }
  }

  lemma GapEnds(s: Text, i: nat, gs: seq<Gap>, t: Token)
    requires |gs| > 0 && GapsOk(gs) && OnAt(s, i, GapsText(gs))
    ensures Ends(s, i, t)
  {
    hide Continues;
    assert GapOk(gs[0]);
    assert GapsText(gs)[0] == GapText(gs[0])[0];
    assert s[i] == GapsText(gs)[0];
    GapContinuesNothing(t, s[i]);
  }

  lemma GapContinuesNothing(t: Token, c: CodeUnit)
    requires IsSpace(c) || c == U(',') || c == U('#')
    ensures !Continues(t, c)
  {
  }

  lemma RenderUnfolds(ts: seq<Token>, gaps: seq<seq<Gap>>)
    requires |ts| > 0 && TokensOk(ts) && Shaped(ts, gaps)
    ensures TokenOk(ts[0]) && TokensOk(ts[1..]) && Shaped(ts[1..], gaps[1..])
    ensures |gaps| == |ts| && |gaps[1..]| == |ts[1..]| && GapsOk(gaps[0])
    ensures RenderTokens(ts, gaps) == Spelling(ts[0]) + (GapsText(gaps[0]) + RenderTokens(ts[1..], gaps[1..]))
    ensures gaps[0] == [] ==> GapsText(gaps[0]) == []
  {
  }

  /** Whether the first token is kept apart from the second. */
  predicate FirstApart(ts: seq<Token>, gaps: seq<seq<Gap>>)
    requires |gaps| == |ts| > 0
  {
    |ts| > 1 ==> |gaps[0]| > 0 || MayTouch(ts[0], ts[1])
  }

  lemma SeparatedUnfolds(ts: seq<Token>, gaps: seq<seq<Gap>>)
    requires |gaps| == |ts| > 0
    ensures Separated(ts, gaps) <==> FirstApart(ts, gaps) && Separated(ts[1..], gaps[1..])
  {
    if FirstApart(ts, gaps) && Separated(ts[1..], gaps[1..]) {
      forall k | 0 <= k && k + 1 < |ts| ensures |gaps[k]| > 0 || MayTouch(ts[k], ts[k + 1]) {
        if k > 0 { assert ts[k] == ts[1..][k - 1] && ts[k + 1] == ts[1..][k] && gaps[k] == gaps[1..][k - 1]; }
      }
    }
    if Separated(ts, gaps) {
      forall k | 0 <= k && k + 1 < |ts[1..]| ensures |gaps[1..][k]| > 0 || MayTouch(ts[1..][k], ts[1..][k + 1]) {
        assert ts[1..][k] == ts[k + 1] && ts[1..][k + 1] == ts[k + 1 + 1] && gaps[1..][k] == gaps[k + 1];
      }
    }
  }

  lemma RenderSplit(s: Text, i: nat, ts: seq<Token>, gaps: seq<seq<Gap>>)
    requires |ts| > 0 && TokensOk(ts) && Shaped(ts, gaps) && |gaps| == |ts| && OnAt(s, i, RenderTokens(ts, gaps))
    ensures var end := i + |Spelling(ts[0])|;
      var next := end + |GapsText(gaps[0])|;
      && TokenOk(ts[0]) && TokensOk(ts[1..]) && Shaped(ts[1..], gaps[1..]) && GapsOk(gaps[0])
      && OnAt(s, i, Spelling(ts[0])) && OnAt(s, end, GapsText(gaps[0]))
      && OnAt(s, next, RenderTokens(ts[1..], gaps[1..]))
      && i + |RenderTokens(ts, gaps)| == next + |RenderTokens(ts[1..], gaps[1..])|
      && (gaps[0] == [] ==> next == end)
  {
    hide *;
    RenderUnfolds(ts, gaps);
    var rest := RenderTokens(ts[1..], gaps[1..]);
    OnAtSplit(s, i, Spelling(ts[0]), GapsText(gaps[0]) + rest);
    OnAtSplit(s, i + |Spelling(ts[0])|, GapsText(gaps[0]), rest);
  }

  /** The text of one token or more starts with the first unit of the first. */
  lemma RenderStarts(s: Text, i: nat, ts: seq<Token>, gaps: seq<seq<Gap>>)
    requires |ts| > 0 && TokensOk(ts) && Shaped(ts, gaps) && |gaps| == |ts| && OnAt(s, i, RenderTokens(ts, gaps))
    ensures |Spelling(ts[0])| > 0 && i < |s| && s[i] == Spelling(ts[0])[0]
  {
    assert TokenOk(ts[0]);
    if ts[0].kind == Number { NumberParts(ts[0].value); }
    assert s[i] == RenderTokens(ts, gaps)[0];
  }

  /** The end of the tokens: the text is over, or a comment follows. */
  predicate Over(s: Text, end: nat) { end < |s| ==> s[end] == U('#') }

  /** A first token that is kept apart from what follows ends where its spelling does. */
  lemma FirstEnds(s: Text, i: nat, ts: seq<Token>, gaps: seq<seq<Gap>>)
    requires |ts| > 0 && TokensOk(ts) && Shaped(ts, gaps) && |gaps| == |ts| && OnAt(s, i, RenderTokens(ts, gaps))
    requires Over(s, i + |RenderTokens(ts, gaps)|) && FirstApart(ts, gaps)
    ensures Ends(s, i + |Spelling(ts[0])|, ts[0])
  {
    hide OnAt, RenderTokens, GapsText, Spelling, TokensOk, Shaped, Continues, GapsOk;
    RenderSplit(s, i, ts, gaps);
    var end := i + |Spelling(ts[0])|;
    if |gaps[0]| > 0 {
      GapEnds(s, end, gaps[0], ts[0]);
    } else if |ts| > 1 {
      RenderStarts(s, end, ts[1..], gaps[1..]);
    } else {
      NothingRendered(ts[1..], gaps[1..]);
      GapContinuesNothing(ts[0], U('#'));
    }
  }

  lemma NothingRendered(ts: seq<Token>, gaps: seq<seq<Gap>>)
    requires ts == [] && gaps == []
    ensures RenderTokens(ts, gaps) == []
  {
  }

  lemma {:induction false} RenderReads(s: Text, i: nat, ts: seq<Token>, gaps: seq<seq<Gap>>, tokens: seq<Token>)
    requires TokensOk(ts) && Shaped(ts, gaps) && |gaps| == |ts| && Separated(ts, gaps)
    requires OnAt(s, i, RenderTokens(ts, gaps)) && Over(s, i + |RenderTokens(ts, gaps)|)
    ensures i + |RenderTokens(ts, gaps)| <= |s| && Lex(s, i, tokens) == Lex(s, i + |RenderTokens(ts, gaps)|, tokens + ts)
    decreases |ts|
  {
    hide *;
    if |ts| == 0 {
      NothingRendered(ts, gaps);
      OnAtFits(s, i, RenderTokens(ts, gaps));
      assert tokens + ts == tokens;
    } else {
      RenderSplit(s, i, ts, gaps);
      SeparatedUnfolds(ts, gaps);
      FirstEnds(s, i, ts, gaps);
      var end := i + |Spelling(ts[0])|;
      RenderReads(s, end + |GapsText(gaps[0])|, ts[1..], gaps[1..], tokens + [ts[0]]);
      GapsRead(s, end, gaps[0], tokens + [ts[0]]);
      TokenReads(s, i, ts[0], tokens);
      assert tokens + [ts[0]] + ts[1..] == tokens + ts;
    }
  }

  lemma OnAtFits(s: Text, i: nat, t: Text)
    requires OnAt(s, i, t)
    ensures i + |t| <= |s|
  {
  }

  lemma TailReads(s: Text, i: nat, tail: Option<Text>, tokens: seq<Token>)
    requires TailOk(tail) && OnAt(s, i, TailText(tail)) && i + |TailText(tail)| == |s|
    ensures Over(s, i) && Lex(s, i, tokens) == Ok(tokens)
  {
    if tail.Some? {
      forall k | i + 1 <= k < |s| ensures InComment(s[k]) { assert s[k] == TailText(tail)[k - i]; }
      SpanIs(s, i + 1, |s|, InComment);
      assert s[i] == TailText(tail)[0];
    }
  }

  // Reading only ever adds tokens.
  lemma {:induction false} LexExtends(s: Text, i: nat, tokens: seq<Token>)
    requires i <= |s| && Lex(s, i, tokens).Ok?
    ensures tokens <= Lex(s, i, tokens).value
    decreases |s| - i
  {
    if i < |s| {
      var c := s[i];
      if IsSpace(c) || c == U(',') { LexExtends(s, i + 1, tokens); }
      else if c == U('#') { LexExtends(s, Span(s, i + 1, InComment), tokens); }
      else if NameStart(c) {
        var end := Span(s, i + 1, NameContinue);
        LexExtends(s, end, tokens + [Token(Name, s[i..end])]);
      } else if c == U('"') {
        var r := LexString(s, i + 1, []);
        LexExtends(s, r.value.1, tokens + [Token(String, r.value.0)]);
      } else if c == U('-') || IsDigit(c) {
        var end := Span(s, i + 1, NumberPart);
        LexExtends(s, end, tokens + [Token(Number, s[i..end])]);
      } else {
        LexExtends(s, i + 1, tokens + [Token(Punct, [c])]);
      }
    }
  }

  // A scan that starts with t and goes on over the unit after it reads more than t.
  lemma RunsOn(s: Text, i: nat, t: Token, tokens: seq<Token>)
    requires TokenOk(t) && OnAt(s, i, Spelling(t)) && !Ends(s, i + |Spelling(t)|, t)
    ensures var end := Span(s, i + 1, if t.kind == Name then NameContinue else NumberPart);
      && i + |t.value| < end
      && (Lex(s, i, tokens).Ok? ==> Lex(s, i, tokens) == Lex(s, end, tokens + [Token(t.kind, s[i..end])]))
  {
    hide Lex, IsNumber;
    var p := if t.kind == Name then NameContinue else NumberPart;
    if t.kind == Number { NumberParts(t.value); }
    assert s[i] == t.value[0];
    forall k | i + 1 <= k < i + |t.value| ensures p(s[k]) { assert s[k] == t.value[k - i]; }
    SpanReaches(s, i + 1, i + |t.value| + 1, p);
    if t.kind == Name {
      LexName(s, i, Span(s, i + 1, p), tokens);
    } else {
      LexNumberOrFail(s, i, Span(s, i + 1, p), tokens);
    }
  }

  lemma {:induction false} SpanReaches(s: Text, i: nat, end: nat, p: CodeUnit -> bool)
    requires i <= end <= |s| && forall k :: i <= k < end ==> p(s[k])
    ensures end <= Span(s, i, p)
    decreases end - i
  {
    if i < end { SpanReaches(s, i + 1, end, p); }
  }

  lemma RunningOnMisreads(s: Text, i: nat, ts: seq<Token>, tokens: seq<Token>)
    requires |ts| > 0 && TokenOk(ts[0]) && OnAt(s, i, Spelling(ts[0])) && !Ends(s, i + |Spelling(ts[0])|, ts[0])
    requires i <= |s|
    ensures Lex(s, i, tokens) != Ok(tokens + ts)
  {
    hide *;
    var t := ts[0];
    RunsOn(s, i, t, tokens);
    if Lex(s, i, tokens).Ok? {
      var end := Span(s, i + 1, if t.kind == Name then NameContinue else NumberPart);
      LexExtends(s, end, tokens + [Token(t.kind, s[i..end])]);
      FirstAfter(tokens, Token(t.kind, s[i..end]), ts, Lex(s, i, tokens).value);
    }
  }

  lemma FirstAfter(tokens: seq<Token>, t: Token, ts: seq<Token>, all: seq<Token>)
    requires tokens + [t] <= all && |ts| > 0 && t != ts[0]
    ensures all != tokens + ts
  {
    assert (tokens + [t])[|tokens|] == t && (tokens + ts)[|tokens|] == ts[0];
  }

  lemma {:induction false} UnseparatedMisreads(s: Text, i: nat, ts: seq<Token>, gaps: seq<seq<Gap>>, tokens: seq<Token>)
    requires TokensOk(ts) && Shaped(ts, gaps) && |gaps| == |ts| && !Separated(ts, gaps)
    requires OnAt(s, i, RenderTokens(ts, gaps)) && Over(s, i + |RenderTokens(ts, gaps)|)
    ensures i <= |s| && Lex(s, i, tokens) != Ok(tokens + ts)
    decreases |ts|
  {
    hide *;
    assert i <= |s| by { OnAtFits(s, i, RenderTokens(ts, gaps)); }
    if |ts| == 0 {
      NothingSeparated(ts, gaps);
    } else {
      RenderSplit(s, i, ts, gaps);
      SeparatedUnfolds(ts, gaps);
      var end := i + |Spelling(ts[0])|;
      if FirstApart(ts, gaps) {
        FirstEnds(s, i, ts, gaps);
        UnseparatedMisreads(s, end + |GapsText(gaps[0])|, ts[1..], gaps[1..], tokens + [ts[0]]);
        GapsRead(s, end, gaps[0], tokens + [ts[0]]);
        TokenReads(s, i, ts[0], tokens);
        assert tokens + [ts[0]] + ts[1..] == tokens + ts;
      } else {
        FirstRunsOn(s, i, ts, gaps);
        RunningOnMisreads(s, i, ts, tokens);
      }
    }
  }

  lemma NothingSeparated(ts: seq<Token>, gaps: seq<seq<Gap>>)
    requires ts == [] && gaps == []
    ensures Separated(ts, gaps)
  {
  }

  lemma FirstRunsOn(s: Text, i: nat, ts: seq<Token>, gaps: seq<seq<Gap>>)
    requires |ts| > 0 && TokensOk(ts) && Shaped(ts, gaps) && |gaps| == |ts| && OnAt(s, i, RenderTokens(ts, gaps))
    requires !FirstApart(ts, gaps)
    ensures !Ends(s, i + |Spelling(ts[0])|, ts[0])
  {
    hide OnAt, RenderTokens, GapsText, Spelling, TokensOk, Shaped, Continues, GapsOk;
    RenderSplit(s, i, ts, gaps);
    RenderStarts(s, i + |Spelling(ts[0])|, ts[1..], gaps[1..]);
  }

  lemma LayoutParts(ts: seq<Token>, layout: Layout)
    requires LayoutShaped(ts, layout)
    ensures GapsOk(layout.lead) && Shaped(ts, layout.gaps) && |layout.gaps| == |ts| && TailOk(layout.tail)
  {
  }

  lemma OnItself(s: Text)
    ensures OnAt(s, 0, s)
  {
  }

  /**
   * Tokens in any layout of white space, commas and comments are read back if
   * and only if no two stand next to each other of which the first runs on into
   * the second: a name before a name or a digit, a number before a unit that
   * numbers may contain.
   */
  lemma TokenizeUndoesRenderExactlyWhen(ts: seq<Token>, layout: Layout)
    requires TokensOk(ts) && LayoutShaped(ts, layout) && Utf8Length(Render(ts, layout)) <= MAX_BYTES
    ensures Tokenize(Render(ts, layout)) == Ok(ts) <==> Separated(ts, layout.gaps)
  {
    hide *;
    LayoutParts(ts, layout);
    var s := Render(ts, layout);
    var body, tail := RenderTokens(ts, layout.gaps), TailText(layout.tail);
    RenderParts(ts, layout);
    OnItself(s);
    OnAtSplit(s, 0, GapsText(layout.lead), body + tail);
    var i := |GapsText(layout.lead)|;
    OnAtSplit(s, i, body, tail);
    GapsRead(s, 0, layout.lead, []);
    TailReads(s, i + |body|, layout.tail, [] + ts);
    assert [] + ts == ts;
    TokenizeIs(s);
    if Separated(ts, layout.gaps) {
      RenderReads(s, i, ts, layout.gaps, []);
    } else {
      UnseparatedMisreads(s, i, ts, layout.gaps, []);
    }
  }

  lemma RenderParts(ts: seq<Token>, layout: Layout)
    requires |layout.gaps| == |ts|
    ensures Render(ts, layout) == GapsText(layout.lead) + (RenderTokens(ts, layout.gaps) + TailText(layout.tail))
  {
  }

  lemma TokenizeIs(s: Text)
    requires Utf8Length(s) <= MAX_BYTES
    ensures Tokenize(s) == Lex(s, 0, [])
  {
  }

  lemma {:induction false} LexYieldsTokens(s: Text, i: nat, tokens: seq<Token>)
    requires i <= |s| && TokensOk(tokens) && Lex(s, i, tokens).Ok?
    ensures TokensOk(Lex(s, i, tokens).value)
    decreases |s| - i
  {
    if i < |s| {
      var c := s[i];
      if IsSpace(c) || c == U(',') { LexYieldsTokens(s, i + 1, tokens); }
      else if c == U('#') { LexYieldsTokens(s, Span(s, i + 1, InComment), tokens); }
      else if NameStart(c) {
        var end := Span(s, i + 1, NameContinue);
        assert forall k :: i <= k < end ==> s[i..end][k - i] == s[k];
        LexYieldsTokens(s, end, tokens + [Token(Name, s[i..end])]);
      } else if c == U('"') {
        var r := LexString(s, i + 1, []);
        LexYieldsTokens(s, r.value.1, tokens + [Token(String, r.value.0)]);
      } else if c == U('-') || IsDigit(c) {
        var end := Span(s, i + 1, NumberPart);
        LexYieldsTokens(s, end, tokens + [Token(Number, s[i..end])]);
      } else {
        LexYieldsTokens(s, i + 1, tokens + [Token(Punct, [c])]);
      }
    }
  }
}
