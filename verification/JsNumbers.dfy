/**
 * Numbers and their texts in JavaScript: the decimal literals, what parseFloat
 * and Number make of a text, and the text String gives a number.  Numbers are
 * exact here; rounding to a double is the same for both readers.
 */
module JsNumbers {
  import opened Outcome
  import opened JsText

  datatype Num = NaN | Finite(x: real) | PlusInfinity | MinusInfinity

  /** A comparison with NaN is false. */
  predicate NumLess(a: Num, b: Num) {
    && a != NaN && b != NaN
    && match a
       case Finite(x) => b.PlusInfinity? || (b.Finite? && x < b.x)
       case MinusInfinity => !b.MinusInfinity?
       case _ => false
  }

  predicate NumAtMost(a: Num, b: Num) { a != NaN && b != NaN && !NumLess(b, a) }

  // ------------------------------------------------------------- literals

  datatype Sign = Bare | Plus | Minus

  datatype Exponent = NoExponent | Power(letter: CodeUnit, sign: Sign, digits: Text)

  datatype Magnitude = Digits(whole: Text, point: bool, fraction: Text, exponent: Exponent) | Infinite

  /** A decimal literal with its spelling: 5, -5., .5E+3, Infinity. */
  datatype Literal = Literal(sign: Sign, magnitude: Magnitude)

  const POINT: CodeUnit := U('.')
  const INFINITY: Text := T("Infinity")

  predicate AllDigits(t: Text) { forall i :: 0 <= i < |t| ==> IsDigit(t[i]) }

  predicate AllZeros(t: Text) { forall i :: 0 <= i < |t| ==> t[i] == U('0') }

  predicate ValidExponent(e: Exponent) {
    e.Power? ==> (e.letter == U('e') || e.letter == U('E')) && |e.digits| > 0 && AllDigits(e.digits)
  }

  predicate ValidMagnitude(m: Magnitude) {
    m.Digits? ==>
      && AllDigits(m.whole) && AllDigits(m.fraction) && |m.whole| + |m.fraction| > 0
      && (!m.point ==> m.fraction == []) && ValidExponent(m.exponent)
  }

  predicate ValidLiteral(l: Literal) { ValidMagnitude(l.magnitude) }

  function SignText(s: Sign): Text { if s.Plus? then [U('+')] else if s.Minus? then [U('-')] else [] }

  function ExponentText(e: Exponent): Text { if e.NoExponent? then [] else [e.letter] + SignText(e.sign) + e.digits }

  function FractionText(point: bool, fraction: Text): Text { if point then [POINT] + fraction else [] }

  function MagnitudeText(m: Magnitude): Text {
    if m.Infinite? then INFINITY else m.whole + FractionText(m.point, m.fraction) + ExponentText(m.exponent)
  }

  function Written(l: Literal): Text { SignText(l.sign) + MagnitudeText(l.magnitude) }

  ghost predicate IsNumeral(t: Text) { exists l :: ValidLiteral(l) && Written(l) == t }

  function Pow10(e: int): (p: real)
    ensures p > 0.0
    decreases if e < 0 then -e else e
  {
    if e == 0 then 1.0 else if e > 0 then 10.0 * Pow10(e - 1) else Pow10(e + 1) / 10.0
  }

  function Signed(s: Sign, x: real): real { if s.Minus? then -x else x }

  function ExponentValue(e: Exponent): int {
    if e.NoExponent? then 0 else if e.sign.Minus? then -DecimalValue(e.digits) else DecimalValue(e.digits)
  }

  function MagnitudeValue(m: Magnitude): real
    requires m.Digits?
  {
    DecimalValue(m.whole + m.fraction) as real * Pow10(ExponentValue(m.exponent) - |m.fraction|)
  }

  function LiteralValue(l: Literal): Num {
    if l.magnitude.Infinite? then (if l.sign.Minus? then MinusInfinity else PlusInfinity)
    else Finite(Signed(l.sign, MagnitudeValue(l.magnitude)))
  }

  // ------------------------------------------------------------- scanning

  function SignAt(t: Text): Sign {
    if |t| == 0 then Bare else if t[0] == U('+') then Plus else if t[0] == U('-') then Minus else Bare
  }

  function DigitsEnd(t: Text): (n: nat)
    ensures n <= |t| && AllDigits(t[..n]) && (n < |t| ==> !IsDigit(t[n]))
  {
    Span(t, 0, (c: CodeUnit) => IsDigit(c))
  }

  function ScanExponent(t: Text): Exponent {
    if |t| == 0 || (t[0] != U('e') && t[0] != U('E')) then NoExponent
    else
      var sign := SignAt(t[1..]);
      var rest := t[1 + |SignText(sign)|..];
      if DigitsEnd(rest) == 0 then NoExponent else Power(t[0], sign, rest[..DigitsEnd(rest)])
  }

  /** What follows the digits before the point. */
  function ScanTail(whole: Text, tail: Text): Option<Magnitude> {
    var point := |tail| > 0 && tail[0] == POINT;
    var rest := if point then tail[1..] else tail;
    var b := if point then DigitsEnd(rest) else 0;
    if |whole| + b == 0 then None else Some(Digits(whole, point, rest[..b], ScanExponent(rest[b..])))
  }

  function ScanMagnitude(t: Text): Option<Magnitude> {
    if INFINITY <= t then Some(Infinite) else ScanTail(t[..DigitsEnd(t)], t[DigitsEnd(t)..])
  }

  /** The longest decimal literal a text begins with. */
  function Scan(t: Text): Option<Literal> {
    var sign := SignAt(t);
    var m := ScanMagnitude(t[|SignText(sign)|..]);
    if m.None? then None else Some(Literal(sign, m.value))
  }

  /** parseFloat: leading blanks, then the longest literal; what follows does not matter. */
  function ParseFloat(t: Text): Num {
    var l := Scan(TrimStart(t));
    if l.None? then NaN else LiteralValue(l.value)
  }

  function HexOrZero(c: CodeUnit): nat { if IsHex(c) then HexDigitValue(c) else 0 }

  predicate RadixDigits(t: Text, radix: nat) { forall i :: 0 <= i < |t| ==> IsHex(t[i]) && HexDigitValue(t[i]) < radix }

  function RadixValue(t: Text, radix: nat): nat {
    if |t| == 0 then 0 else RadixValue(t[..|t| - 1], radix) * radix + HexOrZero(t[|t| - 1])
  }

  /** 0x, 0o and 0b, in either case of the letter. */
  function RadixOf(t: Text): Option<nat> {
    if |t| < 3 || t[0] != U('0') then None
    else if t[1] == U('x') || t[1] == U('X') then Some(16)
    else if t[1] == U('o') || t[1] == U('O') then Some(8)
    else if t[1] == U('b') || t[1] == U('B') then Some(2)
    else None
  }

  /** Number: the whole text between its blanks is one literal, or nothing, or an integer in another radix. */
  function Number(t: Text): Num {
    var s := Trim(t);
    var l := Scan(s);
    if |s| == 0 then Finite(0.0)
    else if l.Some? && Written(l.value) == s then LiteralValue(l.value)
    else
      var radix := RadixOf(s);
      if radix.Some? && RadixDigits(s[2..], radix.value) then Finite(RadixValue(s[2..], radix.value) as real)
      else NaN
  }

  // --------------------------------------------- the scan finds the longest

  lemma ExponentFound(t: Text)
    ensures ValidExponent(ScanExponent(t)) && ExponentText(ScanExponent(t)) <= t
  {
  }

  /** No exponent that the text begins with is longer than the one found. */
  lemma ExponentLongest(t: Text, e: Exponent)
    requires ValidExponent(e) && ExponentText(e) <= t
    ensures ScanExponent(t) == e || |ExponentText(e)| < |ExponentText(ScanExponent(t))|
  {
    if e.Power? {
      var s := SignText(e.sign);
      assert forall i :: 0 <= i < |ExponentText(e)| ==> t[i] == ExponentText(e)[i];
      assert t[0] == e.letter;
      assert t[1] == (s + e.digits)[0];
      assert SignAt(t[1..]) == e.sign;
      var rest := t[1 + |s|..];
      assert forall i :: 0 <= i < |e.digits| ==> rest[i] == e.digits[i] by {
        forall i | 0 <= i < |e.digits| ensures rest[i] == e.digits[i] { assert t[1 + |s| + i] == ExponentText(e)[1 + |s| + i]; }
      }
      assert DigitsEnd(rest) >= |e.digits|;
      if DigitsEnd(rest) == |e.digits| { assert rest[..DigitsEnd(rest)] == e.digits; }
    }
  }

  lemma PrefixUnder<A>(a: seq<A>, x: seq<A>, rest: seq<A>)
    requires x <= rest
    ensures a + x <= a + rest
  {
    assert rest == x + rest[|x|..];
    assert a + rest == (a + x) + rest[|x|..];
  }

  lemma FractionThen(point: bool, fraction: Text, tail: Text, rest: Text)
    requires tail == (if point then [POINT] else []) + rest && fraction <= rest && (!point ==> fraction == [])
    ensures tail == FractionText(point, fraction) + rest[|fraction|..]
  {
    assert rest == fraction + rest[|fraction|..];
  }

  lemma TailParts(whole: Text, tail: Text)
    requires ScanTail(whole, tail).Some?
    ensures var m := ScanTail(whole, tail).value;
      && m.Digits? && m.whole == whole && AllDigits(m.fraction) && |m.whole| + |m.fraction| > 0
      && (!m.point ==> m.fraction == [])
    ensures var m := ScanTail(whole, tail).value;
      exists rest: Text ::
        && tail == (if m.point then [POINT] else []) + rest && m.fraction <= rest
        && m.exponent == ScanExponent(rest[|m.fraction|..])
  {
    var point := |tail| > 0 && tail[0] == POINT;
    var rest := if point then tail[1..] else tail;
    hide ScanExponent, AllDigits;
    assert AllDigits([]) by { NoDigits(); }
    assert tail == (if point then [POINT] else []) + rest;
  }

  lemma NoDigits()
    ensures AllDigits([])
  {
  }

  lemma TailFound(whole: Text, tail: Text)
    requires AllDigits(whole) && ScanTail(whole, tail).Some?
    ensures var m := ScanTail(whole, tail).value;
      && m.Digits? && m.whole == whole && ValidMagnitude(m)
      && FractionText(m.point, m.fraction) + ExponentText(m.exponent) <= tail
  {
    TailParts(whole, tail);
    hide ScanTail, ScanExponent, ExponentText, FractionText, ValidExponent, AllDigits;
    var m := ScanTail(whole, tail).value;
    var rest: Text :| tail == (if m.point then [POINT] else []) + rest && m.fraction <= rest
      && m.exponent == ScanExponent(rest[|m.fraction|..]);
    ExponentFound(rest[|m.fraction|..]);
    FractionThen(m.point, m.fraction, tail, rest);
    PrefixUnder(FractionText(m.point, m.fraction), ExponentText(m.exponent), rest[|m.fraction|..]);
  }

  lemma DigitsWritten(m: Magnitude)
    requires m.Digits?
    ensures MagnitudeText(m) == m.whole + (FractionText(m.point, m.fraction) + ExponentText(m.exponent))
  {
    hide ExponentText, FractionText;
    AppendAssoc(m.whole, FractionText(m.point, m.fraction), ExponentText(m.exponent));
  }

  lemma DigitsUnder(m: Magnitude, tail: Text)
    requires m.Digits? && FractionText(m.point, m.fraction) + ExponentText(m.exponent) <= tail
    ensures MagnitudeText(m) <= m.whole + tail
  {
    hide *;
    DigitsWritten(m);
    PrefixUnder(m.whole, FractionText(m.point, m.fraction) + ExponentText(m.exponent), tail);
  }

  lemma DigitsFound(t: Text)
    requires !(INFINITY <= t) && ScanMagnitude(t).Some?
    ensures ValidMagnitude(ScanMagnitude(t).value) && MagnitudeText(ScanMagnitude(t).value) <= t
  {
    hide ScanTail, FractionText, ExponentText, MagnitudeText, ValidMagnitude, AllDigits;
    var whole, tail := t[..DigitsEnd(t)], t[DigitsEnd(t)..];
    TailFound(whole, tail);
    DigitsUnder(ScanTail(whole, tail).value, tail);
    assert t == whole + tail;
  }

  lemma MagnitudeFound(t: Text)
    requires ScanMagnitude(t).Some?
    ensures ValidMagnitude(ScanMagnitude(t).value) && MagnitudeText(ScanMagnitude(t).value) <= t
  {
    if !(INFINITY <= t) { DigitsFound(t); }
  }

  lemma PrefixAt(t: Text, a: Text, b: Text)
    requires a + b <= t
    ensures |a| <= |t| && t[..|a|] == a && b <= t[|a|..]
    ensures forall i :: 0 <= i < |a| ==> t[i] == a[i]
    ensures |b| > 0 ==> |a| < |t| && t[|a|] == b[0]
  {
    assert t[..|a| + |b|] == a + b;
    assert t[|a|..][..|b|] == b by { assert t[|a|..][..|b|] == t[..|a| + |b|][|a|..]; }
  }

  /** Digits at the head of a text are at most the digits found there, and all of them if none follows. */
  lemma DigitsAt(t: Text, d: Text, rest: Text)
    requires AllDigits(d) && d + rest <= t
    ensures |d| <= DigitsEnd(t) && (DigitsEnd(t) == |d| ==> t[..DigitsEnd(t)] == d)
    ensures |rest| > 0 && !IsDigit(rest[0]) ==> DigitsEnd(t) == |d|
  {
    PrefixAt(t, d, rest);
    assert DigitsEnd(t) >= |d|;
    if |rest| > 0 && DigitsEnd(t) > |d| { assert t[..DigitsEnd(t)][|d|] == rest[0]; }
  }

  /** The longest fraction and exponent. */
  lemma TailLongest(tail: Text, m: Magnitude)
    requires ValidMagnitude(m) && m.Digits? && FractionText(m.point, m.fraction) + ExponentText(m.exponent) <= tail
    ensures ScanTail(m.whole, tail).Some?
    ensures ScanTail(m.whole, tail).value == m || |MagnitudeText(m)| < |MagnitudeText(ScanTail(m.whole, tail).value)|
  {
    ExponentStarts(m.exponent);
    if m.point { FractionLongest(tail, m); } else { NoFractionLongest(tail, m); }
  }

  lemma NoFractionLongest(tail: Text, m: Magnitude)
    requires ValidMagnitude(m) && m.Digits? && !m.point && ExponentText(m.exponent) <= tail
    requires |ExponentText(m.exponent)| > 0 ==> ExponentText(m.exponent)[0] != POINT
    ensures ScanTail(m.whole, tail).Some?
    ensures ScanTail(m.whole, tail).value == m || |MagnitudeText(m)| < |MagnitudeText(ScanTail(m.whole, tail).value)|
  {
    ExponentLongest(tail, m.exponent);
    hide DigitsEnd, ScanExponent, ExponentText, AllDigits;
    if |ExponentText(m.exponent)| > 0 { assert tail[0] == ExponentText(m.exponent)[0]; }
    assert tail[0..] == tail && tail[..0] == [];
  }

  lemma FractionLongest(tail: Text, m: Magnitude)
    requires ValidMagnitude(m) && m.Digits? && m.point
    requires FractionText(true, m.fraction) + ExponentText(m.exponent) <= tail
    requires |ExponentText(m.exponent)| > 0 ==> !IsDigit(ExponentText(m.exponent)[0])
    ensures ScanTail(m.whole, tail).Some?
    ensures ScanTail(m.whole, tail).value == m || |MagnitudeText(m)| < |MagnitudeText(ScanTail(m.whole, tail).value)|
  {
    var e := ExponentText(m.exponent);
    assert [POINT] + m.fraction + e == [POINT] + (m.fraction + e);
    PrefixAt(tail, [POINT], m.fraction + e);
    var rest := tail[1..];
    DigitsAt(rest, m.fraction, e);
    PrefixAt(rest, m.fraction, e);
    ExponentLongest(rest[|m.fraction|..], m.exponent);
    hide DigitsEnd, ScanExponent, ExponentText, AllDigits;
  }

  lemma ExponentStarts(e: Exponent)
    requires ValidExponent(e)
    ensures |ExponentText(e)| > 0 ==> !IsDigit(ExponentText(e)[0]) && ExponentText(e)[0] != POINT
  {
  }

  /** Digits alone reach further than the literal m, which has neither point nor exponent. */
  lemma MoreDigits(t: Text, m: Magnitude)
    requires ValidMagnitude(m) && m.Digits? && !m.point && m.exponent.NoExponent?
    requires |m.whole| < DigitsEnd(t) && !(INFINITY <= t)
    ensures ScanMagnitude(t).Some? && |MagnitudeText(m)| < |MagnitudeText(ScanMagnitude(t).value)|
  {
    hide DigitsEnd, ScanExponent, ExponentText;
    assert ExponentText(m.exponent) == [] by { NoText(); }
  }

  lemma NoText()
    ensures ExponentText(NoExponent) == []
  {
  }

  lemma MagnitudeStarts(m: Magnitude)
    requires ValidMagnitude(m)
    ensures |MagnitudeText(m)| > 0 && MagnitudeText(m)[0] != U('+') && MagnitudeText(m)[0] != U('-')
    ensures !IsSpace(MagnitudeText(m)[0]) && (m.Digits? ==> MagnitudeText(m)[0] != U('I'))
  {
    var t := MagnitudeText(m);
    if m.Infinite? {
      assert t[0] == U('I');
    } else {
      assert t[0] == if |m.whole| > 0 then m.whole[0] else POINT;
    }
  }

  lemma NotInfinite(t: Text, m: Magnitude)
    requires ValidMagnitude(m) && m.Digits? && MagnitudeText(m) <= t
    ensures !(INFINITY <= t)
  {
    MagnitudeStarts(m);
    assert t[0] == MagnitudeText(m)[0];
    assert INFINITY[0] == U('I');
  }

  lemma DigitsLongest(t: Text, m: Magnitude, tail: Text)
    requires ValidMagnitude(m) && m.Digits? && tail == FractionText(m.point, m.fraction) + ExponentText(m.exponent)
    requires m.whole + tail <= t && !(INFINITY <= t)
    ensures ScanMagnitude(t).Some?
    ensures ScanMagnitude(t).value == m || |MagnitudeText(m)| < |MagnitudeText(ScanMagnitude(t).value)|
  {
    ExponentStarts(m.exponent);
    TailEmpty(m);
    PrefixAt(t, m.whole, tail);
    DigitsAt(t, m.whole, tail);
    if DigitsEnd(t) == |m.whole| { TailLongest(t[|m.whole|..], m); } else { MoreDigits(t, m); }
    hide DigitsEnd, ScanExponent, ExponentText, ScanTail, FractionText, AllDigits, MagnitudeText;
  }

  lemma MagnitudeLongest(t: Text, m: Magnitude)
    requires ValidMagnitude(m) && MagnitudeText(m) <= t
    ensures ScanMagnitude(t).Some?
    ensures ScanMagnitude(t).value == m || |MagnitudeText(m)| < |MagnitudeText(ScanMagnitude(t).value)|
  {
    if m.Digits? {
      NotInfinite(t, m);
      AppendAssoc(m.whole, FractionText(m.point, m.fraction), ExponentText(m.exponent));
      DigitsLongest(t, m, FractionText(m.point, m.fraction) + ExponentText(m.exponent));
    }
  }

  lemma TailEmpty(m: Magnitude)
    requires ValidMagnitude(m) && m.Digits?
    ensures var tail := FractionText(m.point, m.fraction) + ExponentText(m.exponent);
      && (|tail| == 0 ==> !m.point && m.exponent.NoExponent?)
      && (|tail| > 0 ==> !IsDigit(tail[0]))
  {
  }

  /** The literal found is one, and stands at the head of the text. */
  lemma ScanFound(t: Text)
    requires Scan(t).Some?
    ensures ValidLiteral(Scan(t).value) && Written(Scan(t).value) <= t
  {
    var sign := SignAt(t);
    MagnitudeFound(t[|SignText(sign)|..]);
    hide ScanMagnitude, MagnitudeText;
    assert t == SignText(sign) + t[|SignText(sign)|..];
  }

  /** Every literal at the head of a text is the one found or shorter. */
  lemma ScanLongest(t: Text, l: Literal)
    requires ValidLiteral(l) && Written(l) <= t
    ensures Scan(t).Some? && (Scan(t).value == l || |Written(l)| < |Written(Scan(t).value)|)
  {
    MagnitudeStarts(l.magnitude);
    PrefixAt(t, SignText(l.sign), MagnitudeText(l.magnitude));
    assert SignAt(t) == l.sign;
    MagnitudeLongest(t[|SignText(l.sign)|..], l.magnitude);
    hide ScanMagnitude, MagnitudeText;
  }

  /** The head of s that l spells is a literal, and no longer head of s is one. */
  ghost predicate Leads(s: Text, l: Literal) {
    ValidLiteral(l) && Written(l) <= s && forall n :: |Written(l)| < n <= |s| ==> !IsNumeral(s[..n])
  }

  /** The scan finds the longest numeral at the head of a text, and nothing exactly when there is none. */
  lemma ScanIsLongest(s: Text, l: Literal)
    ensures Scan(s) == Some(l) <==> Leads(s, l)
    ensures Scan(s) == None <==> forall n :: 0 <= n <= |s| ==> !IsNumeral(s[..n])
  {
    hide Scan, Written, ValidLiteral;
    if Scan(s).Some? {
      var found := Scan(s).value;
      ScanFound(s);
      forall n | |Written(found)| < n <= |s| ensures !IsNumeral(s[..n]) {
        if IsNumeral(s[..n]) {
          var other :| ValidLiteral(other) && Written(other) == s[..n];
          ScanLongest(s, other);
        }
      }
      assert Leads(s, found);
      assert s[..|Written(found)|] == Written(found) && IsNumeral(s[..|Written(found)|]);
      if Leads(s, l) {
        ScanLongest(s, l);
        assert |Written(found)| <= |Written(l)|;
      }
    } else {
      forall n | 0 <= n <= |s| ensures !IsNumeral(s[..n]) {
        if IsNumeral(s[..n]) {
          var other :| ValidLiteral(other) && Written(other) == s[..n];
          ScanLongest(s, other);
        }
      }
      if Leads(s, l) { ScanLongest(s, l); }
    }
  }

  // ------------------------------------------------ parseFloat and Number

  lemma LiteralEdges(l: Literal)
    requires ValidLiteral(l)
    ensures var w := Written(l); |w| > 0 && !IsSpace(w[0]) && !IsSpace(w[|w| - 1])
  {
    MagnitudeStarts(l.magnitude);
    MagnitudeEnds(l.magnitude);
    var s, m := SignText(l.sign), MagnitudeText(l.magnitude);
    hide MagnitudeText;
    assert (s + m)[|s| + |m| - 1] == m[|m| - 1];
    assert (s + m)[0] == if |s| > 0 then s[0] else m[0];
  }

  lemma MagnitudeEnds(m: Magnitude)
    requires ValidMagnitude(m)
    ensures |MagnitudeText(m)| > 0 && !IsSpace(MagnitudeText(m)[|MagnitudeText(m)| - 1])
  {
    var t := MagnitudeText(m);
    MagnitudeStarts(m);
    var last := t[|t| - 1];
    if m.Infinite? {
      assert last == U('y');
    } else if m.exponent.Power? {
      assert last == m.exponent.digits[|m.exponent.digits| - 1];
    } else if |m.fraction| > 0 {
      assert last == m.fraction[|m.fraction| - 1];
    } else {
      assert last == if m.point then POINT else m.whole[|m.whole| - 1];
    }
  }

  lemma {:induction false} TrimEndCuts(s: Text)
    ensures TrimEnd(s) <= s && forall i :: |TrimEnd(s)| <= i < |s| ==> IsSpace(s[i])
    ensures |s| > 0 && !IsSpace(s[0]) ==> |TrimEnd(s)| > 0
  {
    if |s| > 0 && IsSpace(s[|s| - 1]) { TrimEndCuts(s[..|s| - 1]); }
  }

  /** A literal at the head of a text stands before the blanks at its end. */
  lemma LiteralBeforeBlanks(s: Text, l: Literal)
    requires ValidLiteral(l) && Written(l) <= s
    ensures |Written(l)| <= |TrimEnd(s)| && Written(l) <= TrimEnd(s)
  {
    TrimEndCuts(s);
    LiteralEdges(l);
    var w := Written(l);
    hide Written, ValidLiteral, TrimEnd, IsSpace;
    assert s[|w| - 1] == w[|w| - 1];
    assert TrimEnd(s)[..|w|] == s[..|w|];
  }

  lemma ScanOfWritten(l: Literal)
    requires ValidLiteral(l)
    ensures Scan(Written(l)) == Some(l)
  {
    ScanLongest(Written(l), l);
    ScanFound(Written(l));
    hide Scan, Written;
  }

  /** The text between the blanks is a numeral exactly when it is the whole literal found. */
  lemma NumeralExactlyWhenWhole(raw: Text)
    ensures IsNumeral(Trim(raw)) <==> Scan(TrimStart(raw)).Some? && Written(Scan(TrimStart(raw)).value) == Trim(raw)
    ensures IsNumeral(Trim(raw)) ==> Scan(Trim(raw)) == Scan(TrimStart(raw))
  {
    var s, u := TrimStart(raw), Trim(raw);
    TrimEndCuts(s);
    if IsNumeral(u) {
      var l :| ValidLiteral(l) && Written(l) == u;
      ScanLongest(s, l);
      ScanFound(s);
      LiteralBeforeBlanks(s, Scan(s).value);
      ScanOfWritten(l);
    }
    if Scan(s).Some? { ScanFound(s); }
    hide Scan, Written, ValidLiteral, TrimStart, TrimEnd;
  }

  /** Number of a numeral between blanks is what parseFloat finds. */
  lemma NumeralReads(raw: Text)
    requires IsNumeral(Trim(raw))
    ensures Scan(TrimStart(raw)).Some? && Number(raw) == ParseFloat(raw) == LiteralValue(Scan(TrimStart(raw)).value)
  {
    NumeralExactlyWhenWhole(raw);
    ScanFound(Trim(raw));
    LiteralEdges(Scan(Trim(raw)).value);
    hide Scan, Written, LiteralValue, Trim, TrimStart, RadixOf, RadixValue;
  }

  /** After an integer in another radix parseFloat finds its leading zero. */
  lemma RadixReadsZero(s: Text)
    requires RadixOf(s).Some?
    ensures Scan(s) == Some(Literal(Bare, Digits([U('0')], false, [], NoExponent)))
  {
    assert INFINITY[0] == U('I');
    assert !IsDigit(s[1]);
    assert DigitsEnd(s) == 1;
    assert s[..1] == [U('0')] && s[0..] == s;
    hide DigitsEnd;
    assert s[1..][0] == s[1];
  }

  lemma RadixThenBlanks(s: Text)
    requires RadixOf(TrimEnd(s)).Some?
    ensures RadixOf(s).Some?
  {
    TrimEndCuts(s);
    assert s[0] == TrimEnd(s)[0] && s[1] == TrimEnd(s)[1];
    hide TrimEnd;
  }

  predicate ZeroLiteral(l: Literal) { l.magnitude.Digits? && AllZeros(l.magnitude.whole) && AllZeros(l.magnitude.fraction) }

  lemma {:induction false} DecimalZero(t: Text)
    requires AllDigits(t)
    ensures DecimalValue(t) >= 0 && (DecimalValue(t) == 0 <==> AllZeros(t))
  {
    if |t| > 0 {
      var front := t[..|t| - 1];
      assert AllDigits(front) by { assert forall i :: 0 <= i < |front| ==> front[i] == t[i]; }
      DecimalZero(front);
      assert IsDigit(t[|t| - 1]);
      if AllZeros(front) && t[|t| - 1] == U('0') {
        forall i | 0 <= i < |t| ensures t[i] == U('0') { if i < |t| - 1 { assert front[i] == t[i]; } }
      }
      if AllZeros(t) { assert forall i :: 0 <= i < |front| ==> front[i] == t[i]; }
    }
  }

  lemma ProductZero(n: int, p: real, s: Sign)
    requires p > 0.0
    ensures Signed(s, n as real * p) == 0.0 <==> n == 0
  {
    if n > 0 { assert n as real * p > 0.0; }
    if n < 0 { assert (-n) as real * p > 0.0; assert n as real * p == -((-n) as real * p); }
  }

  lemma ZeroExactlyWhenZeros(l: Literal)
    requires ValidLiteral(l)
    ensures LiteralValue(l) == Finite(0.0) <==> ZeroLiteral(l)
    ensures LiteralValue(l) != NaN
  {
    if l.magnitude.Digits? {
      var m := l.magnitude;
      var all := m.whole + m.fraction;
      assert AllDigits(all);
      DecimalZero(all);
      ProductZero(DecimalValue(all), Pow10(ExponentValue(m.exponent) - |m.fraction|), l.sign);
      if AllZeros(all) {
        forall i | 0 <= i < |m.whole| ensures m.whole[i] == U('0') { assert all[i] == m.whole[i]; }
        forall i | 0 <= i < |m.fraction| ensures m.fraction[i] == U('0') { assert all[|m.whole| + i] == m.fraction[i]; }
      }
      hide DecimalValue, Pow10, ExponentValue;
    }
  }

  /** A reader that takes parseFloat(t) || t. */
  function FloatOrText(raw: Text): Num {
    var x := ParseFloat(raw);
    if x == NaN || x == Finite(0.0) then Number(raw) else x
  }

  lemma NumberRefuses(raw: Text)
    requires |Trim(raw)| > 0 && RadixOf(Trim(raw)).None?
    requires Scan(Trim(raw)).Some? ==> Written(Scan(Trim(raw)).value) != Trim(raw)
    ensures Number(raw) == NaN
  {
    hide Scan, Written, Trim, RadixOf, LiteralValue;
  }

  lemma NotNumeral(t: Text)
    requires !IsNumeral(t)
    ensures Scan(t).Some? ==> Written(Scan(t).value) != t
  {
    if Scan(t).Some? { ScanFound(t); }
    hide Scan, Written, ValidLiteral;
  }

  lemma ZeroHead(s: Text)
    requires RadixOf(TrimEnd(s)).Some?
    ensures Scan(s).Some? && ZeroLiteral(Scan(s).value)
  {
    hide Scan, RadixOf, TrimEnd;
    RadixThenBlanks(s);
    RadixReadsZero(s);
  }

  lemma SomethingTrimmed(raw: Text)
    requires Scan(TrimStart(raw)).Some?
    ensures |Trim(raw)| > 0
  {
    var s := TrimStart(raw);
    ScanFound(s);
    LiteralEdges(Scan(s).value);
    hide Scan, Written, TrimStart, TrimEnd;
    LiteralBeforeBlanks(s, Scan(s).value);
  }

  /** Without a numeral, parseFloat finds nothing, zero, or what Number refuses. */
  lemma OtherwiseRefused(raw: Text)
    requires !IsNumeral(Trim(raw)) && Scan(TrimStart(raw)).Some? && !ZeroLiteral(Scan(TrimStart(raw)).value)
    ensures Number(raw) == NaN
  {
    hide Scan, Written, TrimStart, TrimEnd, ZeroLiteral, IsNumeral, RadixOf, Number;
    SomethingTrimmed(raw);
    NotNumeral(Trim(raw));
    if RadixOf(Trim(raw)).Some? { ZeroHead(TrimStart(raw)); }
    NumberRefuses(raw);
  }

  /**
   * parseFloat(t) || t means the number that t means exactly when t is a numeral
   * between blanks, begins with none, or begins with one that is zero.
   */
  lemma FloatOrTextExactlyWhen(raw: Text)
    ensures FloatOrText(raw) == Number(raw) <==>
      var l := Scan(TrimStart(raw));
      IsNumeral(Trim(raw)) || l == None || ZeroLiteral(l.value)
  {
    var l := Scan(TrimStart(raw));
    if l.Some? {
      ScanFound(TrimStart(raw));
      ZeroExactlyWhenZeros(l.value);
      if IsNumeral(Trim(raw)) {
        NumeralReads(raw);
      } else if !ZeroLiteral(l.value) {
        OtherwiseRefused(raw);
      }
    } else if IsNumeral(Trim(raw)) {
      NumeralReads(raw);
    }
    hide Scan, Number, LiteralValue, Trim, TrimStart, ZeroLiteral;
  }

  // ---------------------------------------------------- texts of numbers

  /** A finite number as Number::toString takes it apart: 0.digits times ten to the power `point`. */
  datatype Parts = Parts(negative: bool, digits: Text, point: int)

  const ZERO := Parts(false, [U('0')], 1)

  predicate Shortest(p: Parts) {
    && |p.digits| > 0 && AllDigits(p.digits)
    && (p.digits[0] == U('0') || p.digits[|p.digits| - 1] == U('0') ==> p == ZERO)
  }

  type Figure = p: Parts | Shortest(p) witness ZERO

  function FigureValue(f: Figure): real {
    var x := DecimalValue(f.digits) as real * Pow10(f.point - |f.digits|);
    if f.negative then -x else x
  }

  function Zeros(n: nat): (t: Text)
    ensures |t| == n && AllZeros(t) && AllDigits(t)
  {
    seq(n, _ => U('0'))
  }

  function PowerOf(e: int): Exponent {
    Power(U('e'), if e < 0 then Minus else Plus, Decimal(if e < 0 then -e else e))
  }

  /** How String spells a number: plain digits up to 21 places, six places after the point, otherwise an exponent. */
  function FigureLiteral(f: Figure): Literal {
    var k, n := |f.digits|, f.point;
    var m :=
      if k <= n <= 21 then Digits(f.digits + Zeros(n - k), false, [], NoExponent)
      else if 0 < n <= 21 then Digits(f.digits[..n], true, f.digits[n..], NoExponent)
      else if -6 < n <= 0 then Digits([U('0')], true, Zeros(-n) + f.digits, NoExponent)
      else if k == 1 then Digits(f.digits, false, [], PowerOf(n - 1))
      else Digits(f.digits[..1], true, f.digits[1..], PowerOf(n - 1));
    Literal(if f.negative then Minus else Bare, m)
  }

  function FigureText(f: Figure): Text { Written(FigureLiteral(f)) }

  lemma OneMoreZero(t: Text, x: real, p: real)
    requires |t| > 0 && t[|t| - 1] == U('0') && DecimalValue(t[..|t| - 1]) as real == x * p
    ensures DecimalValue(t) as real == x * (10.0 * p)
  {
    var n := DecimalValue(t[..|t| - 1]);
    assert DecimalValue(t) == n * 10;
    assert (n * 10) as real == n as real * 10.0;
    assert x * p * 10.0 == x * (10.0 * p);
  }

  lemma LastZero(d: Text, z: nat)
    requires z > 0
    ensures var t := d + Zeros(z); t[..|t| - 1] == d + Zeros(z - 1) && t[|t| - 1] == U('0')
  {
  }

  lemma PowStep(z: nat)
    ensures Pow10(0) == 1.0 && (z > 0 ==> Pow10(z) == 10.0 * Pow10(z - 1))
  {
  }

  lemma {:induction false} TrailingZeros(d: Text, z: nat)
    ensures DecimalValue(d + Zeros(z)) as real == DecimalValue(d) as real * Pow10(z)
  {
    hide DecimalValue, Zeros, Pow10;
    PowStep(z);
    if z == 0 {
      assert d + Zeros(0) == d;
      assert DecimalValue(d) as real * 1.0 == DecimalValue(d) as real;
    } else {
      TrailingZeros(d, z - 1);
      LastZero(d, z);
      OneMoreZero(d + Zeros(z), DecimalValue(d) as real, Pow10(z - 1));
    }
  }

  lemma {:induction false} LeadingZeros(z: Text, d: Text)
    requires AllZeros(z)
    ensures DecimalValue(z + d) == DecimalValue(d)
  {
    if |d| == 0 {
      assert z + d == z;
      assert AllDigits(z);
      DecimalZero(z);
    } else {
      var t := z + d;
      assert t[..|t| - 1] == z + d[..|d| - 1];
      LeadingZeros(z, d[..|d| - 1]);
    }
  }

  lemma PowerReads(e: int)
    ensures ValidExponent(PowerOf(e)) && ExponentValue(PowerOf(e)) == e
  {
    DecimalRoundTrip(if e < 0 then -e else e);
    hide Decimal, DecimalValue;
  }

  lemma PaddedMagnitude(d: Text, z: nat)
    ensures MagnitudeValue(Digits(d + Zeros(z), false, [], NoExponent)) == DecimalValue(d) as real * Pow10(z)
  {
    hide *;
    TrailingZeros(d, z);
    PowStep(0);
    assert d + Zeros(z) + [] == d + Zeros(z);
    PlainMagnitude(Digits(d + Zeros(z), false, [], NoExponent));
  }

  lemma FractionMagnitude(d: Text, z: nat)
    ensures MagnitudeValue(Digits([U('0')], true, Zeros(z) + d, NoExponent)) == DecimalValue(d) as real * Pow10(-(z + |d|))
  {
    hide *;
    var m := Digits([U('0')], true, Zeros(z) + d, NoExponent);
    var zeros := OneMore(z);
    AppendAssoc([U('0')], Zeros(z), d);
    LeadingZeros(zeros, d);
    PlainMagnitude(m);
  }

  lemma OneMore(z: nat) returns (zeros: Text)
    ensures zeros == [U('0')] + Zeros(z) && AllZeros(zeros) && |Zeros(z)| == z
  {
    zeros := [U('0')] + Zeros(z);
  }

  lemma PlainMagnitude(m: Magnitude)
    requires m.Digits? && m.exponent.NoExponent?
    ensures MagnitudeValue(m) == DecimalValue(m.whole + m.fraction) as real * Pow10(-|m.fraction|)
  {
    hide DecimalValue, Pow10;
  }

  lemma FigureMagnitude(f: Figure)
    ensures ValidMagnitude(FigureLiteral(f).magnitude) && FigureLiteral(f).magnitude.Digits?
    ensures MagnitudeValue(FigureLiteral(f).magnitude) == DecimalValue(f.digits) as real * Pow10(f.point - |f.digits|)
  {
    var k, n, m := |f.digits|, f.point, FigureLiteral(f).magnitude;
    PowerReads(n - 1);
    NoPower();
    hide PowerOf, ValidExponent, ExponentValue, Pow10, DecimalValue, Zeros;
    if k <= n <= 21 {
      PaddedMagnitude(f.digits, n - k);
    } else if 0 < n <= 21 {
      assert m.whole + m.fraction == f.digits;
    } else if -6 < n <= 0 {
      FractionMagnitude(f.digits, -n);
    } else {
      assert m.whole + m.fraction == f.digits;
    }
  }

  lemma NoPower()
    ensures ValidExponent(NoExponent) && ExponentValue(NoExponent) == 0
  {
  }

  lemma NoBlanksToTrim(w: Text)
    requires |w| > 0 && !IsSpace(w[0]) && !IsSpace(w[|w| - 1])
    ensures TrimStart(w) == w && Trim(w) == w
  {
  }

  lemma LiteralReads(l: Literal)
    requires ValidLiteral(l)
    ensures IsNumeral(Trim(Written(l))) && Number(Written(l)) == ParseFloat(Written(l)) == LiteralValue(l)
  {
    hide *;
    var w := Written(l);
    LiteralEdges(l);
    NoBlanksToTrim(w);
    ScanOfWritten(l);
    NumeralIs(l);
    NumeralReads(w);
  }

  /** A text of digits is read as its decimal value. */
  lemma DigitsRead(t: Text)
    requires |t| > 0 && AllDigits(t)
    ensures Number(t) == Finite(DecimalValue(t) as real)
  {
    var m := Digits(t, false, [], NoExponent);
    var l := Literal(Bare, m);
    assert ValidLiteral(l);
    assert t + [] == t && [] + t == t;
    assert Written(l) == t;
    hide Number, Written, ValidLiteral;
    LiteralReads(l);
    assert Pow10(0) == 1.0;
    assert MagnitudeValue(m) == DecimalValue(t) as real * 1.0;
  }

  lemma NumeralIs(l: Literal)
    requires ValidLiteral(l)
    ensures IsNumeral(Written(l))
  {
  }

  lemma FigureLiteralMeans(f: Figure)
    ensures ValidLiteral(FigureLiteral(f)) && LiteralValue(FigureLiteral(f)) == Finite(FigureValue(f))
  {
    FigureMagnitude(f);
    FigureSign(f);
    hide MagnitudeValue, ValidMagnitude, FigureLiteral, Pow10, DecimalValue;
  }

  lemma FigureSign(f: Figure)
    ensures FigureLiteral(f).sign == if f.negative then Minus else Bare
  {
    hide Zeros, PowerOf;
  }

  /** The text of a number is a numeral without blanks, and both readers give the number back. */
  lemma FigureReads(f: Figure)
    ensures IsNumeral(Trim(FigureText(f)))
    ensures Number(FigureText(f)) == ParseFloat(FigureText(f)) == Finite(FigureValue(f))
  {
    hide FigureLiteral, FigureValue, LiteralValue, ParseFloat, Number, Written, Trim, ValidLiteral, IsNumeral;
    FigureLiteralMeans(f);
    LiteralReads(FigureLiteral(f));
  }

  /** Zero is spelled without a sign, and a sign in front of Infinity is read. */
  lemma ZeroAndInfinity()
    ensures FigureText(ZERO) == T("0") && FigureValue(ZERO) == 0.0
    ensures Number(INFINITY) == ParseFloat(INFINITY) == PlusInfinity
    ensures Number([U('-')] + INFINITY) == ParseFloat([U('-')] + INFINITY) == MinusInfinity
  {
    assert FigureText(ZERO) == T("0") && FigureValue(ZERO) == 0.0 by { ZeroIsPlain(); }
    var plus, minus := Literal(Bare, Infinite), Literal(Minus, Infinite);
    assert Written(plus) == INFINITY && Written(minus) == [U('-')] + INFINITY by { assert [] + INFINITY == INFINITY; }
    hide Number, ParseFloat, Written, FigureText, FigureValue;
    LiteralReads(plus);
    LiteralReads(minus);
  }

  lemma ZeroIsPlain()
    ensures FigureText(ZERO) == T("0") && FigureValue(ZERO) == 0.0
  {
    var zero: Text := [U('0')];
    assert zero[..0] == [];
    assert DecimalValue(zero) == 0;
    assert zero + Zeros(0) == zero;
    assert T("0") == zero;
    assert zero + [] == zero && [] + zero == zero;
    hide Pow10;
  }
}
