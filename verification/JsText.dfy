/**
 * JavaScript strings: sequences of 16-bit code units, with the few operations
 * the parsers need.
 */
module JsText {
  type CodeUnit = u: int | 0 <= u < 0x1_0000
  type Text = seq<CodeUnit>

  function U(c: char): CodeUnit {
    if c as int < 0x1_0000 then c as int else 0xFFFD
  }

  /** The text of an ASCII literal. */
  function T(s: string): (t: Text)
    ensures |t| == |s| && forall i :: 0 <= i < |s| ==> t[i] == U(s[i])
  {
    seq(|s|, i requires 0 <= i < |s| => U(s[i]))
  }

  predicate IsDigit(c: CodeUnit) { U('0') <= c <= U('9') }

  predicate IsLetter(c: CodeUnit) { U('a') <= c <= U('z') || U('A') <= c <= U('Z') }

  // String.prototype.toLowerCase, on ASCII letters
  function LowerUnit(c: CodeUnit): CodeUnit { if U('A') <= c <= U('Z') then c + 32 else c }

  function Lower(t: Text): Text { seq(|t|, i requires 0 <= i < |t| => LowerUnit(t[i])) }

  /** The white space of the regular expression class \s. */
  predicate IsSpace(c: CodeUnit) {
    || 9 <= c <= 13 || c == 0x20 || c == 0xA0 || c == 0x1680 || 0x2000 <= c <= 0x200A
    || c == 0x2028 || c == 0x2029 || c == 0x202F || c == 0x205F || c == 0x3000 || c == 0xFEFF
  }

  // String.prototype.trim
  function TrimStart(t: Text): Text { if |t| > 0 && IsSpace(t[0]) then TrimStart(t[1..]) else t }

  function TrimEnd(t: Text): Text { if |t| > 0 && IsSpace(t[|t| - 1]) then TrimEnd(t[..|t| - 1]) else t }

  function Trim(t: Text): Text { TrimEnd(TrimStart(t)) }

  /** The end of the longest run of units in class p that starts at i. */
  function Span(s: Text, i: nat, p: CodeUnit -> bool): (end: nat)
    requires i <= |s|
    ensures i <= end <= |s| && (forall k :: i <= k < end ==> p(s[k])) && (end < |s| ==> !p(s[end]))
    decreases |s| - i
  {
    if i < |s| && p(s[i]) then Span(s, i + 1, p) else i
  }

  lemma {:induction false} SpanIs(s: Text, i: nat, end: nat, p: CodeUnit -> bool)
    requires i <= end <= |s| && (forall k :: i <= k < end ==> p(s[k])) && (end < |s| ==> !p(s[end]))
    ensures Span(s, i, p) == end
    decreases end - i
  {
    if i < end { SpanIs(s, i + 1, end, p); }
  }

  /** `part` stands in `s` at position `i`. */
  ghost predicate OnAt<A>(s: seq<A>, i: nat, part: seq<A>) {
    i + |part| <= |s| && forall k :: i <= k < i + |part| ==> s[k] == part[k - i]
  }

  lemma OnAtSplit<A>(s: seq<A>, i: nat, a: seq<A>, b: seq<A>)
    requires OnAt(s, i, a + b)
    ensures OnAt(s, i, a) && OnAt(s, i + |a|, b)
  {
    forall k | i <= k < i + |a| ensures s[k] == a[k - i] { assert s[k] == (a + b)[k - i]; }
    forall k | i + |a| <= k < i + |a| + |b| ensures s[k] == b[k - (i + |a|)] { assert s[k] == (a + b)[k - i]; }
  }

  lemma AppendAssoc<A>(a: seq<A>, b: seq<A>, c: seq<A>)
    ensures a + b + c == a + (b + c)
  {
  }

  // --------------------------------------------------------------- order

  /** The order of strings, by code units. */
  predicate Less(a: Text, b: Text) {
    if |b| == 0 then false
    else if |a| == 0 then true
    else if a[0] != b[0] then a[0] < b[0]
    else Less(a[1..], b[1..])
  }

  /** Order by code units: at the first place where the texts part, b has the larger unit or goes on. */
  predicate Precedes(a: Text, b: Text) {
    exists n :: 0 <= n <= |a| && n < |b| && a[..n] == b[..n] && (n == |a| || a[n] < b[n])
  }

  lemma {:induction false} LessExactlyWhenPrecedes(a: Text, b: Text)
    ensures Less(a, b) <==> Precedes(a, b)
  {
    if |b| == 0 {
    } else if |a| == 0 {
      assert a[..0] == b[..0];
    } else if a[0] != b[0] {
      assert a[..0] == b[..0];
      forall n | 0 < n <= |a| && n < |b| ensures a[..n] != b[..n] { assert a[..n][0] != b[..n][0]; }
    } else {
      LessExactlyWhenPrecedes(a[1..], b[1..]);
      if n :| 0 <= n <= |a| && n < |b| && a[..n] == b[..n] && (n == |a| || a[n] < b[n]) {
        assert a[1..][..n - 1] == a[..n][1..] && b[1..][..n - 1] == b[..n][1..];
      }
      if m :| 0 <= m <= |a[1..]| && m < |b[1..]| && a[1..][..m] == b[1..][..m] && (m == |a[1..]| || a[1..][m] < b[1..][m]) {
        assert a[..m + 1] == [a[0]] + a[1..][..m] && b[..m + 1] == [b[0]] + b[1..][..m];
      }
    }
  }

  lemma {:induction false} LessTransitive(a: Text, b: Text, c: Text)
    requires Less(a, b) && Less(b, c)
    ensures Less(a, c)
  {
    if |a| > 0 && a[0] == b[0] == c[0] { LessTransitive(a[1..], b[1..], c[1..]); }
  }

  lemma {:induction false} LessTotal(a: Text, b: Text)
    ensures a == b || Less(a, b) || Less(b, a)
  {
    if |a| > 0 && |b| > 0 && a[0] == b[0] {
      LessTotal(a[1..], b[1..]);
      if a[1..] == b[1..] { assert a == [a[0]] + a[1..] == b; }
    }
  }

  lemma {:induction false} LessIrreflexive(a: Text)
    ensures !Less(a, a)
  {
    if |a| > 0 { LessIrreflexive(a[1..]); }
  }

  // ------------------------------------------------------ split and join

  function IndexOf(t: Text, sep: CodeUnit): (i: nat)
    ensures i <= |t| && (i < |t| ==> t[i] == sep) && forall k :: 0 <= k < i ==> t[k] != sep
  {
    if |t| == 0 || t[0] == sep then 0 else 1 + IndexOf(t[1..], sep)
  }

  function Split(t: Text, sep: CodeUnit): (parts: seq<Text>)
    ensures |parts| >= 1
    decreases |t|
  {
    var i := IndexOf(t, sep);
    if i == |t| then [t] else [t[..i]] + Split(t[i + 1..], sep)
  }

  function Join(parts: seq<Text>, sep: CodeUnit): Text {
    if |parts| == 0 then [] else if |parts| == 1 then parts[0] else parts[0] + ([sep] + Join(parts[1..], sep))
  }

  predicate Free(t: Text, sep: CodeUnit) { forall i :: 0 <= i < |t| ==> t[i] != sep }

  lemma {:induction false} SplitJoin(parts: seq<Text>, sep: CodeUnit)
    requires |parts| > 0 && forall i :: 0 <= i < |parts| ==> Free(parts[i], sep)
    ensures Split(Join(parts, sep), sep) == parts
  {
    var t := Join(parts, sep);
    if |parts| == 1 {
      assert IndexOf(t, sep) == |t|;
    } else {
      var i := IndexOf(t, sep);
      assert t[|parts[0]|] == sep && forall k :: 0 <= k < |parts[0]| ==> t[k] == parts[0][k];
      assert i == |parts[0]|;
      assert t[..i] == parts[0] && t[i + 1..] == Join(parts[1..], sep);
      SplitJoin(parts[1..], sep);
    }
  }

  // ------------------------------------------------------------- numerals

  function Decimal(n: nat): (t: Text)
    ensures |t| >= 1 && (forall k :: 0 <= k < |t| ==> IsDigit(t[k])) && (n > 0 ==> t[0] != U('0')) && (n == 0 ==> t == [U('0')])
  {
    if n < 10 then [U('0') + n] else Decimal(n / 10) + [U('0') + n % 10]
  }

  function DecimalValue(t: Text): int {
    if |t| == 0 then 0 else DecimalValue(t[..|t| - 1]) * 10 + (t[|t| - 1] - U('0'))
  }

  lemma {:induction false} DecimalRoundTrip(n: nat)
    ensures DecimalValue(Decimal(n)) == n
  {
    var t := Decimal(n);
    if n < 10 {
      assert t[..|t| - 1] == [];
    } else {
      DecimalRoundTrip(n / 10);
      assert t[..|t| - 1] == Decimal(n / 10);
    }
  }

  predicate IsHex(c: CodeUnit) { IsDigit(c) || U('a') <= c <= U('f') || U('A') <= c <= U('F') }

  function HexDigit(n: nat): (c: CodeUnit)
    requires n < 16
  {
    if n < 10 then U('0') + n else U('a') + n - 10
  }

  function HexDigitValue(c: CodeUnit): (n: nat)
    requires IsHex(c)
    ensures n < 16
  {
    if IsDigit(c) then c - U('0') else if U('a') <= c then c - U('a') + 10 else c - U('A') + 10
  }

  lemma HexDigitRoundTrip(n: nat)
    requires n < 16
    ensures IsHex(HexDigit(n)) && HexDigitValue(HexDigit(n)) == n
  {
  }

  /** parseInt(t, 16) on hexadecimal digits. */
  function HexValue(t: Text): (n: nat)
    requires forall k :: 0 <= k < |t| ==> IsHex(t[k])
  {
    if |t| == 0 then 0 else HexValue(t[..|t| - 1]) * 16 + HexDigitValue(t[|t| - 1])
  }

  /** Exactly `width` hexadecimal digits, most significant first. */
  function HexPadded(n: nat, width: nat): (t: Text)
    ensures |t| == width && forall k :: 0 <= k < |t| ==> IsHex(t[k])
  {
    if width == 0 then [] else HexPadded(n / 16, width - 1) + [HexDigit(n % 16)]
  }

  function Pow16(k: nat): nat { if k == 0 then 1 else 16 * Pow16(k - 1) }

  lemma {:induction false} HexPaddedRoundTrip(n: nat, width: nat)
    requires n < Pow16(width)
    ensures HexValue(HexPadded(n, width)) == n
  {
    if width > 0 {
      var t := HexPadded(n, width);
      HexPaddedRoundTrip(n / 16, width - 1);
      HexDigitRoundTrip(n % 16);
      assert t[..|t| - 1] == HexPadded(n / 16, width - 1);
    }
  }
}
