/**
 * The Base32 encoding of authenticator secrets (RFC 4648, section 6), computed
 * with JavaScript's 32-bit shifts on an accumulator that is never masked.
 */
module Base32 {
  import opened Arithmetic
  import opened JsText

  type Byte = b: int | 0 <= b < 256
  type Bits = seq<bool>

  // ----------------------------------------------------------- bit strings

  function Zeros(k: nat): Bits { seq(k, i => false) }

  /** The number written by a bit string, most significant bit first. */
  function ToNat(s: Bits): nat {
    if |s| == 0 then 0 else ToNat(s[..|s| - 1]) * 2 + (if s[|s| - 1] then 1 else 0)
  }

  function FromNat(n: nat, width: nat): (s: Bits)
    ensures |s| == width
  {
    if width == 0 then [] else FromNat(n / 2, width - 1) + [n % 2 == 1]
  }

  lemma {:induction false} BitsOfNumber(n: nat, width: nat)
    requires n < Pow2(width)
    ensures ToNat(FromNat(n, width)) == n
  {
    if width > 0 {
      BitsOfNumber(n / 2, width - 1);
      assert FromNat(n, width)[..width - 1] == FromNat(n / 2, width - 1);
    }
  }

  lemma {:induction false} NumberOfBits(s: Bits)
    ensures ToNat(s) < Pow2(|s|) && FromNat(ToNat(s), |s|) == s
  {
    if |s| > 0 {
      NumberOfBits(s[..|s| - 1]);
      assert s == s[..|s| - 1] + [s[|s| - 1]];
    }
  }

  lemma {:induction false} LeadingZeros(k: nat, s: Bits)
    ensures ToNat(Zeros(k) + s) == ToNat(s)
    decreases |s|, k
  {
    var t := Zeros(k) + s;
    if |s| > 0 {
      assert t[..|t| - 1] == Zeros(k) + s[..|s| - 1];
      LeadingZeros(k, s[..|s| - 1]);
    } else if k > 0 {
      assert t[..|t| - 1] == Zeros(k - 1) + s;
      LeadingZeros(k - 1, s);
    }
  }

  predicate AllBelow(ns: seq<nat>, limit: nat) { forall i :: 0 <= i < |ns| ==> ns[i] < limit }

  /** Consecutive groups of `width` bits, each read as a number; an incomplete last group is dropped. */
  function Groups(s: Bits, width: nat): seq<nat>
    requires width > 0
  {
    if |s| < width then [] else [ToNat(s[..width])] + Groups(s[width..], width)
  }

  function Spread(ns: seq<nat>, width: nat): Bits {
    if |ns| == 0 then [] else FromNat(ns[0], width) + Spread(ns[1..], width)
  }

  lemma {:induction false} SpreadAppend(ns: seq<nat>, n: nat, width: nat)
    ensures Spread(ns + [n], width) == Spread(ns, width) + FromNat(n, width)
  {
    if |ns| > 0 {
      assert (ns + [n])[1..] == ns[1..] + [n];
      SpreadAppend(ns[1..], n, width);
    } else {
      assert Spread([n], width) == FromNat(n, width) + Spread([], width);
    }
  }

  lemma {:induction false} SpreadLength(ns: seq<nat>, width: nat)
    ensures |Spread(ns, width)| == |ns| * width
  {
    if |ns| > 0 {
      SpreadLength(ns[1..], width);
      assert |ns| * width == width + (|ns| - 1) * width;
    }
  }

  lemma {:induction false} GroupsAppend(ns: seq<nat>, s: Bits, group: Bits, width: nat)
    requires width > 0 && |group| == width && |s| == |ns| * width && Groups(s, width) == ns
    ensures Groups(s + group, width) == ns + [ToNat(group)]
  {
    var t := s + group;
    if |ns| == 0 {
      assert t[..width] == group && t[width..] == [];
      assert Groups([], width) == [];
    } else {
      assert |ns| * width == width + (|ns| - 1) * width;
      assert (|ns| - 1) * width >= 0;
      assert t[..width] == s[..width] && t[width..] == s[width..] + group;
      assert ns[1..] == Groups(s[width..], width);
      GroupsAppend(ns[1..], s[width..], group, width);
      assert [ns[0]] + (ns[1..] + [ToNat(group)]) == ns + [ToNat(group)];
    }
  }

  lemma {:induction false} GroupsOfSpread(ns: seq<nat>, width: nat, tail: Bits)
    requires width > 0 && |tail| < width && AllBelow(ns, Pow2(width))
    ensures Groups(Spread(ns, width) + tail, width) == ns
  {
    if |ns| == 0 {
      assert Spread(ns, width) + tail == tail;
    } else {
      var head, rest := FromNat(ns[0], width), Spread(ns[1..], width) + tail;
      assert Spread(ns, width) + tail == head + rest;
      assert (head + rest)[..width] == head && (head + rest)[width..] == rest;
      BitsOfNumber(ns[0], width);
      GroupsOfSpread(ns[1..], width, tail);
    }
  }

  lemma GroupsUnfold(s: Bits, width: nat)
    requires 0 < width <= |s|
    ensures Groups(s, width) == [ToNat(s[..width])] + Groups(s[width..], width)
  {
    hide ToNat;
  }

  lemma SpreadUnfold(n: nat, rest: seq<nat>, width: nat)
    ensures Spread([n] + rest, width) == FromNat(n, width) + Spread(rest, width)
  {
    hide FromNat;
    assert ([n] + rest)[1..] == rest;
  }

  lemma Joined(s: Bits, width: nat, n: nat)
    requires width + n <= |s|
    ensures s[..width] + s[width..][..n] == s[..width + n]
  {
  }

  lemma OneMoreTime(n: nat, width: nat)
    ensures (n + 1) * width == n * width + width
  {
  }

  lemma {:induction false} SpreadOfGroups(s: Bits, width: nat)
    requires width > 0
    ensures |Groups(s, width)| * width <= |s| < |Groups(s, width)| * width + width
    ensures Spread(Groups(s, width), width) == s[..|Groups(s, width)| * width]
    ensures AllBelow(Groups(s, width), Pow2(width))
  {
    if |s| >= width {
      hide ToNat, FromNat, Pow2, Groups, Spread;
      var rest := Groups(s[width..], width);
      SpreadOfGroups(s[width..], width);
      GroupsUnfold(s, width);
      NumberOfBits(s[..width]);
      SpreadUnfold(ToNat(s[..width]), rest, width);
      OneMoreTime(|rest|, width);
      Joined(s, width, |rest| * width);
    }
  }

  lemma SpreadInjective(a: seq<nat>, b: seq<nat>, width: nat)
    requires width > 0 && Spread(a, width) == Spread(b, width)
    requires AllBelow(a, Pow2(width)) && AllBelow(b, Pow2(width))
    ensures a == b
  {
    GroupsOfSpread(a, width, []);
    GroupsOfSpread(b, width, []);
    assert Spread(a, width) + [] == Spread(b, width) + [];
  }

  // ------------------------------------------------------ 32-bit registers

  type Word = w: Bits | |w| == 32 witness Zeros(32)

  function Zero(): Word { Zeros(32) }

  function Int32(n: nat): Word
    requires n < 256
  {
    FromNat(n, 32)
  }

  function Shl(w: Word, k: nat): Word
    requires k < 32
  {
    w[k..] + Zeros(k)
  }

  function Ushr(w: Word, k: nat): Word
    requires k < 32
  {
    Zeros(k) + w[..32 - k]
  }

  function Or(a: Word, b: Word): Word { seq(32, i requires 0 <= i < 32 => a[i] || b[i]) }

  function And(a: Word, b: Word): Word { seq(32, i requires 0 <= i < 32 => a[i] && b[i]) }

  lemma {:induction false} SmallNumberBits(n: nat, width: nat, all: nat)
    requires width <= all && n < Pow2(width)
    ensures FromNat(n, all) == Zeros(all - width) + FromNat(n, width)
  {
    if width > 0 {
      SmallNumberBits(n / 2, width - 1, all - 1);
      assert Zeros(all - width) + (FromNat(n / 2, width - 1) + [n % 2 == 1])
          == Zeros(all - width) + FromNat(n / 2, width - 1) + [n % 2 == 1];
    } else if all > 0 {
      SmallNumberBits(0, 0, all - 1);
      assert FromNat(0, all) == Zeros(all - 1) + [] + [false];
    }
  }

  lemma Powers()
    ensures Pow2(5) == 32 && Pow2(8) == 256
  {
    assert Pow2(2) == 4;
    assert Pow2(4) == 16;
    assert Pow2(6) == 64;
  }

  /** The last `bits` bits of the register are the stream s from position m on. */
  ghost predicate Pending(w: Word, bits: nat, s: Bits, m: nat) {
    bits <= 32 && |s| == m + bits && w[32 - bits..] == s[m..]
  }

  /** Shifting in new bits keeps every pending bit as long as all of them fit. */
  lemma ShiftIn(w: Word, bits: nat, s: Bits, m: nat, n: nat, width: nat)
    requires Pending(w, bits, s, m) && width < 32 && bits + width <= 32 && n < 256 && n < Pow2(width)
    ensures Pending(Or(Shl(w, width), Int32(n)), bits + width, s + FromNat(n, width), m)
  {
    hide FromNat, Pow2;
    SmallNumberBits(n, width, 32);
    var r, t := Or(Shl(w, width), Int32(n)), s + FromNat(n, width);
    var k := 32 - bits - width;
    forall i | 0 <= i < bits + width ensures r[k..][i] == t[m..][i] {
      assert r[k..][i] == r[k + i] == (Shl(w, width)[k + i] || Int32(n)[k + i]);
      if i < bits {
        assert Shl(w, width)[k + i] == w[32 - bits + i] == w[32 - bits..][i] == s[m..][i] == s[m + i];
      } else {
        assert Int32(n)[k + i] == FromNat(n, width)[i - bits];
      }
    }
    assert r[k..] == t[m..];
  }

  lemma {:induction false} AllOnes(width: nat)
    ensures FromNat(Pow2(width) - 1, width) == seq(width, i => true)
  {
    if width > 0 {
      AllOnes(width - 1);
      var n := Pow2(width) - 1;
      assert n / 2 == Pow2(width - 1) - 1 && n % 2 == 1;
      assert FromNat(n, width) == FromNat(n / 2, width - 1) + [true];
    }
  }

  lemma Masked(w: Word, k: nat, width: nat, mask: Word)
    requires 0 < width && k + width <= 32 && mask == Zeros(32 - width) + seq(width, i => true)
    ensures And(Ushr(w, k), mask) == Zeros(32 - width) + w[32 - k - width..32 - k]
  {
    var v, r, group := Ushr(w, k), And(Ushr(w, k), mask), w[32 - k - width..32 - k];
    assert forall i :: k <= i < 32 ==> v[i] == w[i - k];
    assert forall i :: 0 <= i < 32 ==> mask[i] == (i >= 32 - width);
    forall i | 0 <= i < 32 ensures r[i] == (Zeros(32 - width) + group)[i] {
      assert r[i] == (v[i] && mask[i]);
    }
  }

  /** `(w >>> k) & mask` reads the `width` bits of w that end k places from the right. */
  lemma Extract(w: Word, k: nat, width: nat)
    requires 0 < width <= 8 && k + width <= 32 && Pow2(width) <= 256
    ensures ToNat(And(Ushr(w, k), Int32(Pow2(width) - 1))) == ToNat(w[32 - k - width..32 - k])
  {
    var mask := Int32(Pow2(width) - 1);
    SmallNumberBits(Pow2(width) - 1, width, 32);
    AllOnes(width);
    var r := And(Ushr(w, k), mask);
    var group := w[32 - k - width..32 - k];
    Masked(w, k, width, mask);
    hide *;
    LeadingZeros(32 - width, group);
  }

  // ------------------------------------------------------------- alphabet

  predicate InAlphabet(c: CodeUnit) { U('A') <= c <= U('Z') || U('2') <= c <= U('7') }

  function Symbol(n: nat): (c: CodeUnit)
    requires n < 32
    ensures InAlphabet(c) && SymbolIndex(c) == n
  {
    if n < 26 then U('A') + n else U('2') + n - 26
  }

  function SymbolIndex(c: CodeUnit): (n: nat)
    requires InAlphabet(c)
    ensures n < 32
  {
    if c >= U('A') then c - U('A') else c - U('2') + 26
  }

  function Symbols(ns: seq<nat>): Text
    requires AllBelow(ns, 32)
  {
    seq(|ns|, i requires 0 <= i < |ns| => Symbol(ns[i]))
  }

  function Indices(t: Text): (ns: seq<nat>)
    requires forall c <- t :: InAlphabet(c)
    ensures |ns| == |t| && AllBelow(ns, 32)
  {
    seq(|t|, i requires 0 <= i < |t| => SymbolIndex(t[i]))
  }

  lemma IndicesOfSymbols(ns: seq<nat>)
    requires AllBelow(ns, 32)
    ensures (forall c <- Symbols(ns) :: InAlphabet(c)) && Indices(Symbols(ns)) == ns
  {
    forall c | c in Symbols(ns) ensures InAlphabet(c) {
      var i :| 0 <= i < |ns| && c == Symbols(ns)[i];
    }
  }

  lemma SymbolsOfIndices(t: Text)
    requires forall c <- t :: InAlphabet(c)
    ensures Symbols(Indices(t)) == t
  {
    forall i | 0 <= i < |t| ensures Symbols(Indices(t))[i] == t[i] { assert InAlphabet(t[i]); }
  }

  /**
   * The letters of the alphabet in the upper case of c. Outside ASCII these are
   * the characters that SpecialCasing.txt and UnicodeData.txt of Unicode give an
   * upper case with such letters: sharp s, the ligatures of f and s, letters with
   * a mark that has no capital, dotless i and long s.
   */
  function UpperLetters(c: CodeUnit): Text {
    if U('a') <= c <= U('z') then [c - 32]
    else if InAlphabet(c) then [c]
    else if c == 0xDF then T("SS")
    else if c == 0x149 then T("N")
    else if c == 0x131 then T("I")
    else if c == 0x17F then T("S")
    else if c == 0x1F0 then T("J")
    else if c == 0x1E96 then T("H")
    else if c == 0x1E97 then T("T")
    else if c == 0x1E98 then T("W")
    else if c == 0x1E99 then T("Y")
    else if c == 0x1E9A then T("A")
    else if c == 0xFB00 then T("FF")
    else if c == 0xFB01 then T("FI")
    else if c == 0xFB02 then T("FL")
    else if c == 0xFB03 then T("FFI")
    else if c == 0xFB04 then T("FFL")
    else if c == 0xFB05 || c == 0xFB06 then T("ST")
    else []
  }

  lemma UpperLettersOk(c: CodeUnit)
    ensures forall x <- UpperLetters(c) :: InAlphabet(x)
  {
  }

  /** Upper-case letters, then drop everything outside the alphabet, padding included. */
  function Clean(t: Text): (r: Text)
    ensures forall c <- r :: InAlphabet(c)
  {
    if |t| == 0 then []
    else
      UpperLettersOk(t[0]);
      UpperLetters(t[0]) + Clean(t[1..])
  }

  // ---------------------------------------------------------- specification

  function Padding(n: nat): (k: nat)
    ensures k < 5 && (n + k) % 5 == 0
  {
    (5 - n % 5) % 5
  }

  /** Section 6 of RFC 4648: the bit string of the bytes, filled up with zero bits, in groups of five. */
  function Encoding(bytes: seq<Byte>): Text {
    var s := Spread(bytes, 8);
    var groups := Groups(s + Zeros(Padding(|s|)), 5);
    Powers();
    SpreadOfGroups(s + Zeros(Padding(|s|)), 5);
    Symbols(groups)
  }

  function Decoding(t: Text): seq<Byte> {
    GroupsAreBytes(Spread(Indices(Clean(t)), 5));
    Groups(Spread(Indices(Clean(t)), 5), 8)
  }

  lemma GroupsAreBytes(s: Bits)
    ensures forall i :: 0 <= i < |Groups(s, 8)| ==> Groups(s, 8)[i] < 256
  {
    Powers();
    SpreadOfGroups(s, 8);
    forall i | 0 <= i < |Groups(s, 8)| ensures Groups(s, 8)[i] < 256 {
      assert Groups(s, 8)[i] in Groups(s, 8);
    }
  }

  // ---------------------------------------------------------------- loops

  lemma PendingGroup(w: Word, bits: nat, s: Bits, m: nat, width: nat)
    requires Pending(w, bits, s, m) && width <= bits
    ensures w[32 - bits..32 - bits + width] == s[m..m + width] && Pending(w, bits - width, s, m + width)
  {
    assert w[32 - bits..32 - bits + width] == w[32 - bits..][..width];
    assert s[m..m + width] == s[m..][..width];
    assert w[32 - bits + width..] == w[32 - bits..][width..];
    assert s[m + width..] == s[m..][width..];
  }

  /** Reading the first `width` pending bits is reading the next group of the stream. */
  lemma TakeGroup(w: Word, bits: nat, s: Bits, m: nat, done: seq<nat>, width: nat)
    requires Pending(w, bits, s, m) && 0 < width <= bits && (width == 5 || width == 8)
    requires m == |done| * width && Groups(s[..m], width) == done
    ensures Pending(w, bits - width, s, m + width)
    ensures var n := ToNat(And(Ushr(w, bits - width), Int32(Pow2(width) - 1)));
      n < Pow2(width) && Groups(s[..m + width], width) == done + [n]
  {
    hide *;
    Powers();
    assert bits <= 32 && |s| == m + bits by { PendingBounds(w, bits, s, m); }
    PendingGroup(w, bits, s, m, width);
    Extract(w, bits - width, width);
    var group := s[m..m + width];
    NumberOfBits(group);
    GroupsAppend(done, s[..m], group, width);
    assert s[..m] + group == s[..m + width];
  }

  lemma PendingBounds(w: Word, bits: nat, s: Bits, m: nat)
    requires Pending(w, bits, s, m)
    ensures bits <= 32 && |s| == m + bits
  {
  }

  lemma NothingPending(w: Word)
    ensures Pending(w, 0, [], 0) && Groups([], 5) == [] && Groups([], 8) == []
  {
  }

  method Base32Encode(buffer: seq<Byte>) returns (output: Text)
    ensures output == Encoding(buffer)
  {
    hide *;
    var bits, value: Word := 0, Zero();
    output := [];
    ghost var s: Bits := [];
    ghost var done: seq<nat> := [];
    Powers();
    NothingPending(value);
    SpreadEmpty();
    SymbolsAppend([], 0);
    assert s[..0] == [] && buffer[..0] == [];
    for i := 0 to |buffer|
      invariant s == Spread(buffer[..i], 8) && bits < 5
      invariant AllBelow(done, 32) && output == Symbols(done)
      invariant Pending(value, bits, s, 5 * |done|)
      invariant 5 * |done| <= |s| && Groups(s[..5 * |done|], 5) == done
    {
      ShiftIn(value, bits, s, 5 * |done|, buffer[i], 8);
      value := Or(Shl(value, 8), Int32(buffer[i]));
      assert buffer[..i + 1] == buffer[..i] + [buffer[i]];
      SpreadAppend(buffer[..i], buffer[i], 8);
      assert (s + FromNat(buffer[i], 8))[..5 * |done|] == s[..5 * |done|];
      s := s + FromNat(buffer[i], 8);
      bits := bits + 8;
      while bits >= 5
        invariant bits <= 12 && AllBelow(done, 32) && output == Symbols(done)
        invariant Pending(value, bits, s, 5 * |done|)
        invariant 5 * |done| <= |s| && Groups(s[..5 * |done|], 5) == done
      {
        TakeGroup(value, bits, s, 5 * |done|, done, 5);
        PendingBounds(value, bits, s, 5 * |done|);
        var n := ToNat(And(Ushr(value, bits - 5), Int32(31)));
        SymbolsAppend(done, n);
        output := output + [Symbol(n)];
        done := done + [n];
        bits := bits - 5;
      }
    }
    assert buffer[..|buffer|] == buffer;
    PendingBounds(value, bits, s, 5 * |done|);
    if bits > 0 {
      LastSymbol(value, bits, s, done);
      var n := ToNat(And(Shl(value, 5 - bits), Int32(31)));
      SymbolsAppend(done, n);
      output := output + [Symbol(n)];
      EncodingIs(buffer, done + [n]);
    } else {
      assert s[..5 * |done|] == s;
      NoPadding(s, |done|);
      EncodingIs(buffer, done);
    }
  }

  lemma SpreadEmpty()
    ensures Spread([], 8) == [] && Spread([], 5) == []
  {
  }

  lemma NoPadding(s: Bits, k: nat)
    requires |s| == 5 * k
    ensures s + Zeros(Padding(|s|)) == s
  {
    PaddingIs(|s|, k, 0);
    hide Padding;
  }

  lemma EncodingIs(bytes: seq<Byte>, groups: seq<nat>)
    requires AllBelow(groups, 32)
    requires var s := Spread(bytes, 8); Groups(s + Zeros(Padding(|s|)), 5) == groups
    ensures Encoding(bytes) == Symbols(groups)
  {
    hide Groups, Spread, Padding, Zeros;
  }

  lemma SymbolsAppend(ns: seq<nat>, n: nat)
    requires AllBelow(ns, 32) && n < 32
    ensures AllBelow([], 32) && Symbols([]) == [] && AllBelow(ns + [n], 32) && Symbols(ns + [n]) == Symbols(ns) + [Symbol(n)]
  {
  }

  /** The remaining one to four bits, filled up with zero bits. */
  lemma LastSymbol(w: Word, bits: nat, s: Bits, done: seq<nat>)
    requires 0 < bits < 5 && Pending(w, bits, s, 5 * |done|) && Groups(s[..5 * |done|], 5) == done
    ensures var n := ToNat(And(Shl(w, 5 - bits), Int32(31)));
      n < 32 && Groups(s + Zeros(Padding(|s|)), 5) == done + [n]
  {
    hide *;
    var m := 5 * |done|;
    PendingBounds(w, bits, s, m);
    var group := s[m..] + Zeros(5 - bits);
    PaddingIs(|s|, |done|, bits);
    FilledGroup(w, bits, s, m);
    Powers();
    NumberOfBits(group);
    GroupsAppend(done, s[..m], group, 5);
    assert s[..m] + group == s + Zeros(5 - bits) by { assert s == s[..m] + s[m..]; }
  }

  lemma PaddingIs(n: nat, k: nat, bits: nat)
    requires n == 5 * k + bits && bits < 5
    ensures Padding(n) == (5 - bits) % 5
  {
  }

  lemma FilledGroup(w: Word, bits: nat, s: Bits, m: nat)
    requires 0 < bits < 5 && Pending(w, bits, s, m)
    ensures |s[m..] + Zeros(5 - bits)| == 5
    ensures ToNat(And(Shl(w, 5 - bits), Int32(31))) == ToNat(s[m..] + Zeros(5 - bits))
  {
    hide ToNat, Pow2, And, Int32;
    var x, group := Shl(w, 5 - bits), s[m..] + Zeros(5 - bits);
    forall i | 0 <= i < 5 ensures x[27 + i] == group[i] {
      if i < bits { assert x[27 + i] == w[32 - bits + i] == w[32 - bits..][i]; }
    }
    assert x[27..32] == group;
    Powers();
    Extract(x, 0, 5);
    assert Ushr(x, 0) == x;
  }

  method Base32Decode(base32: Text) returns (bytes: seq<Byte>)
    ensures bytes == Decoding(base32)
  {
    hide *;
    var cleaned := Clean(base32);
    var bits, value: Word := 0, Zero();
    bytes := [];
    ghost var s: Bits := [];
    ghost var ns := Indices(cleaned);
    Powers();
    NothingPending(value);
    SpreadEmpty();
    assert s[..0] == [] && ns[..0] == [];
    for i := 0 to |cleaned|
      invariant s == Spread(ns[..i], 5) && bits < 8
      invariant Pending(value, bits, s, 8 * |bytes|)
      invariant 8 * |bytes| <= |s| && Groups(s[..8 * |bytes|], 8) == bytes
    {
      var index := SymbolIndex(cleaned[i]);
      IndicesAt(cleaned, i);
      assert ns[..i + 1] == ns[..i] + [index];
      SpreadAppend(ns[..i], index, 5);
      ShiftIn(value, bits, s, 8 * |bytes|, index, 5);
      value := Or(Shl(value, 5), Int32(index));
      assert (s + FromNat(index, 5))[..8 * |bytes|] == s[..8 * |bytes|];
      s := s + FromNat(index, 5);
      bits := bits + 5;
      if bits >= 8 {
        TakeGroup(value, bits, s, 8 * |bytes|, bytes, 8);
        PendingBounds(value, bits, s, 8 * |bytes|);
        bytes := bytes + [ToNat(And(Ushr(value, bits - 8), Int32(255)))];
        bits := bits - 8;
      }
    }
    assert ns[..|cleaned|] == ns;
    PendingBounds(value, bits, s, 8 * |bytes|);
    SpreadOfGroups(s[..8 * |bytes|], 8);
    assert s[..8 * |bytes|][..8 * |bytes|] + s[8 * |bytes|..] == s;
    GroupsOfSpread(bytes, 8, s[8 * |bytes|..]);
    DecodingIs(base32, bytes);
  }

  lemma IndicesAt(t: Text, i: nat)
    requires (forall c <- t :: InAlphabet(c)) && i < |t|
    ensures InAlphabet(t[i]) && Indices(t)[i] == SymbolIndex(t[i])
  {
  }

  lemma DecodingIs(t: Text, bytes: seq<Byte>)
    requires Groups(Spread(Indices(Clean(t)), 5), 8) == bytes
    ensures Decoding(t) == bytes
  {
  }

  // ---------------------------------------------------------------- laws

  lemma EncodingShape(bytes: seq<Byte>)
    ensures forall c <- Encoding(bytes) :: InAlphabet(c)
    ensures Spread(Indices(Encoding(bytes)), 5) == Spread(bytes, 8) + Zeros(Padding(|Spread(bytes, 8)|))
  {
    hide *;
    var s := Spread(bytes, 8);
    var t := s + Zeros(Padding(|s|));
    PaddedSize(s);
    Powers();
    SpreadOfGroups(t, 5);
    IndicesOfSymbols(Groups(t, 5));
    EncodingIs(bytes, Groups(t, 5));
    assert t == t[..|t|];
  }

  lemma PaddedSize(s: Bits)
    ensures |s + Zeros(Padding(|s|))| % 5 == 0
  {
  }

  /** n bytes become ceil(8n / 5) symbols. */
  lemma EncodingLength(bytes: seq<Byte>)
    ensures |Encoding(bytes)| == (8 * |bytes| + 4) / 5
  {
    EncodingShape(bytes);
    SpreadLength(bytes, 8);
    SpreadLength(Indices(Encoding(bytes)), 5);
  }

  /** Any text that cleans up to the encoding decodes to the bytes: lower case, padding and separators do not matter. */
  lemma DecodeUndoesEncode(bytes: seq<Byte>, t: Text)
    requires Clean(t) == Encoding(bytes)
    ensures Decoding(t) == bytes
  {
    EncodingShape(bytes);
    Powers();
    GroupsOfSpread(bytes, 8, Zeros(Padding(|Spread(bytes, 8)|)));
  }

  lemma {:induction false} CleanKeepsAlphabet(t: Text)
    requires forall c <- t :: InAlphabet(c)
    ensures Clean(t) == t
  {
    if |t| > 0 {
      assert InAlphabet(t[0]);
      CleanKeepsAlphabet(t[1..]);
    }
  }

  lemma {:induction false} CleanAppend(a: Text, b: Text)
    ensures Clean(a + b) == Clean(a) + Clean(b)
  {
    if |a| == 0 {
      assert a + b == b;
    } else {
      assert (a + b)[1..] == a[1..] + b;
      CleanAppend(a[1..], b);
    }
  }

  lemma {:induction false} CleanDropsPadding(k: nat)
    ensures Clean(seq(k, i => U('='))) == []
  {
    if k > 0 {
      var t: Text := seq(k, i => U('='));
      assert t[1..] == seq(k - 1, i => U('='));
      CleanDropsPadding(k - 1);
    }
  }

  /** The round trip, with any number of padding characters after the encoding. */
  lemma PaddedRoundTrip(bytes: seq<Byte>, k: nat)
    ensures Decoding(Encoding(bytes) + seq(k, i => U('='))) == bytes
  {
    EncodingShape(bytes);
    CleanKeepsAlphabet(Encoding(bytes));
    CleanAppend(Encoding(bytes), seq(k, i => U('=')));
    CleanDropsPadding(k);
    assert Encoding(bytes) + [] == Encoding(bytes);
    DecodeUndoesEncode(bytes, Encoding(bytes) + seq(k, i => U('=')));
  }

  /**
   * Which symbol strings are encodings: exactly those whose incomplete last
   * byte is shorter than a symbol and all zero.
   */
  lemma EncodeUndoesDecodeExactly(t: Text)
    requires forall c <- t :: InAlphabet(c)
    ensures Encoding(Decoding(t)) == t <==>
      var s := Spread(Indices(t), 5);
      |s| % 8 < 5 && s[|s| - |s| % 8..] == Zeros(|s| % 8)
  {
    hide *;
    var s, bytes := Spread(Indices(t), 5), Decoding(t);
    Powers();
    DecodedBits(t);
    var m := 8 * |bytes|;
    EncodingShape(bytes);
    assert |s| % 8 == |s| - m;
    var pad := Zeros(Padding(m));
    if Encoding(bytes) == t {
      assert s == s[..m] + pad;
      assert s[m..] == pad;
      ZerosLength(Padding(m));
    }
    if |s| % 8 < 5 && s[m..] == Zeros(|s| % 8) {
      ZeroTailEncodes(t, bytes, s, m);
    }
  }

  lemma ZeroTailEncodes(t: Text, bytes: seq<Byte>, s: Bits, m: nat)
    requires (forall c <- t :: InAlphabet(c)) && s == Spread(Indices(t), 5) && m <= |s| && |s| - m < 5
    requires m == 8 * |bytes| && s[..m] == Spread(bytes, 8) && s[m..] == Zeros(|s| - m)
    ensures Encoding(bytes) == t
  {
    hide *;
    EncodingShape(bytes);
    SpreadLength(Indices(t), 5);
    Powers();
    PaddingFits(m, |t|, |s| - m);
    assert s == s[..m] + s[m..];
    SpreadInjective(Indices(Encoding(bytes)), Indices(t), 5);
    SymbolsOfIndices(t);
    SymbolsOfIndices(Encoding(bytes));
  }

  lemma DecodedBits(t: Text)
    requires forall c <- t :: InAlphabet(c)
    ensures var s, m := Spread(Indices(t), 5), 8 * |Decoding(t)|;
      m <= |s| < m + 8 && Spread(Decoding(t), 8) == s[..m]
  {
    CleanKeepsAlphabet(t);
    SpreadOfGroups(Spread(Indices(t), 5), 8);
  }

  lemma ZerosLength(k: nat)
    ensures |Zeros(k)| == k
  {
  }

  lemma PaddingFits(m: nat, symbols: nat, tail: nat)
    requires symbols * 5 == m + tail && tail < 5
    ensures Padding(m) == tail
  {
  }
}
