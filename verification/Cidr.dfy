/**
 * IP addresses and CIDR blocks (RFC 4632 section 3.1, RFC 4291 sections 2.2
 * and 2.3): addresses as numbers, and membership by shifting.
 */
module Cidr {
  import opened Arithmetic
  import opened Outcome
  import JsNumbers
  import opened JsText

  const COLON: CodeUnit := U(':')
  const DOT: CodeUnit := U('.')
  const SLASH: CodeUnit := U('/')

  // ------------------------------------------------------------- splitting

  /** Where the first "::" starts. */
  function FindDouble(t: Text): (i: nat)
    ensures i <= |t| && (i < |t| ==> i + 2 <= |t| && t[i] == COLON && t[i + 1] == COLON)
    ensures forall k :: 0 <= k < i && k + 1 < |t| ==> !(t[k] == COLON && t[k + 1] == COLON)
  {
    if |t| < 2 then |t| else if t[0] == COLON && t[1] == COLON then 0 else 1 + FindDouble(t[1..])
  }

  function SplitDouble(t: Text): (parts: seq<Text>)
    ensures |parts| >= 1
    decreases |t|
  {
    var i := FindDouble(t);
    if i == |t| then [t] else [t[..i]] + SplitDouble(t[i + 2..])
  }

  function NonEmpty(parts: seq<Text>): seq<Text> {
    if |parts| == 0 then [] else (if parts[0] == [] then [] else [parts[0]]) + NonEmpty(parts[1..])
  }

  /** Number(t), if Number.isInteger says that it is one. */
  function NumberOf(t: Text): Option<int> {
    var v := JsNumbers.Number(t);
    if v.Finite? && v.x.Floor as real == v.x then Some(v.x.Floor) else None
  }

  // ------------------------------------------------------------- addresses

  function Ipv4Parts(parts: seq<Text>, n: nat): Option<nat>
    decreases |parts|
  {
    if |parts| == 0 then Some(n)
    else
      var v := NumberOf(parts[0]);
      if v.None? || v.value < 0 || v.value > 255 then None else Ipv4Parts(parts[1..], n * 256 + v.value)
  }

  function Ipv4Big(ip: Text): Option<nat> {
    var p := Split(ip, DOT);
    if |p| != 4 then None else Ipv4Parts(p, 0)
  }

  method ParseIpv4(ip: Text) returns (r: Option<nat>)
    ensures r == Ipv4Big(ip)
  {
    hide NumberOf, Split;
    var p := Split(ip, DOT);
    if |p| != 4 { return None; }
    var n: nat := 0;
    assert p[0..] == p;
    for i := 0 to |p|
      invariant Ipv4Parts(p, 0) == Ipv4Parts(p[i..], n)
    {
      assert p[i..][0] == p[i] && p[i..][1..] == p[i + 1..];
      var v := NumberOf(p[i]);
      if v.None? || v.value < 0 || v.value > 255 { return None; }
      n := n * 256 + v.value;
    }
    return Some(n);
  }

  predicate LowerHex(c: CodeUnit) { IsDigit(c) || U('a') <= c <= U('f') }

  predicate IsHextet(t: Text) { 1 <= |t| <= 4 && forall i :: 0 <= i < |t| ==> LowerHex(t[i]) }

  /** n.toString(16) */
  function Hex(n: nat): Text { if n < 16 then [HexDigit(n)] else Hex(n / 16) + [HexDigit(n % 16)] }

  /** One past the last colon, or 0. */
  function AfterLastColon(t: Text): (i: nat)
    ensures i <= |t| && (i > 0 ==> t[i - 1] == COLON) && forall k :: i <= k < |t| ==> t[k] != COLON
  {
    if |t| == 0 || t[|t| - 1] == COLON then |t| else AfterLastColon(t[..|t| - 1])
  }

  /** slice(0, lastIndexOf(':')); without a colon that is slice(0, -1). */
  function BeforeLastColon(t: Text): Text {
    var i := AfterLastColon(t);
    if i > 0 then t[..i - 1] else if |t| > 0 then t[..|t| - 1] else t
  }

  /** A dotted tail becomes two groups. */
  function Undotted(t: Text): Option<Text> {
    if DOT !in t then Some(t)
    else
      var v4 := Ipv4Big(t[AfterLastColon(t)..]);
      if v4.None? then None
      else Some(BeforeLastColon(t) + [COLON] + Hex(v4.value / 65536) + [COLON] + Hex(v4.value % 65536))
  }

  function GroupsOf(half: Text): seq<Text> { if half == [] then [] else NonEmpty(Split(half, COLON)) }

  function Zeros(n: nat): seq<Text> { seq(n, i => [U('0')]) }

  function Ipv6Parts(parts: seq<Text>, n: nat): Option<nat>
    decreases |parts|
  {
    if |parts| == 0 then Some(n)
    else if !IsHextet(parts[0]) then None
    else Ipv6Parts(parts[1..], n * 65536 + HexValue(parts[0]))
  }

  function Ipv6Big(input: Text): Option<nat> {
    var plain := Undotted(Lower(input));
    if plain.None? then None
    else
      var halves := SplitDouble(plain.value);
      if |halves| > 2 then None
      else
        var left, right := GroupsOf(halves[0]), if |halves| == 2 then GroupsOf(halves[1]) else [];
        if |left| + |right| > 8 || (|halves| == 1 && |left| + |right| != 8) then None
        else Ipv6Parts(left + Zeros(8 - |left| - |right|) + right, 0)
  }

  method ParseIpv6(input: Text) returns (r: Option<nat>)
    ensures r == Ipv6Big(input)
  {
    hide Split, SplitDouble, GroupsOf, Zeros, Ipv6Parts, Hex, Lower, BeforeLastColon, Ipv4Big;
    var ip := Lower(input);
    if DOT in ip {
      var v4 := ParseIpv4(ip[AfterLastColon(ip)..]);
      if v4.None? { return None; }
      ip := BeforeLastColon(ip) + [COLON] + Hex(v4.value / 65536) + [COLON] + Hex(v4.value % 65536);
    }
    var halves := SplitDouble(ip);
    if |halves| > 2 { return None; }
    var left, right := GroupsOf(halves[0]), if |halves| == 2 then GroupsOf(halves[1]) else [];
    if |left| + |right| > 8 || (|halves| == 1 && |left| + |right| != 8) { return None; }
    r := SumGroups(left + Zeros(8 - |left| - |right|) + right);
  }

  method SumGroups(parts: seq<Text>) returns (r: Option<nat>)
    ensures r == Ipv6Parts(parts, 0)
  {
    var n: nat := 0;
    assert parts[0..] == parts;
    for i := 0 to |parts|
      invariant Ipv6Parts(parts, 0) == Ipv6Parts(parts[i..], n)
    {
      assert parts[i..][0] == parts[i] && parts[i..][1..] == parts[i + 1..];
      if !IsHextet(parts[i]) { return None; }
      n := n * 65536 + HexValue(parts[i]);
    }
    return Some(n);
  }

  datatype Address = Address(bits: nat, value: nat)

  /** `family` is what net.isIP says: 4, 6 or 0. */
  function IpValue(ip: Text, family: Text -> nat): Option<Address> {
    var prefix := T("::ffff:");
    var clean := if prefix <= ip then ip[|prefix|..] else ip;
    if family(clean) == 4 then (var v := Ipv4Big(clean); if v.None? then None else Some(Address(32, v.value)))
    else if family(clean) == 6 then (var v := Ipv6Big(clean); if v.None? then None else Some(Address(128, v.value)))
    else None
  }

  // ---------------------------------------------------------------- blocks

  function PrefixOf(cidr: Text, bits: nat): Option<int> {
    var parts := Split(cidr, SLASH);
    if |parts| == 1 then Some(bits) else NumberOf(parts[1])
  }

  predicate ValidCidr(cidr: Text, family: Text -> nat) {
    var parsed := IpValue(Split(cidr, SLASH)[0], family);
    parsed.Some? &&
      var prefix := PrefixOf(cidr, parsed.value.bits);
      prefix.Some? && 0 <= prefix.value <= parsed.value.bits
  }

  /** The comparison of the shifted values, for a prefix in range. */
  predicate Matches(bits: nat, prefix: nat, network: nat, candidate: nat)
    requires prefix <= bits
  {
    prefix == 0 || network / Pow2(bits - prefix) == candidate / Pow2(bits - prefix)
  }

  predicate CidrContains(cidr: Text, ip: Text, family: Text -> nat)
    requires ValidCidr(cidr, family)
  {
    var network, candidate := IpValue(Split(cidr, SLASH)[0], family), IpValue(ip, family);
    candidate.Some? && network.value.bits == candidate.value.bits
    && Matches(network.value.bits, PrefixOf(cidr, network.value.bits).value, network.value.value, candidate.value.value)
  }

  // ------------------------------------------------------ block arithmetic

  lemma Distribute(a: int, b: int, m: int)
    ensures (a + b) * m == a * m + b * m
  {
  }

  lemma MulOrder(a: int, b: int, m: nat)
    ensures a < b ==> a * m + m <= b * m
  {
    if a < b {
      var d: nat := b - a - 1;
      Distribute(a + 1, d, m);
      Distribute(a, 1, m);
      assert b == a + 1 + d;
    }
  }

  lemma QuotientIs(v: nat, m: nat, q: nat, r: nat)
    requires m > 0 && v == q * m + r && r < m
    ensures v / m == q && v % m == r
  {
    assert v == v / m * m + v % m;
    MulOrder(v / m, q, m);
    MulOrder(q, v / m, m);
  }

  lemma SameQuotient(a: nat, b: nat, m: nat)
    requires m > 0
    ensures a / m == b / m <==> a / m * m <= b < a / m * m + m
  {
    assert b == b / m * m + b % m;
    MulOrder(a / m, b / m, m);
    MulOrder(b / m, a / m, m);
  }

  lemma SmallQuotient(a: nat, m: nat)
    requires a < m
    ensures a / m == 0
  {
    QuotientIs(a, m, 0, a);
  }

  /** The first address of the aligned block of size 2^(bits - prefix) that holds the network address. */
  function BlockStart(bits: nat, prefix: nat, network: nat): nat
    requires prefix <= bits
  {
    network / Pow2(bits - prefix) * Pow2(bits - prefix)
  }

  lemma InBlock(network: nat, candidate: nat, size: nat)
    requires size > 0
    ensures network / size * size % size == 0
    ensures network / size == candidate / size <==> network / size * size <= candidate < network / size * size + size
  {
    SameQuotient(network, candidate, size);
    QuotientIs(network / size * size, size, network / size, 0);
  }

  lemma MatchesMeans(bits: nat, prefix: nat, network: nat, candidate: nat)
    requires prefix <= bits && network < Pow2(bits) && candidate < Pow2(bits)
    ensures Matches(bits, prefix, network, candidate) <==> network / Pow2(bits - prefix) == candidate / Pow2(bits - prefix)
  {
    hide Pow2;
    if prefix == 0 {
      SmallQuotient(network, Pow2(bits));
      SmallQuotient(candidate, Pow2(bits));
    }
  }

  /** Membership is exactly lying in the aligned block. */
  lemma MatchesExactlyInBlock(bits: nat, prefix: nat, network: nat, candidate: nat)
    requires prefix <= bits && network < Pow2(bits) && candidate < Pow2(bits)
    ensures var start, size := BlockStart(bits, prefix, network), Pow2(bits - prefix);
      && start % size == 0 && (Matches(bits, prefix, network, candidate) <==> start <= candidate < start + size)
  {
    hide Pow2, Matches;
    MatchesMeans(bits, prefix, network, candidate);
    InBlock(network, candidate, Pow2(bits - prefix));
  }

  /** Membership is exactly agreement in the first `prefix` bits. */
  lemma MatchesExactlyOnPrefixBits(bits: nat, prefix: nat, network: nat, candidate: nat)
    requires prefix <= bits && network < Pow2(bits) && candidate < Pow2(bits)
    ensures Matches(bits, prefix, network, candidate) <==>
      forall k :: bits - prefix <= k < bits ==> network / Pow2(k) % 2 == candidate / Pow2(k) % 2
  {
    if prefix > 0 {
      HighBits(bits - prefix, bits, network, candidate);
      var k := bits - prefix;
      if forall k :: bits - prefix <= k < bits ==> network / Pow2(k) % 2 == candidate / Pow2(k) % 2 {
        HighBits(bits - prefix, bits, network, candidate);
      }
    }
  }

  lemma Regroup(h: nat, m: nat)
    ensures h * 2 * m == h * (2 * m)
  {
  }

  lemma HalveAny(v: nat, m: nat)
    requires m > 0
    ensures v / (2 * m) == v / m / 2
  {
    var q, r := v / m, v % m;
    var h := q / 2;
    assert v == q * m + r;
    Regroup(h, m);
    if q % 2 == 0 {
      assert q == h * 2;
      QuotientIs(v, 2 * m, h, r);
    } else {
      assert q == h * 2 + 1;
      Distribute(h * 2, 1, m);
      QuotientIs(v, 2 * m, h, m + r);
    }
  }

  lemma Halve(v: nat, k: nat)
    ensures v / Pow2(k + 1) == v / Pow2(k) / 2
  {
    HalveAny(v, Pow2(k));
  }

  lemma {:induction false} HighBits(low: nat, bits: nat, a: nat, b: nat)
    requires low <= bits && a < Pow2(bits) && b < Pow2(bits)
    ensures a / Pow2(low) == b / Pow2(low) <==> forall k :: low <= k < bits ==> a / Pow2(k) % 2 == b / Pow2(k) % 2
    decreases bits - low
  {
    if low == bits {
      SmallQuotient(a, Pow2(bits));
      SmallQuotient(b, Pow2(bits));
    } else {
      HighBits(low + 1, bits, a, b);
      Halve(a, low);
      Halve(b, low);
    }
  }

  /** A longer prefix matches fewer addresses. */
  lemma {:induction false} ShorterPrefixMatchesMore(bits: nat, prefix: nat, shorter: nat, network: nat, candidate: nat)
    requires shorter <= prefix <= bits && Matches(bits, prefix, network, candidate)
    ensures Matches(bits, shorter, network, candidate)
    decreases prefix - shorter
  {
    if shorter < prefix {
      Halve(network, bits - prefix);
      Halve(candidate, bits - prefix);
      ShorterPrefixMatchesMore(bits, prefix - 1, shorter, network, candidate);
    }
  }

  /** Two blocks are nested or have no address in common. */
  lemma BlocksNestOrMiss(bits: nat, p: nat, q: nat, a: nat, b: nat, x: nat, y: nat)
    requires p <= q <= bits && Matches(bits, p, a, x) && Matches(bits, q, b, x) && Matches(bits, q, b, y)
    ensures Matches(bits, p, a, y)
  {
    ShorterPrefixMatchesMore(bits, q, p, b, x);
    ShorterPrefixMatchesMore(bits, q, p, b, y);
  }

  // ------------------------------------------------------------- rendering

  predicate AllFree(parts: seq<Text>, sep: CodeUnit) { forall i :: 0 <= i < |parts| ==> |parts[i]| > 0 && Free(parts[i], sep) }

  lemma {:induction false} NonEmptyAll(parts: seq<Text>)
    requires forall i :: 0 <= i < |parts| ==> |parts[i]| > 0
    ensures NonEmpty(parts) == parts
  {
    if |parts| > 0 { NonEmptyAll(parts[1..]); }
  }

  lemma GroupsOfJoin(parts: seq<Text>)
    requires AllFree(parts, COLON)
    ensures GroupsOf(Join(parts, COLON)) == parts
  {
    if |parts| > 0 {
      SplitJoin(parts, COLON);
      NonEmptyAll(parts);
      assert Join(parts, COLON) != [];
    }
  }

  /** No two colons in a row, none at either end. */
  predicate Tidy(t: Text) {
    && (forall k :: 0 <= k < |t| - 1 ==> !(t[k] == COLON && t[k + 1] == COLON))
    && (|t| > 0 ==> t[0] != COLON && t[|t| - 1] != COLON)
  }

  lemma {:induction false} JoinIsTidy(parts: seq<Text>)
    requires AllFree(parts, COLON)
    ensures Tidy(Join(parts, COLON)) && (|parts| > 0 ==> Join(parts, COLON) != [])
  {
    if |parts| > 1 {
      JoinIsTidy(parts[1..]);
      var a, b := parts[0], Join(parts[1..], COLON);
      var t := a + ([COLON] + b);
      forall k | 0 <= k < |t| - 1 ensures !(t[k] == COLON && t[k + 1] == COLON) {
        if k < |a| { assert t[k] == a[k]; } else if k == |a| { assert t[k + 1] == b[0]; } else {
          assert t[k] == b[k - |a| - 1] && t[k + 1] == b[k - |a|];
        }
      }
      assert t[|t| - 1] == b[|b| - 1];
    }
  }

  lemma TidyHasNoDouble(t: Text)
    requires Tidy(t)
    ensures SplitDouble(t) == [t]
  {
    assert FindDouble(t) == |t|;
  }

  lemma SplitAtDouble(a: Text, b: Text)
    requires Tidy(a) && Tidy(b)
    ensures SplitDouble(a + [COLON, COLON] + b) == [a, b]
  {
    var t := a + [COLON, COLON] + b;
    var i := FindDouble(t);
    assert t[|a|] == COLON && t[|a| + 1] == COLON;
    assert forall k :: 0 <= k < |a| ==> t[k] == a[k];
    assert i == |a|;
    assert t[..i] == a && t[i + 2..] == b;
    TidyHasNoDouble(b);
  }

  /** Four octets, each written in decimal digits. */
  predicate IsDotted(octets: seq<Text>) {
    |octets| == 4 && forall i :: 0 <= i < 4 ==>
      |octets[i]| > 0 && (forall k :: 0 <= k < |octets[i]| ==> IsDigit(octets[i][k])) && 0 <= DecimalValue(octets[i]) <= 255
  }

  function OctetsValue(octets: seq<Text>): int
    requires |octets| == 4
  {
    ((DecimalValue(octets[0]) * 256 + DecimalValue(octets[1])) * 256 + DecimalValue(octets[2])) * 256 + DecimalValue(octets[3])
  }

  lemma DigitsAreTrimmed(t: Text)
    requires |t| > 0 && forall k :: 0 <= k < |t| ==> IsDigit(t[k])
    ensures NumberOf(t) == Some(DecimalValue(t))
  {
    JsNumbers.DigitsRead(t);
    hide JsNumbers.Number;
  }

  lemma {:induction false} OctetsRead(octets: seq<Text>)
    requires IsDotted(octets)
    ensures Ipv4Big(Join(octets, DOT)) == Some(OctetsValue(octets)) && 0 <= OctetsValue(octets) < 0x1_0000_0000
  {
    DottedIsFree(octets);
    SplitJoin(octets, DOT);
    DottedSteps(octets);
    hide *;
    DottedEnd(octets);
  }

  lemma DottedIsFree(octets: seq<Text>)
    requires IsDotted(octets)
    ensures AllFree(octets, DOT)
  {
  }

  lemma DottedEnd(octets: seq<Text>)
    requires |octets| == 4 && Split(Join(octets, DOT), DOT) == octets
    ensures Ipv4Big(Join(octets, DOT)) == Ipv4Parts(octets, 0)
  {
  }

  lemma DottedSteps(octets: seq<Text>)
    requires IsDotted(octets)
    ensures Ipv4Parts(octets, 0) == Some(OctetsValue(octets)) && 0 <= OctetsValue(octets) < 0x1_0000_0000
  {
    hide NumberOf, DecimalValue;
    var a := DecimalValue(octets[0]);
    var b := a * 256 + DecimalValue(octets[1]);
    var c := b * 256 + DecimalValue(octets[2]);
    OctetStep(octets, 0);
    OctetStep(octets[1..], a);
    OctetStep(octets[2..], b);
    OctetStep(octets[3..], c);
    assert octets[1..][1..] == octets[2..] && octets[2..][1..] == octets[3..] && octets[3..][1..] == [];
  }

  lemma OctetStep(parts: seq<Text>, n: nat)
    requires |parts| > 0 && |parts[0]| > 0 && forall k :: 0 <= k < |parts[0]| ==> IsDigit(parts[0][k])
    requires 0 <= DecimalValue(parts[0]) <= 255
    ensures Ipv4Parts(parts, n) == Ipv4Parts(parts[1..], n * 256 + DecimalValue(parts[0]))
  {
    hide NumberOf, DecimalValue;
    DigitsAreTrimmed(parts[0]);
  }
}
