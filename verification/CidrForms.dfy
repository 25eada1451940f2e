/**
 * All the ways of writing one IPv6 address (RFC 4291, section 2.2) give the
 * same number: letter case, leading zeros, the place of "::" and a dotted tail.
 */
module CidrForms {
  import opened Arithmetic
  import opened Outcome
  import opened JsText
  import opened Cidr

  /** Hexadecimal groups before and after a possible "::", and a possible dotted tail of four octets. */
  datatype Form = Form(left: seq<Text>, elided: bool, right: seq<Text>, dotted: seq<Text>)

  predicate HexGroup(t: Text) { 1 <= |t| <= 4 && forall i :: 0 <= i < |t| ==> IsHex(t[i]) }

  predicate HexGroups(ts: seq<Text>) { forall i :: 0 <= i < |ts| ==> HexGroup(ts[i]) }

  predicate ValidForm(f: Form) {
    var written := |f.left| + |f.right| + (if f.dotted == [] then 0 else 2);
    && HexGroups(f.left) && HexGroups(f.right) && (f.dotted == [] || IsDotted(f.dotted))
    && (if f.elided then written <= 7 else written == 8 && f.right == [])
  }

  function Tail(dotted: seq<Text>): seq<Text> { if dotted == [] then [] else [Join(dotted, DOT)] }

  function Render(f: Form): Text {
    if f.elided then Join(f.left, COLON) + [COLON, COLON] + Join(f.right + Tail(f.dotted), COLON)
    else Join(f.left + Tail(f.dotted), COLON)
  }

  function Values(ts: seq<Text>): seq<nat>
    requires HexGroups(ts)
  {
    seq(|ts|, i requires 0 <= i < |ts| => HexValue(ts[i]))
  }

  function TailValues(dotted: seq<Text>): (r: seq<nat>)
    requires dotted == [] || IsDotted(dotted)
  {
    if dotted == [] then []
    else
      DottedSteps(dotted);
      [OctetsValue(dotted) / 65536, OctetsValue(dotted) % 65536]
  }

  function ZeroGroups(n: nat): seq<nat> { seq(n, i => 0) }

  /** The eight 16-bit groups that a form stands for. */
  function Groups(f: Form): (r: seq<nat>)
    requires ValidForm(f)
    ensures |r| == 8
  {
    var left, right := Values(f.left), Values(f.right) + TailValues(f.dotted);
    left + ZeroGroups(8 - |left| - |right|) + right
  }

  function ValueFrom(groups: seq<nat>, n: nat): nat
    decreases |groups|
  {
    if |groups| == 0 then n else ValueFrom(groups[1..], n * 65536 + groups[0])
  }

  // ------------------------------------------------------- plain forms

  lemma {:induction false} PartsRead(ts: seq<Text>, n: nat)
    requires Hextets(ts)
    ensures HexGroups(ts) && Ipv6Parts(ts, n) == Some(ValueFrom(Values(ts), n))
    decreases |ts|
  {
    if |ts| > 0 {
      PartsRead(ts[1..], n * 65536 + HexValue(ts[0]));
      assert Values(ts)[1..] == Values(ts[1..]);
    }
  }

  lemma HextetsAreFree(ts: seq<Text>)
    requires Hextets(ts)
    ensures AllFree(ts, COLON) && AllFree(ts, DOT)
  {
  }

  lemma PaddedHextets(left: seq<Text>, right: seq<Text>, n: nat)
    requires Hextets(left) && Hextets(right)
    ensures var all := left + Zeros(n) + right;
      && Hextets(all) && HexGroups(all) && HexGroups(left) && HexGroups(right)
      && Values(all) == Values(left) + ZeroGroups(n) + Values(right)
  {
    assert HexValue([U('0')]) == 0 by { assert [U('0')][..0] == []; }
  }

  predicate Hextets(ts: seq<Text>) { forall i :: 0 <= i < |ts| ==> IsHextet(ts[i]) }

  /** Groups in lower case around a "::". */
  lemma ElidedPlain(left: seq<Text>, right: seq<Text>)
    requires Hextets(left) && Hextets(right) && |left| + |right| <= 8
    ensures HexGroups(left) && HexGroups(right)
    ensures AfterUndotting(Join(left, COLON) + [COLON, COLON] + Join(right, COLON)) ==
      Some(ValueFrom(Values(left) + ZeroGroups(8 - |left| - |right|) + Values(right), 0))
  {
    hide *;
    var a, b, n := Join(left, COLON), Join(right, COLON), 8 - |left| - |right|;
    HextetsAreFree(left);
    HextetsAreFree(right);
    JoinIsTidy(left);
    JoinIsTidy(right);
    GroupsOfJoin(left);
    GroupsOfJoin(right);
    SplitAtDouble(a, b);
    AfterTwoHalves(a + [COLON, COLON] + b, a, b);
    PaddedHextets(left, right, n);
    PartsRead(left + Zeros(n) + right, 0);
  }

  /** Eight groups in lower case. */
  lemma FullPlain(groups: seq<Text>)
    requires Hextets(groups) && |groups| == 8
    ensures HexGroups(groups) && AfterUndotting(Join(groups, COLON)) == Some(ValueFrom(Values(groups), 0))
  {
    hide *;
    var t := Join(groups, COLON);
    HextetsAreFree(groups);
    JoinIsTidy(groups);
    GroupsOfJoin(groups);
    TidyHasNoDouble(t);
    AfterOneHalf(t);
    PartsRead(groups, 0);
  }

  /** What Ipv6Big does once a dotted tail has been rewritten. */
  function AfterUndotting(t: Text): Option<nat> {
    var halves := SplitDouble(t);
    if |halves| > 2 then None
    else
      var left, right := GroupsOf(halves[0]), if |halves| == 2 then GroupsOf(halves[1]) else [];
      if |left| + |right| > 8 || (|halves| == 1 && |left| + |right| != 8) then None
      else Ipv6Parts(left + Zeros(8 - |left| - |right|) + right, 0)
  }

  lemma AfterTwoHalves(t: Text, a: Text, b: Text)
    requires SplitDouble(t) == [a, b] && |GroupsOf(a)| + |GroupsOf(b)| <= 8
    ensures AfterUndotting(t) == Ipv6Parts(GroupsOf(a) + Zeros(8 - |GroupsOf(a)| - |GroupsOf(b)|) + GroupsOf(b), 0)
  {
    hide SplitDouble, GroupsOf, Zeros, Ipv6Parts;
  }

  lemma AfterOneHalf(t: Text)
    requires SplitDouble(t) == [t] && |GroupsOf(t)| == 8
    ensures AfterUndotting(t) == Ipv6Parts(GroupsOf(t), 0)
  {
    hide SplitDouble, GroupsOf, Ipv6Parts;
    assert GroupsOf(t) + Zeros(0) + [] == GroupsOf(t);
  }

  lemma Ipv6Unfold(input: Text)
    ensures Ipv6Big(input) == if Undotted(Lower(input)).None? then None else AfterUndotting(Undotted(Lower(input)).value)
  {
    hide SplitDouble, GroupsOf, Zeros, Ipv6Parts, Undotted, Lower;
  }

  // ------------------------------------------------------------ lower case

  function LowerAll(ts: seq<Text>): seq<Text> { seq(|ts|, i requires 0 <= i < |ts| => Lower(ts[i])) }

  lemma LowerConcat(a: Text, b: Text)
    ensures Lower(a + b) == Lower(a) + Lower(b)
  {
  }

  lemma {:induction false} LowerJoin(ts: seq<Text>, sep: CodeUnit)
    requires LowerUnit(sep) == sep
    ensures Lower(Join(ts, sep)) == Join(LowerAll(ts), sep)
  {
    if |ts| > 1 {
      LowerJoin(ts[1..], sep);
      assert LowerAll(ts)[1..] == LowerAll(ts[1..]);
      LowerConcat(ts[0], [sep] + Join(ts[1..], sep));
      LowerConcat([sep], Join(ts[1..], sep));
    }
  }

  lemma {:induction false} LowerHexValue(t: Text)
    requires forall i :: 0 <= i < |t| ==> IsHex(t[i])
    ensures forall i :: 0 <= i < |t| ==> LowerHex(Lower(t)[i]) && IsHex(Lower(t)[i])
    ensures HexValue(Lower(t)) == HexValue(t)
  {
    if |t| > 0 {
      LowerHexValue(t[..|t| - 1]);
      assert Lower(t)[..|t| - 1] == Lower(t[..|t| - 1]);
    }
  }

  lemma LowerGroups(ts: seq<Text>)
    requires HexGroups(ts)
    ensures Hextets(LowerAll(ts))
    ensures HexGroups(LowerAll(ts)) && Values(LowerAll(ts)) == Values(ts)
  {
    forall i | 0 <= i < |ts|
      ensures IsHextet(LowerAll(ts)[i]) && HexGroup(LowerAll(ts)[i]) && HexValue(LowerAll(ts)[i]) == HexValue(ts[i])
    {
      LowerHexValue(ts[i]);
    }
  }

  lemma DottedIsLower(octets: seq<Text>)
    requires IsDotted(octets)
    ensures Lower(Join(octets, DOT)) == Join(octets, DOT)
  {
    LowerJoin(octets, DOT);
    forall i | 0 <= i < 4 ensures LowerAll(octets)[i] == octets[i] {
      forall k | 0 <= k < |octets[i]| ensures Lower(octets[i])[k] == octets[i][k] { assert IsDigit(octets[i][k]); }
    }
    assert LowerAll(octets) == octets;
  }

  // ------------------------------------------------------------ dotted tail

  lemma {:induction false} HexReads(n: nat, width: nat)
    requires width > 0 && n < Pow16(width)
    ensures 1 <= |Hex(n)| <= width && (forall i :: 0 <= i < |Hex(n)| ==> LowerHex(Hex(n)[i]) && IsHex(Hex(n)[i])) && HexValue(Hex(n)) == n
  {
    var t := Hex(n);
    HexDigitRoundTrip(n % 16);
    if n < 16 {
      assert t[..0] == [];
    } else {
      HexReads(n / 16, width - 1);
      assert t[..|t| - 1] == Hex(n / 16);
    }
  }

  lemma HexIsHextet(n: nat)
    requires n < 65536
    ensures IsHextet(Hex(n)) && HexGroup(Hex(n)) && HexValue(Hex(n)) == n
  {
    assert Pow16(2) == 256;
    assert Pow16(4) == 65536;
    HexReads(n, 4);
  }

  lemma {:induction false} JoinAppend(ts: seq<Text>, t: Text, sep: CodeUnit)
    requires |ts| > 0
    ensures Join(ts + [t], sep) == Join(ts, sep) + [sep] + t
  {
    if |ts| == 1 {
      assert (ts + [t])[1..] == [t];
    } else {
      assert (ts + [t])[1..] == ts[1..] + [t];
      JoinAppend(ts[1..], t, sep);
    }
  }

  lemma {:induction false} JoinFree(ts: seq<Text>, sep: CodeUnit, c: CodeUnit)
    requires c != sep && AllFree(ts, c)
    ensures Free(Join(ts, sep), c)
  {
    if |ts| > 1 { JoinFree(ts[1..], sep, c); }
  }

  lemma LastColonIs(t: Text, i: nat, d: Text)
    requires i < |t| && t[i] == COLON && t[i + 1..] == d && Free(d, COLON)
    ensures AfterLastColon(t) == i + 1
  {
    assert forall k :: i < k < |t| ==> t[k] == d[k - i - 1] && t[k] != COLON;
  }

  /** Everything up to the dotted tail, which starts after the last colon. */
  lemma LastColonAt(a: Text, d: Text)
    requires Free(d, COLON)
    ensures AfterLastColon(a + [COLON] + d) == |a| + 1 && BeforeLastColon(a + [COLON] + d) == a
    ensures (a + [COLON] + d)[|a| + 1..] == d
  {
    var t := a + [COLON] + d;
    LastColonIs(t, |a|, d);
    hide AfterLastColon;
    assert t[..|a|] == a;
  }

  lemma DottedFacts(octets: seq<Text>)
    requires IsDotted(octets)
    ensures Free(Join(octets, DOT), COLON) && DOT in Join(octets, DOT)
    ensures Ipv4Big(Join(octets, DOT)) == Some(OctetsValue(octets)) && 0 <= OctetsValue(octets) < 0x1_0000_0000
  {
    assert AllFree(octets, COLON);
    JoinFree(octets, DOT, COLON);
    OctetsRead(octets);
    assert Join(octets, DOT)[|octets[0]|] == DOT;
  }

  lemma UndottedTail(a: Text, octets: seq<Text>)
    requires IsDotted(octets)
    ensures Undotted(a + [COLON] + Join(octets, DOT)) ==
      Some(a + [COLON] + Hex(OctetsValue(octets) / 65536) + [COLON] + Hex(OctetsValue(octets) % 65536))
  {
    var d := Join(octets, DOT);
    DottedFacts(octets);
    LastColonAt(a, d);
    assert DOT in a + [COLON] + d;
    hide Hex, Ipv4Big, Join, BeforeLastColon, AfterLastColon;
  }

  // ----------------------------------------------------------- main result

  function TailGroups(dotted: seq<Text>): seq<Text>
    requires dotted == [] || IsDotted(dotted)
  {
    if dotted == [] then []
    else
      DottedSteps(dotted);
      [Hex(OctetsValue(dotted) / 65536), Hex(OctetsValue(dotted) % 65536)]
  }

  lemma TailGroupsRead(dotted: seq<Text>)
    requires dotted == [] || IsDotted(dotted)
    ensures Hextets(TailGroups(dotted))
    ensures HexGroups(TailGroups(dotted)) && Values(TailGroups(dotted)) == TailValues(dotted)
  {
    if dotted != [] {
      DottedFacts(dotted);
      HexIsHextet(OctetsValue(dotted) / 65536);
      HexIsHextet(OctetsValue(dotted) % 65536);
    }
  }

  lemma TailUnfold(octets: seq<Text>)
    requires IsDotted(octets)
    ensures |octets| == 4 && Tail(octets) == [Join(octets, DOT)] && 0 <= OctetsValue(octets)
    ensures TailGroups(octets) == [Hex(OctetsValue(octets) / 65536), Hex(OctetsValue(octets) % 65536)]
  {
    DottedSteps(octets);
  }

  lemma JoinTwo(x: Text, y: Text)
    ensures Join([x], COLON) == x && Join([x, y], COLON) == x + ([COLON] + y)
  {
    assert [x, y][1..] == [y];
  }

  /** Adding the tail to a list of groups, as dotted text and as two groups. */
  lemma UndottedJoin(ts: seq<Text>, octets: seq<Text>, before: Text)
    requires IsDotted(octets) && (|ts| > 0 || (|before| > 0 && before[|before| - 1] == COLON))
    ensures Undotted(before + Join(ts + Tail(octets), COLON)) == Some(before + Join(ts + TailGroups(octets), COLON))
  {
    hide *;
    TailUnfold(octets);
    var d, x, y := Join(octets, DOT), Hex(OctetsValue(octets) / 65536), Hex(OctetsValue(octets) % 65536);
    if |ts| == 0 {
      var a := before[..|before| - 1];
      UndottedTail(a, octets);
      JoinTwo(d, d);
      JoinTwo(x, y);
      assert ts + [d] == [d] && ts + [x, y] == [x, y];
      assert before + d == a + [COLON] + d;
      assert before + (x + ([COLON] + y)) == a + [COLON] + x + [COLON] + y;
    } else {
      var j := Join(ts, COLON);
      JoinAppend(ts, d, COLON);
      JoinAppend(ts, x, COLON);
      JoinAppend(ts + [x], y, COLON);
      assert ts + [x] + [y] == ts + [x, y];
      UndottedTail(before + j, octets);
      assert before + (j + [COLON] + d) == before + j + [COLON] + d;
      assert before + (j + [COLON] + x + [COLON] + y) == before + j + [COLON] + x + [COLON] + y;
    }
  }

  lemma NoDots(t: Text)
    requires Free(t, DOT)
    ensures Undotted(t) == Some(t)
  {
    hide Ipv4Big, Hex;
  }

  lemma LowerTail(ts: seq<Text>, dotted: seq<Text>)
    requires dotted == [] || IsDotted(dotted)
    ensures LowerAll(ts + Tail(dotted)) == LowerAll(ts) + Tail(dotted)
  {
    if dotted != [] { DottedIsLower(dotted); }
  }

  lemma FormMeans(f: Form)
    requires ValidForm(f)
    ensures HexGroups(f.left) && HexGroups(f.right) && (f.dotted == [] || IsDotted(f.dotted))
    ensures |TailGroups(f.dotted)| == |TailValues(f.dotted)| == (if f.dotted == [] then 0 else 2)
    ensures if f.elided then |f.left| + |f.right| + |TailGroups(f.dotted)| <= 7
            else |f.left| + |TailGroups(f.dotted)| == 8 && f.right == []
  {
  }

  lemma GroupsUnfold(f: Form)
    requires ValidForm(f)
    ensures HexGroups(f.left) && HexGroups(f.right) && (f.dotted == [] || IsDotted(f.dotted))
    ensures var left, right := Values(f.left), Values(f.right) + TailValues(f.dotted);
      |left| + |right| <= 8 && Groups(f) == left + ZeroGroups(8 - |left| - |right|) + right
    ensures |Values(f.left)| == |f.left| && |Values(f.right)| == |f.right|
  {
  }

  lemma Concatenated(a: seq<Text>, b: seq<Text>)
    requires Hextets(a) && Hextets(b)
    ensures Hextets(a + b)
    ensures HexGroups(a) && HexGroups(b) && HexGroups(a + b) && Values(a + b) == Values(a) + Values(b)
  {
  }

  lemma LowerLength(ts: seq<Text>)
    ensures |LowerAll(ts)| == |ts|
  {
  }

  /** Groups and tail, in lower case, once the tail has become two groups. */
  lemma UndottedIs(ts: seq<Text>, dotted: seq<Text>, before: Text)
    requires (dotted == [] || IsDotted(dotted)) && (dotted != [] ==> |ts| > 0 || (|before| > 0 && before[|before| - 1] == COLON))
    requires Free(before + Join(ts, COLON), DOT)
    ensures Undotted(before + Join(ts + Tail(dotted), COLON)) == Some(before + Join(ts + TailGroups(dotted), COLON))
  {
    hide Undotted, Join, IsDotted, Free;
    if dotted == [] {
      assert ts + [] == ts;
      NoDots(before + Join(ts, COLON));
    } else {
      UndottedJoin(ts, dotted, before);
    }
  }

  /** A form with "::": lower case first, then the tail, then the groups. */
  lemma ElidedReads(f: Form)
    requires ValidForm(f) && f.elided
    ensures Ipv6Big(Render(f)) == Some(ValueFrom(Groups(f), 0))
  {
    hide *;
    FormMeans(f);
    var left, right, tail := LowerAll(f.left), LowerAll(f.right), TailGroups(f.dotted);
    LowerGroups(f.left);
    LowerGroups(f.right);
    LowerLength(f.left);
    LowerLength(f.right);
    TailGroupsRead(f.dotted);
    LowerRender(f);
    Ipv6Unfold(Render(f));
    PlainIsFree(left, right);
    UndottedIs(right, f.dotted, Join(left, COLON) + [COLON, COLON]);
    Concatenated(right, tail);
    ElidedPlain(left, right + tail);
    GroupsUnfold(f);
  }

  lemma PlainIsFree(left: seq<Text>, right: seq<Text>)
    requires Hextets(left) && Hextets(right)
    ensures Free(Join(left, COLON) + [COLON, COLON] + Join(right, COLON), DOT) && Free(Join(left, COLON), DOT)
  {
    HextetsAreFree(left);
    HextetsAreFree(right);
    JoinFree(left, COLON, DOT);
    JoinFree(right, COLON, DOT);
  }

  lemma LowerRender(f: Form)
    requires ValidForm(f)
    ensures Lower(Render(f)) ==
      if f.elided then Join(LowerAll(f.left), COLON) + [COLON, COLON] + Join(LowerAll(f.right) + Tail(f.dotted), COLON)
      else Join(LowerAll(f.left) + Tail(f.dotted), COLON)
  {
    if f.elided {
      LowerJoin(f.left, COLON);
      LowerJoin(f.right + Tail(f.dotted), COLON);
      LowerTail(f.right, f.dotted);
      LowerConcat(Join(f.left, COLON) + [COLON, COLON], Join(f.right + Tail(f.dotted), COLON));
      LowerConcat(Join(f.left, COLON), [COLON, COLON]);
      assert Lower([COLON, COLON]) == [COLON, COLON];
    } else {
      LowerJoin(f.left + Tail(f.dotted), COLON);
      LowerTail(f.left, f.dotted);
    }
  }

  lemma FullReads(f: Form)
    requires ValidForm(f) && !f.elided
    ensures Ipv6Big(Render(f)) == Some(ValueFrom(Groups(f), 0))
  {
    hide *;
    FormMeans(f);
    var left, tail := LowerAll(f.left), TailGroups(f.dotted);
    LowerGroups(f.left);
    LowerLength(f.left);
    TailGroupsRead(f.dotted);
    LowerRender(f);
    Ipv6Unfold(Render(f));
    NoZeros();
    PlainIsFree(left, []);
    assert [] + Join(left, COLON) == Join(left, COLON);
    UndottedIs(left, f.dotted, []);
    assert [] + Join(left + Tail(f.dotted), COLON) == Join(left + Tail(f.dotted), COLON);
    assert [] + Join(left + tail, COLON) == Join(left + tail, COLON);
    Concatenated(left, tail);
    FullPlain(left + tail);
    GroupsUnfold(f);
    assert Values(left + tail) == Values(f.left) + ZeroGroups(0) + (Values(f.right) + TailValues(f.dotted));
  }

  lemma NoZeros()
    ensures ZeroGroups(0) == [] && HexGroups([]) && Values([]) == [] && Hextets([])
  {
  }

  /** However an address is written, it is read as the number of its eight groups. */
  lemma EveryFormReads(f: Form)
    requires ValidForm(f)
    ensures Ipv6Big(Render(f)) == Some(ValueFrom(Groups(f), 0))
  {
    if f.elided { ElidedReads(f); } else { FullReads(f); }
  }

  lemma {:induction false} ValueInjective(g: seq<nat>, h: seq<nat>, m: nat, n: nat)
    requires |g| == |h| && (forall i :: 0 <= i < |g| ==> g[i] < 65536 && h[i] < 65536) && ValueFrom(g, m) == ValueFrom(h, n)
    ensures m == n && g == h
    decreases |g|
  {
    if |g| > 0 {
      ValueInjective(g[1..], h[1..], m * 65536 + g[0], n * 65536 + h[0]);
      assert g == [g[0]] + g[1..] && h == [h[0]] + h[1..];
    }
  }

  lemma {:induction false} HexValueBound(t: Text)
    requires forall i :: 0 <= i < |t| ==> IsHex(t[i])
    ensures HexValue(t) < Pow16(|t|)
  {
    if |t| > 0 { HexValueBound(t[..|t| - 1]); }
  }

  lemma GroupsFit(f: Form)
    requires ValidForm(f)
    ensures forall i :: 0 <= i < 8 ==> Groups(f)[i] < 65536
  {
    assert Pow16(1) == 16 && Pow16(2) == 256;
    assert Pow16(3) == 4096 && Pow16(4) == 65536;
    forall i | 0 <= i < |f.left| ensures Values(f.left)[i] < 65536 { HexValueBound(f.left[i]); }
    forall i | 0 <= i < |f.right| ensures Values(f.right)[i] < 65536 { HexValueBound(f.right[i]); }
    if f.dotted != [] { DottedFacts(f.dotted); }
  }

  /** Two ways of writing read as the same address exactly when they stand for the same groups. */
  lemma SameAddressExactlyWhenSameGroups(f: Form, g: Form)
    requires ValidForm(f) && ValidForm(g)
    ensures Ipv6Big(Render(f)) == Ipv6Big(Render(g)) <==> Groups(f) == Groups(g)
  {
    EveryFormReads(f);
    EveryFormReads(g);
    GroupsFit(f);
    GroupsFit(g);
    hide Groups, Ipv6Big, Render, ValueFrom, ValidForm;
    if Ipv6Big(Render(f)) == Ipv6Big(Render(g)) { ValueInjective(Groups(f), Groups(g), 0, 0); }
  }

  // ------------------------------------------------------------ IPv4 blocks

  function Block(octets: seq<Text>, prefix: nat): Text { Join(octets, DOT) + [SLASH] + Decimal(prefix) }

  lemma DottedHasNoSlash(octets: seq<Text>)
    requires IsDotted(octets)
    ensures Free(Join(octets, DOT), SLASH)
  {
    assert AllFree(octets, SLASH);
    hide IsDotted;
    JoinFree(octets, DOT, SLASH);
  }

  lemma TwoParts(a: Text, b: Text)
    requires Free(a, SLASH) && Free(b, SLASH)
    ensures Split(a + [SLASH] + b, SLASH) == [a, b] && Split(a, SLASH) == [a]
  {
    hide Split;
    var parts := [a, b];
    SplitJoin(parts, SLASH);
    SplitJoin([a], SLASH);
    assert parts[1..] == [b];
    assert Join(parts, SLASH) == a + ([SLASH] + b) == a + [SLASH] + b;
  }

  lemma BlockSplits(octets: seq<Text>, prefix: nat)
    requires IsDotted(octets)
    ensures Split(Block(octets, prefix), SLASH) == [Join(octets, DOT), Decimal(prefix)]
    ensures Split(Join(octets, DOT), SLASH) == [Join(octets, DOT)]
  {
    hide IsDotted, Join, Split, Decimal;
    DottedHasNoSlash(octets);
    TwoParts(Join(octets, DOT), Decimal(prefix));
  }

  lemma DottedIpValue(octets: seq<Text>, family: Text -> nat)
    requires IsDotted(octets) && family(Join(octets, DOT)) == 4
    ensures 0 <= OctetsValue(octets) < 0x1_0000_0000
    ensures IpValue(Join(octets, DOT), family) == Some(Address(32, OctetsValue(octets)))
  {
    DottedFacts(octets);
    assert IsDigit(Join(octets, DOT)[0]);
    assert !(T("::ffff:") <= Join(octets, DOT));
  }

  lemma Pow32()
    ensures Pow2(32) == 0x1_0000_0000
  {
    assert Pow2(8) == 256;
    assert Pow2(16) == 65536;
    assert Pow2(24) == 0x100_0000;
  }

  lemma OctetCount(octets: seq<Text>)
    requires IsDotted(octets)
    ensures |octets| == 4
  {
  }

  /** Dotted block and address texts: contained exactly when the address lies in the aligned block. */
  lemma DottedBlockMeans(block: seq<Text>, prefix: nat, address: seq<Text>, family: Text -> nat)
    requires IsDotted(block) && IsDotted(address) && prefix <= 32
    requires family(Join(block, DOT)) == 4 && family(Join(address, DOT)) == 4
    ensures ValidCidr(Block(block, prefix), family) && 0 <= OctetsValue(block) && 0 <= OctetsValue(address)
    ensures CidrContains(Block(block, prefix), Join(address, DOT), family) <==>
      BlockStart(32, prefix, OctetsValue(block)) <= OctetsValue(address) < BlockStart(32, prefix, OctetsValue(block)) + Pow2(32 - prefix)
  {
    hide Join, Split, IpValue, BlockStart, Pow2, OctetsValue, NumberOf, Block, Matches, IsDotted, DecimalValue, Decimal;
    OctetCount(block);
    OctetCount(address);
    BlockSplits(block, prefix);
    DottedIpValue(block, family);
    DottedIpValue(address, family);
    DigitsAreTrimmed(Decimal(prefix));
    DecimalRoundTrip(prefix);
    Pow32();
    MatchesExactlyInBlock(32, prefix, OctetsValue(block), OctetsValue(address));
  }

  // ---------------------------------------------------------- every block

  lemma {:induction false} Shifted(k: nat, n: nat)
    ensures Pow2(k + n) == Pow2(k) * Pow2(n)
  {
    if n > 0 {
      Shifted(k, n - 1);
      assert Pow2(k) * (2 * Pow2(n - 1)) == 2 * (Pow2(k) * Pow2(n - 1));
    } else {
      assert Pow2(k) * 1 == Pow2(k);
    }
  }

  lemma Below(n: nat, high: nat, digit: nat, base: nat)
    requires n < high && digit < base
    ensures n * base + digit < high * base
  {
    MulOrder(n, high, base);
  }

  lemma HextetFits(t: Text)
    requires IsHextet(t)
    ensures (forall i :: 0 <= i < |t| ==> IsHex(t[i])) && HexValue(t) < 65536
  {
    HexValueBound(t);
    assert Pow16(1) == 16 && Pow16(2) == 256;
    assert Pow16(3) == 4096 && Pow16(4) == 65536;
  }

  lemma PowersOfBytes()
    ensures Pow2(8) == 256 && Pow2(16) == 65536
  {
    assert Pow2(4) == 16;
    assert Pow2(8) == 256;
    assert Pow2(12) == 4096;
  }

  /** Each group adds sixteen bits. */
  lemma {:induction false} Ipv6PartsBound(parts: seq<Text>, n: nat, k: nat)
    requires n < Pow2(k) && Ipv6Parts(parts, n).Some?
    ensures Ipv6Parts(parts, n).value < Pow2(k + 16 * |parts|)
    decreases |parts|
  {
    if |parts| > 0 {
      HextetFits(parts[0]);
      PowersOfBytes();
      Shifted(k, 16);
      hide Pow2, HexValue, IsHextet;
      Below(n, Pow2(k), HexValue(parts[0]), 65536);
      Ipv6PartsBound(parts[1..], n * 65536 + HexValue(parts[0]), k + 16);
    }
  }

  lemma Ipv4Step(parts: seq<Text>, n: nat)
    requires |parts| > 0 && Ipv4Parts(parts, n).Some?
    ensures var v := NumberOf(parts[0]);
      v.Some? && 0 <= v.value <= 255 && Ipv4Parts(parts, n) == Ipv4Parts(parts[1..], n * 256 + v.value)
  {
    hide NumberOf;
  }

  lemma {:induction false} Ipv4PartsBound(parts: seq<Text>, n: nat, k: nat)
    requires n < Pow2(k) && Ipv4Parts(parts, n).Some?
    ensures Ipv4Parts(parts, n).value < Pow2(k + 8 * |parts|)
    decreases |parts|
  {
    hide NumberOf;
    if |parts| > 0 {
      Ipv4Step(parts, n);
      PowersOfBytes();
      Shifted(k, 8);
      hide Pow2, Ipv4Parts;
      var v := NumberOf(parts[0]).value;
      Below(n, Pow2(k), v, 256);
      Ipv4PartsBound(parts[1..], n * 256 + v, k + 8);
    }
  }

  lemma EightGroupsFit(parts: seq<Text>)
    requires |parts| == 8 && Ipv6Parts(parts, 0).Some?
    ensures Ipv6Parts(parts, 0).value < Pow2(128)
  {
    assert 0 < Pow2(0);
    hide Ipv6Parts, Pow2;
    Ipv6PartsBound(parts, 0, 0);
  }

  lemma PlainFits(t: Text)
    requires AfterUndotting(t).Some?
    ensures AfterUndotting(t).value < Pow2(128)
  {
    hide SplitDouble, GroupsOf, Zeros, Ipv6Parts, Pow2;
    var halves := SplitDouble(t);
    var left, right := GroupsOf(halves[0]), if |halves| == 2 then GroupsOf(halves[1]) else [];
    ZerosSize(8 - |left| - |right|);
    EightGroupsFit(left + Zeros(8 - |left| - |right|) + right);
  }

  /** Whatever text is read as an IPv6 address is read as a number below 2^128. */
  lemma Ipv6Fits(t: Text)
    requires Ipv6Big(t).Some?
    ensures Ipv6Big(t).value < Pow2(128)
  {
    hide *;
    Ipv6Unfold(t);
    PlainFits(Undotted(Lower(t)).value);
  }

  lemma ZerosSize(n: nat)
    ensures |Zeros(n)| == n
  {
  }

  lemma Ipv4Fits(t: Text)
    requires Ipv4Big(t).Some?
    ensures Ipv4Big(t).value < Pow2(32)
  {
    hide Ipv4Parts, Split, Pow2;
    assert 0 < Pow2(0);
    Ipv4PartsBound(Split(t, DOT), 0, 0);
  }

  lemma AddressFits(t: Text, family: Text -> nat)
    requires IpValue(t, family).Some?
    ensures IpValue(t, family).value.value < Pow2(IpValue(t, family).value.bits)
  {
    hide Ipv4Big, Ipv6Big, Pow2, T;
    var prefix := T("::ffff:");
    var clean := if prefix <= t then t[|prefix|..] else t;
    if Ipv4Big(clean).Some? { Ipv4Fits(clean); }
    if Ipv6Big(clean).Some? { Ipv6Fits(clean); }
  }

  /** A valid block text, of either family, contains an address text exactly when it reads into the aligned block. */
  lemma BlockTextMeans(cidr: Text, ip: Text, family: Text -> nat)
    requires ValidCidr(cidr, family)
    ensures var network := IpValue(Split(cidr, SLASH)[0], family).value;
      var prefix: nat := PrefixOf(cidr, network.bits).value;
      var start, candidate := BlockStart(network.bits, prefix, network.value), IpValue(ip, family);
      CidrContains(cidr, ip, family) <==>
        candidate.Some? && candidate.value.bits == network.bits
        && start <= candidate.value.value < start + Pow2(network.bits - prefix)
  {
    hide IpValue, Split, Pow2, BlockStart, NumberOf, Matches;
    AddressFits(Split(cidr, SLASH)[0], family);
    var network := IpValue(Split(cidr, SLASH)[0], family).value;
    var prefix: nat := PrefixOf(cidr, network.bits).value;
    var candidate := IpValue(ip, family);
    if candidate.Some? && candidate.value.bits == network.bits {
      AddressFits(ip, family);
      MatchesExactlyInBlock(network.bits, prefix, network.value, candidate.value.value);
    }
  }

  const MAPPED: Text := T("::ffff:")

  /** With that prefix, what follows decides: a dotted address is read as IPv4, and groups alone are no address. */
  lemma MappedAddress(rest: Text, family: Text -> nat)
    ensures IpValue(MAPPED + rest, family) ==
      if family(rest) == 4 then (if Ipv4Big(rest).Some? then Some(Address(32, Ipv4Big(rest).value)) else None)
      else if family(rest) == 6 then (if Ipv6Big(rest).Some? then Some(Address(128, Ipv6Big(rest).value)) else None)
      else None
  {
    hide Ipv4Big, Ipv6Big, T;
    assert (MAPPED + rest)[|MAPPED|..] == rest;
  }

  lemma PartsAreFree(ts: seq<Text>, dotted: seq<Text>)
    requires HexGroups(ts) && (dotted == [] || IsDotted(dotted))
    ensures AllFree(ts + Tail(dotted), COLON)
  {
    if dotted != [] {
      DottedFacts(dotted);
      assert Join(dotted, DOT) != [];
    }
  }

  lemma JoinHead(ts: seq<Text>)
    requires |ts| > 0
    ensures Join(ts, COLON) == ts[0] + if |ts| == 1 then [] else [COLON] + Join(ts[1..], COLON)
  {
    assert ts[0] + [] == ts[0];
  }

  /** Only an elided form without groups in front starts with a colon. */
  lemma RenderStarts(f: Form)
    requires ValidForm(f)
    ensures |Render(f)| > 0 && (Render(f)[0] == COLON ==> f.elided && f.left == [])
  {
    PartsAreFree(f.left, f.dotted);
    PartsAreFree(f.left, []);
    assert f.left + [] == f.left;
    var ts := if f.elided then f.left else f.left + Tail(f.dotted);
    if |ts| > 0 {
      JoinHead(ts);
      assert Join(ts, COLON)[0] == ts[0][0];
    }
    hide Join;
  }

  /** A list of groups written with ffff and a colon in front has ffff as its first group, and others. */
  lemma FirstOfMany(ts: seq<Text>)
    requires AllFree(ts, COLON) && |Join(ts, COLON)| > 4 && Join(ts, COLON)[4] == COLON
    requires forall i :: 0 <= i < 4 ==> Join(ts, COLON)[i] != COLON
    ensures |ts| > 1 && Join(ts, COLON)[5..] == Join(ts[1..], COLON)
  {
    assert ts == [] ==> Join(ts, COLON) == [];
    JoinHead(ts);
    var t, n := Join(ts, COLON), |ts[0]|;
    forall i | 0 <= i < n ensures t[i] == ts[0][i] != COLON {}
    assert |ts| > 1 ==> t[n] == COLON;
    hide Join;
  }

  lemma MappedUnits()
    ensures |MAPPED| == 7 && MAPPED[0] == COLON == MAPPED[1] == MAPPED[6]
    ensures forall i :: 2 <= i < 6 ==> MAPPED[i] == U('f') != COLON
  {
    assert MAPPED == [COLON, COLON, U('f'), U('f'), U('f'), U('f'), COLON];
  }

  /** With the prefix of mapped addresses a form is elided, and what follows the prefix are its other groups. */
  lemma MappedForm(f: Form)
    requires ValidForm(f) && MAPPED <= Render(f)
    ensures f.elided && f.left == [] && |f.right| > 0 && |f.right + Tail(f.dotted)| > 1
    ensures Render(f)[|MAPPED|..] == Join(f.right[1..] + Tail(f.dotted), COLON)
  {
    var t, items := Render(f), f.right + Tail(f.dotted);
    MappedUnits();
    assert forall i :: 0 <= i < 7 ==> t[i] == MAPPED[i];
    RenderStarts(f);
    PartsAreFree(f.right, f.dotted);
    hide AllFree, Join, HexGroups, IsDotted, T;
    assert Join([], COLON) == [] by { NothingJoined(); }
    assert t == [COLON, COLON] + Join(items, COLON);
    assert forall i :: 0 <= i < 5 ==> Join(items, COLON)[i] == t[i + 2];
    FirstOfMany(items);
    assert |f.right| > 0;
    assert items[1..] == f.right[1..] + Tail(f.dotted);
    assert t[7..] == Join(items, COLON)[5..];
  }

  lemma NothingJoined()
    ensures Join([], COLON) == []
  {
  }

  /** Other than eight groups without "::" are no address. */
  lemma WrongNumberOfGroups(parts: seq<Text>)
    requires AllFree(parts, COLON) && |parts| != 8
    ensures AfterUndotting(Join(parts, COLON)) == None
  {
    hide AllFree, Join, SplitDouble, GroupsOf, Ipv6Parts, Tidy;
    JoinIsTidy(parts);
    TidyHasNoDouble(Join(parts, COLON));
    GroupsOfJoin(parts);
  }

  /** Without a colon the rewriting cuts off the last unit instead. */
  lemma UndottedAlone(octets: seq<Text>)
    requires IsDotted(octets)
    ensures 0 <= OctetsValue(octets) && |Join(octets, DOT)| > 1 && Lower(Join(octets, DOT)) == Join(octets, DOT)
    ensures var w := Join(octets, DOT);
      Undotted(w) == Some(w[..|w| - 1] + [COLON] + Hex(OctetsValue(octets) / 65536) + [COLON] + Hex(OctetsValue(octets) % 65536))
  {
    var w := Join(octets, DOT);
    OctetsLong(octets);
    DottedFacts(octets);
    DottedIsLower(octets);
    hide Join, Hex, Ipv4Big, IsDotted, Lower, OctetsValue;
    assert AfterLastColon(w) == 0 && w[0..] == w;
  }

  lemma ThreeParts(a: Text, x: Text, y: Text)
    requires a != [] && Free(a, COLON) && Hextets([x, y])
    ensures AllFree([a, x, y], COLON) && Join([a, x, y], COLON) == a + [COLON] + x + [COLON] + y
  {
    HextetsAreFree([x, y]);
    assert [a, x, y][1] == [x, y][0] && [a, x, y][2] == [x, y][1];
    assert [a, x, y][1..] == [x, y];
    hide Join, Hextets;
    JoinTwo(x, y);
    JoinHead([a, x, y]);
    assert a + ([COLON] + (x + ([COLON] + y))) == a + [COLON] + x + [COLON] + y;
  }

  /** Four octets alone: what the rewriting leaves are three groups. */
  lemma OctetsAlone(octets: seq<Text>)
    requires IsDotted(octets)
    ensures Ipv6Big(Join(octets, DOT)) == None
  {
    hide Undotted, Join, Hex, Ipv4Big, Ipv6Big, IsDotted, OctetsValue, AllFree, Lower;
    OctetCount(octets);
    UndottedAlone(octets);
    DottedFacts(octets);
    var w, v := Join(octets, DOT), OctetsValue(octets);
    HexIsHextet(v / 65536);
    HexIsHextet(v % 65536);
    Ipv6Unfold(w);
    ThreeParts(w[..|w| - 1], Hex(v / 65536), Hex(v % 65536));
    WrongNumberOfGroups([w[..|w| - 1], Hex(v / 65536), Hex(v % 65536)]);
  }

  lemma OctetsLong(octets: seq<Text>)
    requires IsDotted(octets)
    ensures |Join(octets, DOT)| > 1
  {
  }

  /** At most seven groups, without "::", are no address. */
  lemma TooFewGroups(ts: seq<Text>, dotted: seq<Text>)
    requires HexGroups(ts) && (dotted == [] || IsDotted(dotted))
    requires |ts| + (if dotted == [] then 0 else 2) < 8
    ensures Ipv6Big(Join(ts + Tail(dotted), COLON)) == None
  {
    if |ts| == 0 && dotted != [] {
      TailUnfold(dotted);
      assert ts + Tail(dotted) == [Join(dotted, DOT)];
      OctetsAlone(dotted);
      hide *;
      JoinTwo(Join(dotted, DOT), []);
    } else {
      var text := Join(ts + Tail(dotted), COLON);
      assert LowerUnit(COLON) == COLON;
      LowerJoin(ts + Tail(dotted), COLON);
      hide *;
      var plain, tail := LowerAll(ts), TailGroups(dotted);
      LowerTail(ts, dotted);
      LowerGroups(ts);
      LowerLength(ts);
      TailGroupsRead(dotted);
      TailCount(dotted);
      Ipv6Unfold(text);
      NoZeros();
      PlainIsFree(plain, []);
      assert [] + Join(plain, COLON) == Join(plain, COLON);
      UndottedIs(plain, dotted, []);
      assert [] + Join(plain + Tail(dotted), COLON) == Join(plain + Tail(dotted), COLON);
      assert [] + Join(plain + tail, COLON) == Join(plain + tail, COLON);
      Concatenated(plain, tail);
      HextetsAreFree(plain + tail);
      WrongNumberOfGroups(plain + tail);
    }
  }

  lemma TailCount(dotted: seq<Text>)
    requires dotted == [] || IsDotted(dotted)
    ensures |TailGroups(dotted)| == if dotted == [] then 0 else 2
  {
  }

  /** What follows the prefix is never an IPv6 address of its own. */
  lemma RestIsNoIpv6(f: Form)
    requires ValidForm(f) && MAPPED <= Render(f)
    ensures Ipv6Big(Render(f)[|MAPPED|..]) == None
  {
    MappedForm(f);
    assert HexGroups(f.right[1..]);
    hide Ipv6Big, Render, Join, HexGroups, IsDotted;
    TooFewGroups(f.right[1..], f.dotted);
  }

  /**
   * A way of writing an IPv6 address is read as its 128-bit number exactly when
   * it does not begin with the prefix of mapped addresses in lower case; and it
   * is not read at all exactly when it does, and no IPv4 address follows.
   */
  lemma FormAddress(f: Form, family: Text -> nat)
    requires ValidForm(f) && family(Render(f)) == 6
    ensures IpValue(Render(f), family) == Some(Address(128, ValueFrom(Groups(f), 0))) <==> !(MAPPED <= Render(f))
    ensures IpValue(Render(f), family) == None <==>
      && MAPPED <= Render(f)
      && var rest := Render(f)[|MAPPED|..]; !(family(rest) == 4 && Ipv4Big(rest).Some?)
  {
    EveryFormReads(f);
    if MAPPED <= Render(f) { RestIsNoIpv6(f); }
    hide Ipv4Big, Ipv6Big, Render, Groups, ValueFrom;
    if MAPPED <= Render(f) {
      var rest := Render(f)[|MAPPED|..];
      assert Render(f) == MAPPED + rest;
      MappedAddress(rest, family);
    }
  }

  /** The address ::ffff:1:2 is valid and stands for eight groups, but is not read once its prefix is gone. */
  lemma HexadecimalMappedIsNotRead(family: Text -> nat)
    requires family(T("1:2")) == 0
    ensures var f := Form([], true, [T("ffff"), T("1"), T("2")], []);
      ValidForm(f) && Render(f) == MAPPED + T("1:2") && Ipv6Big(Render(f)).Some? && IpValue(Render(f), family) == None
  {
    var f := Form([], true, [T("ffff"), T("1"), T("2")], []);
    var one, two := T("1"), T("2");
    assert [T("ffff"), one, two][1..] == [one, two] && [one, two][1..] == [two];
    assert f.right + Tail([]) == f.right;
    assert Join([one, two], COLON) == one + ([COLON] + two) == T("1:2");
    assert Render(f) == [] + [COLON, COLON] + (T("ffff") + ([COLON] + T("1:2")));
    assert Render(f) == MAPPED + T("1:2");
    assert ValidForm(f) by { assert HexGroup(T("ffff")) && HexGroup(one) && HexGroup(two); }
    EveryFormReads(f);
    MappedAddress(T("1:2"), family);
    hide Ipv6Big, Render, Groups, IpValue;
  }
}
