/**
 * Infrastructure manifests: the canonical form that is checksummed, and the
 * separate walk over two trees that lists the paths where they drift apart.
 */
module Iac {
  import opened Outcome
  import opened JsText

  /** Objects keep the order of their keys; Num stands for any finite number. */
  datatype Json = Null | Bool(b: bool) | Num(n: int) | Str(s: Text) | Arr(items: seq<Json>) | Obj(fields: seq<Field>)

  datatype Field = Field(key: Text, value: Json)

  function GeneratedAt(): Text { T("generatedAt") }

  function Length(): Text { T("length") }

  // ---------------------------------------------------- the order of keys

  /** An array index below 2^32 - 1, written without leading zeros. */
  predicate IsIndex(t: Text) {
    && |t| > 0 && (forall i :: 0 <= i < |t| ==> IsDigit(t[i])) && (t[0] == U('0') ==> |t| == 1)
    && DecimalValue(t) < 0xFFFF_FFFF
  }

  /** How sorted keys are enumerated: indices first, in numeric order, then the others by code units. */
  predicate KeyLess(a: Text, b: Text) {
    if IsIndex(a) && IsIndex(b) then DecimalValue(a) < DecimalValue(b)
    else if IsIndex(a) then true
    else !IsIndex(b) && Less(a, b)
  }

  lemma {:induction false} DecimalOfValue(t: Text)
    requires |t| > 0 && (forall i :: 0 <= i < |t| ==> IsDigit(t[i])) && (t[0] == U('0') ==> |t| == 1)
    ensures DecimalValue(t) >= 0 && Decimal(DecimalValue(t)) == t && (|t| > 1 ==> DecimalValue(t) >= 10)
  {
    var last := t[|t| - 1];
    assert IsDigit(last);
    if |t| == 1 {
      assert t[..0] == [];
    } else {
      var front := t[..|t| - 1];
      DecimalOfValue(front);
      assert front[0] == t[0] != U('0') && Decimal(0)[0] == U('0');
      assert DecimalValue(front) >= 1;
      assert (DecimalValue(front) * 10 + (last - U('0'))) / 10 == DecimalValue(front);
    }
  }

  lemma KeyLessTotal(a: Text, b: Text)
    ensures a == b || KeyLess(a, b) || KeyLess(b, a)
  {
    if IsIndex(a) && IsIndex(b) {
      DecimalOfValue(a);
      DecimalOfValue(b);
    }
    LessTotal(a, b);
  }

  lemma KeyLessTransitive(a: Text, b: Text, c: Text)
    requires KeyLess(a, b) && KeyLess(b, c)
    ensures KeyLess(a, c)
  {
    if Less(a, b) && Less(b, c) { LessTransitive(a, b, c); }
  }

  lemma KeyLessIrreflexive(a: Text)
    ensures !KeyLess(a, a)
  {
    LessIrreflexive(a);
  }

  /** Every object enumerates the keys that are indices first, and those in numeric order. */
  predicate IndicesFirst(fs: seq<Field>) {
    forall i, j :: 0 <= i < j < |fs| && IsIndex(fs[j].key) ==> KeyLess(fs[i].key, fs[j].key)
  }

  predicate DistinctKeys(fs: seq<Field>) { forall i, j :: 0 <= i < j < |fs| ==> fs[i].key != fs[j].key }

  /** A value JSON.parse can give: no object has a key twice, and its indices come first. */
  ghost predicate Valid(v: Json) {
    match v
    case Arr(items) => forall i :: 0 <= i < |items| ==> Valid(items[i])
    case Obj(fs) => DistinctKeys(fs) && IndicesFirst(fs) && forall i :: 0 <= i < |fs| ==> Valid(fs[i].value)
    case _ => true
  }

  // ----------------------------------------------------------- canonical

  function InsertField(f: Field, fs: seq<Field>): seq<Field> {
    if |fs| == 0 || KeyLess(f.key, fs[0].key) then [f] + fs else [fs[0]] + InsertField(f, fs[1..])
  }

  function Canonical(v: Json): Json
    decreases v, 0
  {
    match v
    case Arr(items) => Arr(CanonicalItems(items))
    case Obj(fs) => Obj(CanonicalFields(fs))
    case _ => v
  }

  function CanonicalItems(items: seq<Json>): (r: seq<Json>)
    ensures |r| == |items|
    decreases items, 1
  {
    if |items| == 0 then [] else [Canonical(items[0])] + CanonicalItems(items[1..])
  }

  /** Without generatedAt, sorted by key as enumerated, the values canonical. */
  function CanonicalFields(fs: seq<Field>): seq<Field>
    decreases fs, 1
  {
    if |fs| == 0 then []
    else
      assert fs[0].value < fs[0];
      if fs[0].key == GeneratedAt() then CanonicalFields(fs[1..])
      else InsertField(Field(fs[0].key, Canonical(fs[0].value)), CanonicalFields(fs[1..]))
  }

  function Lookup(fs: seq<Field>, key: Text): (r: Option<Json>)
    ensures r.Some? ==> exists i :: 0 <= i < |fs| && fs[i] == Field(key, r.value)
    ensures r.None? ==> forall i :: 0 <= i < |fs| ==> fs[i].key != key
  {
    if |fs| == 0 then None else if fs[0].key == key then Some(fs[0].value) else Lookup(fs[1..], key)
  }

  // ------------------------------------------ sameness, defined directly

  /** Equal up to the order of keys and up to generatedAt, at every depth. */
  ghost predicate Same(v: Json, w: Json)
    decreases v, 0
  {
    match v
    case Arr(items) => w.Arr? && SameItems(items, w.items)
    case Obj(fs) => w.Obj? && SameFields(fs, w.fields) && Covers(fs, w.fields)
    case _ => v == w
  }

  ghost predicate SameItems(a: seq<Json>, b: seq<Json>)
    decreases a, 1
  {
    |a| == |b| && (|a| > 0 ==> Same(a[0], b[0]) && SameItems(a[1..], b[1..]))
  }

  /** Every field of fs that counts has its equal in gs. */
  ghost predicate SameFields(fs: seq<Field>, gs: seq<Field>)
    decreases fs, 1
  {
    |fs| > 0 ==>
      (assert fs[0].value < fs[0];
       fs[0].key != GeneratedAt() ==> Lookup(gs, fs[0].key).Some? && Same(fs[0].value, Lookup(gs, fs[0].key).value))
      && SameFields(fs[1..], gs)
  }

  /** Every key of gs that counts occurs in fs. */
  ghost predicate Covers(fs: seq<Field>, gs: seq<Field>) {
    forall i :: 0 <= i < |gs| && gs[i].key != GeneratedAt() ==> Lookup(fs, gs[i].key).Some?
  }

  // ------------------------------------------------------------ the order

  predicate Sorted(fs: seq<Field>) { forall i, j :: 0 <= i < j < |fs| ==> KeyLess(fs[i].key, fs[j].key) }

  lemma {:induction false} InsertKeepsSorted(f: Field, fs: seq<Field>)
    requires Sorted(fs) && forall i :: 0 <= i < |fs| ==> fs[i].key != f.key
    ensures Sorted(InsertField(f, fs)) && |InsertField(f, fs)| == |fs| + 1
    ensures forall i :: 0 <= i <= |fs| ==> InsertField(f, fs)[i] == f || InsertField(f, fs)[i] in fs
  {
    if |fs| > 0 {
      if KeyLess(f.key, fs[0].key) {
        forall j | 0 <= j < |fs| ensures KeyLess(f.key, fs[j].key) {
          if j > 0 { KeyLessTransitive(f.key, fs[0].key, fs[j].key); }
        }
      } else {
        KeyLessTotal(f.key, fs[0].key);
        InsertKeepsSorted(f, fs[1..]);
        var r := InsertField(f, fs[1..]);
        forall j | 0 <= j < |r| ensures KeyLess(fs[0].key, r[j].key) {
          if r[j] != f { var k :| 0 <= k < |fs[1..]| && fs[1..][k] == r[j]; assert fs[k + 1] == r[j]; }
        }
      }
    }
  }

  lemma {:induction false} LookupInsert(f: Field, fs: seq<Field>, key: Text)
    requires forall i :: 0 <= i < |fs| ==> fs[i].key != f.key
    ensures Lookup(InsertField(f, fs), key) == if key == f.key then Some(f.value) else Lookup(fs, key)
  {
    if |fs| > 0 && !KeyLess(f.key, fs[0].key) { LookupInsert(f, fs[1..], key); }
    if |fs| == 0 || KeyLess(f.key, fs[0].key) { assert ([f] + fs)[1..] == fs; }
  }

  /** Two sorted lists with the same value at every key are the same list. */
  lemma {:induction false} SortedUnique(fs: seq<Field>, gs: seq<Field>)
    requires Sorted(fs) && Sorted(gs) && forall key :: Lookup(fs, key) == Lookup(gs, key)
    ensures fs == gs
  {
    if |fs| == 0 {
      assert |gs| > 0 ==> Lookup(gs, gs[0].key).Some?;
    } else {
      SortedHead(fs, gs);
      forall key ensures Lookup(fs[1..], key) == Lookup(gs[1..], key) {
        SortedTail(fs, key);
        SortedTail(gs, key);
      }
      SortedUnique(fs[1..], gs[1..]);
      assert fs == [fs[0]] + fs[1..] && gs == [gs[0]] + gs[1..];
    }
  }

  lemma SortedHead(fs: seq<Field>, gs: seq<Field>)
    requires Sorted(fs) && Sorted(gs) && |fs| > 0 && forall key :: Lookup(fs, key) == Lookup(gs, key)
    ensures |gs| > 0 && fs[0] == gs[0]
  {
    assert Lookup(fs, fs[0].key) == Lookup(gs, fs[0].key) == Some(fs[0].value);
    var i :| 0 <= i < |gs| && gs[i] == Field(fs[0].key, fs[0].value);
    assert Lookup(gs, gs[0].key) == Lookup(fs, gs[0].key) == Some(gs[0].value);
    var j :| 0 <= j < |fs| && fs[j] == Field(gs[0].key, gs[0].value);
    if i > 0 && j > 0 {
      KeyLessTransitive(fs[0].key, fs[j].key, fs[0].key);
      KeyLessIrreflexive(fs[0].key);
    }
  }

  lemma SortedTail(fs: seq<Field>, key: Text)
    requires Sorted(fs) && |fs| > 0
    ensures Lookup(fs[1..], key) == if key == fs[0].key then None else Lookup(fs, key)
  {
    if key == fs[0].key && Lookup(fs[1..], key).Some? {
      var i :| 0 <= i < |fs[1..]| && fs[1..][i].key == key;
      assert fs[i + 1].key == key;
      KeyLessIrreflexive(key);
    }
  }

  // ---------------------------------------- what canonical fields look up

  lemma {:induction false} CanonicalLookup(fs: seq<Field>, key: Text)
    requires DistinctKeys(fs)
    ensures Lookup(CanonicalFields(fs), key) ==
      if key == GeneratedAt() || Lookup(fs, key).None? then None else Some(Canonical(Lookup(fs, key).value))
    ensures Sorted(CanonicalFields(fs))
    ensures forall i :: 0 <= i < |CanonicalFields(fs)| ==> exists j :: 0 <= j < |fs| && fs[j].key == CanonicalFields(fs)[i].key
  {
    if |fs| > 0 {
      hide Sorted, Canonical, InsertField, KeyLess;
      var rest := CanonicalFields(fs[1..]);
      CanonicalLookup(fs[1..], key);
      forall i | 0 <= i < |rest| ensures exists j :: 0 < j < |fs| && fs[j].key == rest[i].key {
        var j :| 0 <= j < |fs[1..]| && fs[1..][j].key == rest[i].key;
        assert fs[j + 1].key == rest[i].key;
      }
      if fs[0].key != GeneratedAt() {
        var f := Field(fs[0].key, Canonical(fs[0].value));
        InsertKeepsSorted(f, rest);
        LookupInsert(f, rest, key);
        var r := InsertField(f, rest);
        forall i | 0 <= i < |r| ensures exists j :: 0 <= j < |fs| && fs[j].key == r[i].key {
          if r[i] == f { assert fs[0].key == r[i].key; } else { var k :| 0 <= k < |rest| && rest[k] == r[i]; }
        }
      }
    }
  }

  // ----------------------------------------- canonical forms and sameness

  ghost predicate KeySame(fs: seq<Field>, gs: seq<Field>, key: Text) {
    var x, y := Lookup(fs, key), Lookup(gs, key);
    key == GeneratedAt() || (x.None? && y.None?) || (x.Some? && y.Some? && Same(x.value, y.value))
  }

  lemma {:induction false} LookupAt(fs: seq<Field>, i: nat)
    requires DistinctKeys(fs) && i < |fs|
    ensures Lookup(fs, fs[i].key) == Some(fs[i].value)
  {
    if i > 0 { LookupAt(fs[1..], i - 1); }
  }

  lemma {:induction false} SameFieldsMean(fs: seq<Field>, gs: seq<Field>)
    ensures SameFields(fs, gs) <==> forall i :: 0 <= i < |fs| && fs[i].key != GeneratedAt() ==>
      Lookup(gs, fs[i].key).Some? && Same(fs[i].value, Lookup(gs, fs[i].key).value)
  {
    if |fs| > 0 {
      SameFieldsMean(fs[1..], gs);
      assert forall i :: 0 < i < |fs| ==> fs[1..][i - 1] == fs[i];
    }
  }

  /** Objects are the same when they agree at every key. */
  lemma SameObjects(fs: seq<Field>, gs: seq<Field>)
    requires DistinctKeys(fs)
    ensures Same(Obj(fs), Obj(gs)) <==> forall key :: KeySame(fs, gs, key)
  {
    hide Same;
    assert Same(Obj(fs), Obj(gs)) <==> SameFields(fs, gs) && Covers(fs, gs) by { SameUnfold(fs, gs); }
    SameFieldsMean(fs, gs);
    if SameFields(fs, gs) && Covers(fs, gs) {
      forall key ensures KeySame(fs, gs, key) {
        if Lookup(fs, key).Some? {
          var i :| 0 <= i < |fs| && fs[i] == Field(key, Lookup(fs, key).value);
          assert fs[i].key == key;
        } else if Lookup(gs, key).Some? {
          var j :| 0 <= j < |gs| && gs[j] == Field(key, Lookup(gs, key).value);
        }
      }
    }
    if forall key :: KeySame(fs, gs, key) {
      forall i | 0 <= i < |fs| && fs[i].key != GeneratedAt()
        ensures Lookup(gs, fs[i].key).Some? && Same(fs[i].value, Lookup(gs, fs[i].key).value)
      {
        LookupAt(fs, i);
        assert KeySame(fs, gs, fs[i].key);
      }
      forall j | 0 <= j < |gs| && gs[j].key != GeneratedAt() ensures Lookup(fs, gs[j].key).Some? {
        assert KeySame(fs, gs, gs[j].key);
      }
    }
  }

  lemma SameUnfold(fs: seq<Field>, gs: seq<Field>)
    ensures Same(Obj(fs), Obj(gs)) <==> SameFields(fs, gs) && Covers(fs, gs)
  {
  }

  lemma CanonicalSorted(fs: seq<Field>)
    requires DistinctKeys(fs)
    ensures Sorted(CanonicalFields(fs)) && DistinctKeys(CanonicalFields(fs))
  {
    CanonicalLookup(fs, []);
    var r := CanonicalFields(fs);
    forall i, j | 0 <= i < j < |r| ensures r[i].key != r[j].key { KeyLessIrreflexive(r[i].key); }
  }

  ghost predicate SameLookups(fs: seq<Field>, gs: seq<Field>) { forall key :: Lookup(fs, key) == Lookup(gs, key) }

  lemma SortedEqual(fs: seq<Field>, gs: seq<Field>)
    requires Sorted(fs) && Sorted(gs)
    ensures fs == gs <==> SameLookups(fs, gs)
  {
    hide Sorted, KeyLess, Lookup;
    if SameLookups(fs, gs) { SortedUnique(fs, gs); }
  }

  /** Two trees have equal canonical forms exactly when they are the same up to key order and generatedAt. */
  lemma {:induction false} CanonicalExactlyWhenSame(v: Json, w: Json)
    requires Valid(v) && Valid(w)
    ensures Canonical(v) == Canonical(w) <==> Same(v, w)
    decreases v, 1
  {
    if v.Arr? && w.Arr? {
      ItemsExactlyWhenSame(v.items, w.items);
    } else if v.Obj? && w.Obj? {
      ObjectsExactlyWhenSame(v.fields, w.fields, v, w);
    }
  }

  lemma {:induction false} ItemsExactlyWhenSame(a: seq<Json>, b: seq<Json>)
    requires (forall i :: 0 <= i < |a| ==> Valid(a[i])) && (forall i :: 0 <= i < |b| ==> Valid(b[i]))
    ensures CanonicalItems(a) == CanonicalItems(b) <==> SameItems(a, b)
    decreases a, 2
  {
    if |a| > 0 && |b| > 0 {
      CanonicalExactlyWhenSame(a[0], b[0]);
      ItemsExactlyWhenSame(a[1..], b[1..]);
      assert CanonicalItems(a)[1..] == CanonicalItems(a[1..]) && CanonicalItems(b)[1..] == CanonicalItems(b[1..]);
    }
  }

  lemma ValidLookup(v: Json, key: Text)
    requires Valid(v) && v.Obj? && Lookup(v.fields, key).Some?
    ensures Lookup(v.fields, key).value < v && Valid(Lookup(v.fields, key).value)
  {
    var i :| 0 <= i < |v.fields| && v.fields[i] == Field(key, Lookup(v.fields, key).value);
    assert v.fields[i].value < v.fields[i];
  }

  lemma {:induction false} ObjectsExactlyWhenSame(fs: seq<Field>, gs: seq<Field>, v: Json, w: Json)
    requires v == Obj(fs) && w == Obj(gs) && Valid(v) && Valid(w)
    ensures CanonicalFields(fs) == CanonicalFields(gs) <==> Same(v, w)
    decreases v, 0
  {
    hide Same, Canonical, CanonicalFields, Lookup;
    CanonicalSorted(fs);
    CanonicalSorted(gs);
    SortedEqual(CanonicalFields(fs), CanonicalFields(gs));
    SameObjects(fs, gs);
    forall key ensures Lookup(CanonicalFields(fs), key) == Lookup(CanonicalFields(gs), key) <==> KeySame(fs, gs, key) {
      CanonicalLookup(fs, key);
      CanonicalLookup(gs, key);
      if Lookup(fs, key).Some? && Lookup(gs, key).Some? {
        ValidLookup(v, key);
        ValidLookup(w, key);
        CanonicalExactlyWhenSame(Lookup(fs, key).value, Lookup(gs, key).value);
      }
    }
  }

  /** Canonicalising twice changes nothing more. */
  lemma {:induction false} CanonicalIsIdempotent(v: Json)
    requires Valid(v)
    ensures Canonical(Canonical(v)) == Canonical(v)
    decreases v, 1
  {
    if v.Arr? {
      ItemsIdempotent(v.items);
    } else if v.Obj? {
      FieldsIdempotent(v.fields, v);
    }
  }

  lemma {:induction false} ItemsIdempotent(a: seq<Json>)
    requires forall i :: 0 <= i < |a| ==> Valid(a[i])
    ensures CanonicalItems(CanonicalItems(a)) == CanonicalItems(a)
    decreases a, 2
  {
    if |a| > 0 {
      CanonicalIsIdempotent(a[0]);
      ItemsIdempotent(a[1..]);
      assert CanonicalItems(a)[1..] == CanonicalItems(a[1..]);
    }
  }

  lemma {:induction false} FieldsIdempotent(fs: seq<Field>, v: Json)
    requires v == Obj(fs) && Valid(v)
    ensures CanonicalFields(CanonicalFields(fs)) == CanonicalFields(fs)
    decreases v, 0
  {
    hide Canonical, CanonicalFields, Lookup;
    CanonicalSorted(fs);
    var r := CanonicalFields(fs);
    CanonicalSorted(r);
    forall key ensures Lookup(CanonicalFields(r), key) == Lookup(r, key) {
      CanonicalLookup(r, key);
      CanonicalLookup(fs, key);
      if key != GeneratedAt() && Lookup(fs, key).Some? {
        ValidLookup(v, key);
        CanonicalIsIdempotent(Lookup(fs, key).value);
      }
    }
    SortedUnique(CanonicalFields(r), r);
  }
}
