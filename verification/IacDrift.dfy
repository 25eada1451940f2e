/**
 * The drift walker of the manifests against the canonical checksums: where the
 * two agree, and the trees on which they do not.
 */
module IacDrift {
  import opened Outcome
  import opened JsText
  import opened Iac

  // -------------------------------------------------------------- access

  /** Which index of a string a key names; n when none. */
  function IndexOfKey(key: Text, n: nat): (i: nat)
    ensures i <= n && (i < n ==> Decimal(i) == key) && (i == n ==> forall k :: 0 <= k < n ==> Decimal(k) != key)
  {
    if n == 0 then 0 else
      var i := IndexOfKey(key, n - 1);
      if i < n - 1 || Decimal(n - 1) == key then i else n
  }

  function Indices(n: nat): seq<Text> { seq(n, i requires 0 <= i < n => Decimal(i)) }

  function KeysOf(fs: seq<Field>): seq<Text> { seq(|fs|, i requires 0 <= i < |fs| => fs[i].key) }

  /** Object.keys: strings and arrays have their indices, other scalars nothing. */
  function Keys(v: Json): seq<Text> {
    match v
    case Obj(fs) => KeysOf(fs)
    case Str(s) => Indices(|s|)
    case Arr(items) => Indices(|items|)
    case _ => []
  }

  /** v?.[key], without the members every value inherits. */
  function Get(v: Json, key: Text): Option<Json> {
    match v
    case Obj(fs) => Lookup(fs, key)
    case Str(s) =>
      if key == Length() then Some(Num(|s|))
      else if IndexOfKey(key, |s|) < |s| then Some(Str([s[IndexOfKey(key, |s|)]])) else None
    case Arr(items) =>
      if key == Length() then Some(Num(|items|))
      else if IndexOfKey(key, |items|) < |items| then Some(items[IndexOfKey(key, |items|)]) else None
    case _ => None
  }

  predicate Truthy(v: Json) {
    match v
    case Null => false
    case Bool(b) => b
    case Num(n) => n != 0
    case Str(s) => |s| > 0
    case _ => true
  }

  /** v || {} */
  function OrEmpty(v: Option<Json>): Json { if v.Some? && Truthy(v.value) then v.value else Obj([]) }

  predicate IsObj(v: Option<Json>) { v.Some? && v.value.Obj? }

  predicate IsArr(v: Option<Json>) { v.Some? && v.value.Arr? }

  // ---------------------------------------------------------- termination

  function Size(v: Json): nat
    decreases v, 0
  {
    match v
    case Obj(fs) => FieldsSize(fs)
    case Arr(items) => ItemsSize(items)
    case _ => 0
  }

  function FieldsSize(fs: seq<Field>): nat
    decreases fs, 1
  {
    if |fs| == 0 then 0 else assert fs[0].value < fs[0]; 1 + Size(fs[0].value) + FieldsSize(fs[1..])
  }

  function ItemsSize(items: seq<Json>): nat
    decreases items, 1
  {
    if |items| == 0 then 0 else 1 + Size(items[0]) + ItemsSize(items[1..])
  }

  lemma {:induction false} FieldSize(fs: seq<Field>, i: nat)
    requires i < |fs|
    ensures Size(fs[i].value) < FieldsSize(fs)
  {
    if i > 0 { FieldSize(fs[1..], i - 1); }
  }

  lemma {:induction false} ItemSize(items: seq<Json>, i: nat)
    requires i < |items|
    ensures Size(items[i]) < ItemsSize(items)
  {
    if i > 0 { ItemSize(items[1..], i - 1); }
  }

  lemma GetSize(v: Json, key: Text)
    ensures Size(OrEmpty(Get(v, key))) <= Size(v)
    ensures IsObj(Get(v, key)) ==> Size(OrEmpty(Get(v, key))) < Size(v)
  {
    if v.Obj? && Lookup(v.fields, key).Some? {
      var i :| 0 <= i < |v.fields| && v.fields[i] == Field(key, Lookup(v.fields, key).value);
      FieldSize(v.fields, i);
    } else if v.Arr? && key != Length() && IndexOfKey(key, |v.items|) < |v.items| {
      ItemSize(v.items, IndexOfKey(key, |v.items|));
    }
  }

  // ------------------------------------------------------------- the walk

  function InsertKey(k: Text, ks: seq<Text>): seq<Text> {
    if |ks| == 0 || Less(k, ks[0]) then [k] + ks else if k == ks[0] then ks else [ks[0]] + InsertKey(k, ks[1..])
  }

  /** A set of keys, sorted. */
  function SortedKeys(ks: seq<Text>): seq<Text> { if |ks| == 0 then [] else InsertKey(ks[0], SortedKeys(ks[1..])) }

  function AllKeys(a: Json, b: Json): seq<Text> { SortedKeys(Keys(a) + Keys(b)) }

  function Path(path: Text, key: Text): Text { if path == [] then key else path + [U('.')] + key }

  /** The differing paths, in the order in which the walk pushes them. */
  function Differences(a: Json, b: Json, path: Text): seq<Text>
    decreases Size(a) + Size(b), 1, 0
  {
    KeyDifferences(a, b, AllKeys(a, b), path)
  }

  function KeyDifferences(a: Json, b: Json, keys: seq<Text>, path: Text): seq<Text>
    decreases Size(a) + Size(b), 0, |keys|
  {
    if |keys| == 0 then []
    else
      (if keys[0] == GeneratedAt() then []
       else
         var av, bv, p := Get(a, keys[0]), Get(b, keys[0]), Path(path, keys[0]);
         if IsArr(av) || IsArr(bv) then (if av != bv then [p] else [])
         else if IsObj(av) || IsObj(bv) then
           GetSize(a, keys[0]);
           GetSize(b, keys[0]);
           Differences(OrEmpty(av), OrEmpty(bv), p)
         else if av != bv then [p] else [])
      + KeyDifferences(a, b, keys[1..], path)
  }

  method Walk(a: Json, b: Json, path: Text, before: seq<Text>) returns (differences: seq<Text>)
    ensures differences == before + Differences(a, b, path)
    decreases Size(a) + Size(b)
  {
    var keys := AllKeys(a, b);
    differences := before;
    assert keys[0..] == keys;
    for i := 0 to |keys|
      invariant differences + KeyDifferences(a, b, keys[i..], path) == before + Differences(a, b, path)
    {
      hide Get, Path, IsObj, IsArr, OrEmpty, AllKeys, Size;
      var key := keys[i];
      KeyStep(a, b, keys, i, path, differences);
      if key == GeneratedAt() { continue; }
      var av, bv, p := Get(a, key), Get(b, key), Path(path, key);
      if IsArr(av) || IsArr(bv) {
        if av != bv { differences := differences + [p]; }
        continue;
      }
      if IsObj(av) || IsObj(bv) {
        GetSize(a, key);
        GetSize(b, key);
        differences := Walk(OrEmpty(av), OrEmpty(bv), p, differences);
      } else if av != bv {
        differences := differences + [p];
      }
    }
    assert differences + [] == differences;
  }

  /** What the walk pushes for one key. */
  function KeyDifference(a: Json, b: Json, key: Text, path: Text): seq<Text> {
    var av, bv, p := Get(a, key), Get(b, key), Path(path, key);
    if key == GeneratedAt() then []
    else if IsArr(av) || IsArr(bv) then (if av != bv then [p] else [])
    else if IsObj(av) || IsObj(bv) then Differences(OrEmpty(av), OrEmpty(bv), p)
    else if av != bv then [p] else []
  }

  lemma KeyStep(a: Json, b: Json, keys: seq<Text>, i: nat, path: Text, d: seq<Text>)
    requires i < |keys|
    ensures d + KeyDifferences(a, b, keys[i..], path) ==
      d + KeyDifference(a, b, keys[i], path) + KeyDifferences(a, b, keys[i + 1..], path)
    ensures d + [] == d
  {
    hide *;
    assert keys[i..][0] == keys[i] && keys[i..][1..] == keys[i + 1..];
    KeysUnfold(a, b, keys[i..], path);
  }

  // ------------------------------------------------- no drift, key by key

  /** Two values at one key that the walk accepts. */
  ghost predicate Accepted(av: Option<Json>, bv: Option<Json>) {
    if IsArr(av) || IsArr(bv) then av == bv
    else if IsObj(av) || IsObj(bv) then NoDrift(OrEmpty(av), OrEmpty(bv))
    else av == bv
  }

  ghost predicate NoDrift(a: Json, b: Json) { Differences(a, b, []) == [] }

  lemma {:induction false} InsertKeyHas(k: Text, ks: seq<Text>, x: Text)
    ensures x in InsertKey(k, ks) <==> x == k || x in ks
  {
    if |ks| > 0 && !Less(k, ks[0]) && k != ks[0] {
      InsertKeyHas(k, ks[1..], x);
      assert ks == [ks[0]] + ks[1..];
    }
  }

  lemma {:induction false} SortedKeysHave(ks: seq<Text>, x: Text)
    ensures x in SortedKeys(ks) <==> x in ks
  {
    if |ks| > 0 {
      SortedKeysHave(ks[1..], x);
      InsertKeyHas(ks[0], SortedKeys(ks[1..]), x);
      assert ks == [ks[0]] + ks[1..];
    }
  }

  /** The keys are walked in the order of their code units, each once. */
  lemma {:induction false} SortedKeysAscend(ks: seq<Text>)
    ensures forall i, j :: 0 <= i < j < |SortedKeys(ks)| ==> Precedes(SortedKeys(ks)[i], SortedKeys(ks)[j])
  {
    hide Less, Precedes;
    if |ks| > 0 {
      SortedKeysAscend(ks[1..]);
      InsertKeyAscends(ks[0], SortedKeys(ks[1..]));
    }
  }

  lemma {:induction false} InsertKeyAscends(k: Text, ks: seq<Text>)
    requires forall i, j :: 0 <= i < j < |ks| ==> Precedes(ks[i], ks[j])
    ensures forall i, j :: 0 <= i < j < |InsertKey(k, ks)| ==> Precedes(InsertKey(k, ks)[i], InsertKey(k, ks)[j])
  {
    hide Less, Precedes;
    if |ks| == 0 {
    } else if Less(k, ks[0]) {
      forall j | 0 <= j < |ks| ensures Precedes(k, ks[j]) {
        LessExactlyWhenPrecedes(k, ks[0]);
        LessExactlyWhenPrecedes(k, ks[j]);
        if j > 0 {
          LessExactlyWhenPrecedes(ks[0], ks[j]);
          LessTransitive(k, ks[0], ks[j]);
        }
      }
    } else if k != ks[0] {
      InsertKeyAscends(k, ks[1..]);
      LessTotal(k, ks[0]);
      LessExactlyWhenPrecedes(ks[0], k);
      var rest := InsertKey(k, ks[1..]);
      forall j | 0 <= j < |rest| ensures Precedes(ks[0], rest[j]) {
        InsertKeyHas(k, ks[1..], rest[j]);
        if rest[j] != k { var m :| 0 <= m < |ks[1..]| && ks[1..][m] == rest[j]; assert ks[m + 1] == rest[j]; }
      }
    }
  }

  /** Whether anything is reported does not depend on the path. */
  lemma {:induction false} PathDoesNotMatter(a: Json, b: Json, path: Text)
    ensures Differences(a, b, path) == [] <==> NoDrift(a, b)
    decreases Size(a) + Size(b), 1, 0
  {
    KeysPathDoesNotMatter(a, b, AllKeys(a, b), path);
    KeysPathDoesNotMatter(a, b, AllKeys(a, b), []);
  }

  lemma {:induction false} KeyPathDoesNotMatter(a: Json, b: Json, key: Text, path: Text)
    ensures KeyDifference(a, b, key, path) == [] <==> key == GeneratedAt() || Accepted(Get(a, key), Get(b, key))
    decreases Size(a) + Size(b), 0, 0
  {
    hide Get, Path, Differences, Size, NoDrift;
    GetSize(a, key);
    GetSize(b, key);
    if IsObj(Get(a, key)) || IsObj(Get(b, key)) {
      PathDoesNotMatter(OrEmpty(Get(a, key)), OrEmpty(Get(b, key)), Path(path, key));
    }
  }

  lemma KeysUnfold(a: Json, b: Json, keys: seq<Text>, path: Text)
    ensures |keys| == 0 ==> KeyDifferences(a, b, keys, path) == []
    ensures |keys| > 0 ==>
      KeyDifferences(a, b, keys, path) == KeyDifference(a, b, keys[0], path) + KeyDifferences(a, b, keys[1..], path)
  {
    hide Differences, Get, Path, OrEmpty;
  }

  lemma {:induction false} KeysPathDoesNotMatter(a: Json, b: Json, keys: seq<Text>, path: Text)
    ensures KeyDifferences(a, b, keys, path) == [] <==>
      forall k <- keys :: k == GeneratedAt() || Accepted(Get(a, k), Get(b, k))
    decreases Size(a) + Size(b), 0, |keys|
  {
    hide *;
    KeysUnfold(a, b, keys, path);
    if |keys| > 0 {
      KeysPathDoesNotMatter(a, b, keys[1..], path);
      assert keys == [keys[0]] + keys[1..];
      KeyPathDoesNotMatter(a, b, keys[0], path);
    }
  }

  /** No drift means that every key of either side is accepted. */
  lemma NoDriftMeans(a: Json, b: Json)
    ensures NoDrift(a, b) <==>
      forall k :: (k in Keys(a) || k in Keys(b)) && k != GeneratedAt() ==> Accepted(Get(a, k), Get(b, k))
  {
    KeysPathDoesNotMatter(a, b, AllKeys(a, b), []);
    hide Keys, Get, Accepted, KeyDifferences;
    forall k ensures k in AllKeys(a, b) <==> k in Keys(a) || k in Keys(b) {
      SortedKeysHave(Keys(a) + Keys(b), k);
    }
  }

  lemma {:induction false} NoDriftSymmetric(a: Json, b: Json)
    ensures NoDrift(a, b) == NoDrift(b, a)
    decreases Size(a) + Size(b)
  {
    hide Keys, Get, Size, NoDrift;
    NoDriftMeans(a, b);
    NoDriftMeans(b, a);
    forall k ensures Accepted(Get(a, k), Get(b, k)) == Accepted(Get(b, k), Get(a, k)) {
      GetSize(a, k);
      GetSize(b, k);
      if IsObj(Get(a, k)) || IsObj(Get(b, k)) { NoDriftSymmetric(OrEmpty(Get(a, k)), OrEmpty(Get(b, k))); }
    }
  }

  lemma {:induction false} NoDriftReflexive(v: Json)
    ensures NoDrift(v, v)
    decreases Size(v)
  {
    hide Keys, Get, Size, NoDrift;
    NoDriftMeans(v, v);
    forall k ensures Accepted(Get(v, k), Get(v, k)) {
      GetSize(v, k);
      if IsObj(Get(v, k)) { NoDriftReflexive(OrEmpty(Get(v, k))); }
    }
  }

  lemma AcceptedReflexive(v: Option<Json>)
    ensures Accepted(v, v)
  {
    NoDriftReflexive(OrEmpty(v));
  }

  // ----------------------------------------------------- which paths they are

  const DOT: CodeUnit := U('.')

  /** The value found by following the keys, an absent or falsy value on the way counting as empty. */
  function Read(v: Json, route: seq<Text>): Option<Json>
    requires |route| > 0
    decreases |route|
  {
    if |route| == 1 then Get(v, route[0]) else Read(OrEmpty(Get(v, route[0])), route[1..])
  }

  /** What is in hand after following the keys. */
  function Node(v: Json, route: seq<Text>): Json { if route == [] then v else OrEmpty(Read(v, route)) }

  predicate Listed(a: Json, b: Json, key: Text) { key in Keys(a) || key in Keys(b) }

  /** There is no array, and an object on at least one side. */
  predicate Descends(av: Option<Json>, bv: Option<Json>) { !IsArr(av) && !IsArr(bv) && (IsObj(av) || IsObj(bv)) }

  /**
   * Key m of a route: one of the sides lists it, it is not generatedAt, and the
   * values there are to be descended into, or at the end of the route are not and
   * differ.
   */
  predicate Turn(a: Json, b: Json, route: seq<Text>, m: nat)
    requires m < |route|
  {
    var av, bv := Read(a, route[..m + 1]), Read(b, route[..m + 1]);
    && Listed(Node(a, route[..m]), Node(b, route[..m]), route[m]) && route[m] != GeneratedAt()
    && if m + 1 < |route| then Descends(av, bv) else !Descends(av, bv) && av != bv
  }

  /** The trees differ at the end of the route. */
  predicate Drifts(a: Json, b: Json, route: seq<Text>) {
    |route| > 0 && forall m :: 0 <= m < |route| ==> Turn(a, b, route, m)
  }

  /** The keys joined by dots; empty keys at the start leave no dot, because an empty path counts as none. */
  function Dotted(route: seq<Text>): Text {
    if |route| > 0 && route[0] == [] then Dotted(route[1..]) else Join(route, DOT)
  }

  function Under(path: Text, route: seq<Text>): Text { if path == [] then Dotted(route) else Join([path] + route, DOT) }

  lemma JoinOneMore(x: Text, rest: seq<Text>)
    ensures Join([x] + rest, DOT) == if rest == [] then x else x + ([DOT] + Join(rest, DOT))
  {
    assert ([x] + rest)[1..] == rest;
  }

  lemma DottedPath(path: Text, key: Text, tail: Text)
    ensures path + ([DOT] + key) == path + [DOT] + key
    ensures path + ([DOT] + (key + ([DOT] + tail))) == path + [DOT] + key + ([DOT] + tail)
  {
  }

  lemma PathStep(path: Text, key: Text, rest: seq<Text>)
    ensures Under(Path(path, key), rest) == Under(path, [key] + rest)
  {
    hide Join, Dotted;
    if path == [] {
      FirstKey(key, rest);
    } else {
      hide Under, Path;
      UnderMeans(path, [key] + rest);
      UnderMeans(path + [DOT] + key, rest);
      PathMeans(path, key);
      JoinOneMore(path + [DOT] + key, rest);
      JoinOneMore(key, rest);
      JoinOneMore(path, [key] + rest);
      DottedPath(path, key, Join(rest, DOT));
    }
  }

  lemma PathMeans(path: Text, key: Text)
    requires path != []
    ensures Path(path, key) == path + [DOT] + key
  {
  }

  lemma UnderMeans(path: Text, route: seq<Text>)
    requires path != []
    ensures Under(path, route) == Join([path] + route, DOT)
  {
  }

  lemma FirstKey(key: Text, rest: seq<Text>)
    ensures Dotted([key] + rest) == if key == [] then Dotted(rest) else Join([key] + rest, DOT)
  {
    assert ([key] + rest)[1..] == rest;
  }

  lemma ReadHere(v: Json, key: Text)
    ensures Read(v, [key]) == Get(v, key)
  {
  }

  lemma ReadBelow(v: Json, key: Text, rest: seq<Text>)
    requires |rest| > 0
    ensures Read(v, [key] + rest) == Read(OrEmpty(Get(v, key)), rest)
  {
    assert ([key] + rest)[1..] == rest;
  }

  lemma TurnHere(a: Json, b: Json, key: Text, rest: seq<Text>)
    ensures Turn(a, b, [key] + rest, 0) <==>
      && Listed(a, b, key) && key != GeneratedAt()
      && if rest == [] then !Descends(Get(a, key), Get(b, key)) && Get(a, key) != Get(b, key)
         else Descends(Get(a, key), Get(b, key))
  {
    assert ([key] + rest)[..0] == [] && ([key] + rest)[..0 + 1] == [key];
    ReadHere(a, key);
    ReadHere(b, key);
    hide Read, Get, Keys, Descends, OrEmpty;
  }

  lemma TurnBelow(a: Json, b: Json, key: Text, rest: seq<Text>, m: nat)
    requires m < |rest|
    ensures Turn(a, b, [key] + rest, m + 1) <==> Turn(OrEmpty(Get(a, key)), OrEmpty(Get(b, key)), rest, m)
  {
    var route := [key] + rest;
    assert route[..m + 1] == [key] + rest[..m] && route[..m + 1 + 1] == [key] + rest[..m + 1] && route[m + 1] == rest[m];
    ReadHere(a, key);
    ReadHere(b, key);
    ReadBelow(a, key, rest[..m + 1]);
    ReadBelow(b, key, rest[..m + 1]);
    if m > 0 {
      ReadBelow(a, key, rest[..m]);
      ReadBelow(b, key, rest[..m]);
    }
    hide Read, Get, Keys, Descends, OrEmpty;
    assert m == 0 ==> rest[..m] == [] && [key] + rest[..m] == [key];
  }

  lemma DriftsUnfolds(a: Json, b: Json, key: Text, rest: seq<Text>)
    ensures Drifts(a, b, [key] + rest) <==>
      Turn(a, b, [key] + rest, 0) && (rest == [] || Drifts(OrEmpty(Get(a, key)), OrEmpty(Get(b, key)), rest))
  {
    hide Turn, Get, OrEmpty;
    forall m | 0 <= m < |rest|
      ensures Turn(a, b, [key] + rest, m + 1) <==> Turn(OrEmpty(Get(a, key)), OrEmpty(Get(b, key)), rest, m)
    {
      TurnBelow(a, b, key, rest, m);
    }
    if Turn(a, b, [key] + rest, 0) && (rest == [] || Drifts(OrEmpty(Get(a, key)), OrEmpty(Get(b, key)), rest)) {
      forall m | 0 <= m < |[key] + rest| ensures Turn(a, b, [key] + rest, m) {
        if m > 0 { TurnBelow(a, b, key, rest, m - 1); }
      }
    }
  }

  /** The text is reported for a route that begins with the key. */
  ghost predicate Reported(a: Json, b: Json, key: Text, path: Text, p: Text) {
    exists rest: seq<Text> :: Drifts(a, b, [key] + rest) && p == Under(path, [key] + rest)
  }

  lemma {:induction false} KeyReports(a: Json, b: Json, key: Text, path: Text, p: Text)
    requires Listed(a, b, key)
    ensures p in KeyDifference(a, b, key, path) <==> Reported(a, b, key, path, p)
    decreases Size(a) + Size(b), 0, 0
  {
    hide Get, Path, Differences, Size, Drifts, Turn, Under, Listed;
    var av, bv := Get(a, key), Get(b, key);
    GetSize(a, key);
    GetSize(b, key);
    TurnHere(a, b, key, []);
    assert [key] + [] == [key];
    DriftsUnfolds(a, b, key, []);
    PathStep(path, key, []);
    UnderNothing(Path(path, key));
    if key != GeneratedAt() && Descends(av, bv) {
      DifferencesAreRoutes(OrEmpty(av), OrEmpty(bv), Path(path, key), p);
      if rest: seq<Text> :| Drifts(OrEmpty(av), OrEmpty(bv), rest) && p == Under(Path(path, key), rest) {
        DriftsNonempty(OrEmpty(av), OrEmpty(bv), rest);
        TurnHere(a, b, key, rest);
        DriftsUnfolds(a, b, key, rest);
        PathStep(path, key, rest);
      }
    }
    if rest: seq<Text> :| Drifts(a, b, [key] + rest) && p == Under(path, [key] + rest) {
      TurnHere(a, b, key, rest);
      DriftsUnfolds(a, b, key, rest);
      PathStep(path, key, rest);
    } else {
      assert !Drifts(a, b, [key] + []) || p != Under(path, [key] + []);
    }
  }

  lemma UnderNothing(path: Text)
    ensures Under(path, []) == path
  {
    assert [path] + [] == [path];
  }

  lemma DriftsNonempty(a: Json, b: Json, route: seq<Text>)
    requires Drifts(a, b, route)
    ensures |route| > 0 && Turn(a, b, route, 0)
  {
  }

  lemma {:induction false} KeysReport(a: Json, b: Json, keys: seq<Text>, path: Text, p: Text)
    requires forall k <- keys :: Listed(a, b, k)
    ensures p in KeyDifferences(a, b, keys, path) <==> exists k <- keys :: Reported(a, b, k, path, p)
    decreases Size(a) + Size(b), 0, |keys|
  {
    hide *;
    KeysUnfold(a, b, keys, path);
    if |keys| > 0 {
      assert keys == [keys[0]] + keys[1..];
      KeyReports(a, b, keys[0], path, p);
      KeysReport(a, b, keys[1..], path, p);
    }
  }

  /** A text is reported exactly when it is the route to a difference, written with dots under the path. */
  lemma {:induction false} DifferencesAreRoutes(a: Json, b: Json, path: Text, p: Text)
    ensures p in Differences(a, b, path) <==> exists route :: Drifts(a, b, route) && p == Under(path, route)
    decreases Size(a) + Size(b), 1, 0
  {
    hide Drifts, Turn, Under, KeyDifferences, Keys, SortedKeys;
    forall k ensures k in AllKeys(a, b) <==> Listed(a, b, k) { SortedKeysHave(Keys(a) + Keys(b), k); }
    KeysReport(a, b, AllKeys(a, b), path, p);
    if route :| Drifts(a, b, route) && p == Under(path, route) {
      DriftsNonempty(a, b, route);
      RouteListed(a, b, route);
      assert route == [route[0]] + route[1..];
      assert Reported(a, b, route[0], path, p);
    }
  }

  lemma RouteListed(a: Json, b: Json, route: seq<Text>)
    requires |route| > 0 && Turn(a, b, route, 0)
    ensures Listed(a, b, route[0])
  {
    assert route[..0] == [];
  }

  /** The answer of diff: exactly the routes at whose end the two manifests differ, each as its keys joined by dots. */
  lemma ReportedExactlyWhenDifferent(expected: Json, actual: Json, p: Text)
    ensures p in Differences(expected, actual, []) <==> exists route :: Drifts(expected, actual, route) && p == Dotted(route)
  {
    hide Drifts, Differences, Dotted;
    DifferencesAreRoutes(expected, actual, [], p);
    forall route ensures Under([], route) == Dotted(route) {}
  }

  // ---------------------------------------------------------- clean trees

  predicate HasContent(fs: seq<Field>) { exists i :: 0 <= i < |fs| && fs[i].key != GeneratedAt() }

  /**
   * An object that looks like the string s to the walk: its keys are the indices of s, perhaps with a right
   * length, and each value is the one-unit string at that index or an object that spells it.
   */
  ghost predicate Spells(v: Json, s: Text)
    decreases v
  {
    && v.Obj? && |s| > 0 && (forall j :: 0 <= j < |s| ==> Lookup(v.fields, Decimal(j)).Some?)
    && forall i :: 0 <= i < |v.fields| && v.fields[i].key != GeneratedAt() ==>
      var j := IndexOfKey(v.fields[i].key, |s|);
      if j < |s| then v.fields[i].value == Str([s[j]]) || Spells(v.fields[i].value, [s[j]])
      else v.fields[i].key == Length() && v.fields[i].value == Num(|s|)
  }

  /** Arrays are canonical as they stand; objects say something, spell nothing and hold clean values. */
  ghost predicate Clean(v: Json)
    decreases v
  {
    match v
    case Arr(_) => Canonical(v) == v
    case Obj(fs) =>
      HasContent(fs) && !(exists s :: Spells(v, s))
      && forall i :: 0 <= i < |fs| && fs[i].key != GeneratedAt() ==> Clean(fs[i].value)
    case _ => true
  }

  /** No object in the tree, outside arrays, is empty but for generatedAt. */
  ghost predicate Full(v: Json)
    decreases v
  {
    match v
    case Obj(fs) => HasContent(fs) && forall i :: 0 <= i < |fs| && fs[i].key != GeneratedAt() ==> Full(fs[i].value)
    case _ => true
  }

  lemma {:induction false} CleanIsFull(v: Json)
    requires Clean(v)
    ensures Full(v)
    decreases v
  {
    if v.Obj? {
      forall i | 0 <= i < |v.fields| && v.fields[i].key != GeneratedAt() ensures Full(v.fields[i].value) {
        CleanIsFull(v.fields[i].value);
      }
    }
  }

  ghost predicate CleanFields(fs: seq<Field>) {
    forall i :: 0 <= i < |fs| && fs[i].key != GeneratedAt() ==> Clean(fs[i].value)
  }

  lemma DecimalIsNoWord(i: nat)
    ensures Decimal(i) != Length() && Decimal(i) != GeneratedAt()
  {
    assert IsDigit(Decimal(i)[0]) && !IsDigit(Length()[0]) && !IsDigit(GeneratedAt()[0]);
  }

  lemma IndexOfDecimal(i: nat, n: nat)
    requires i < n
    ensures IndexOfKey(Decimal(i), n) == i
  {
    var k := IndexOfKey(Decimal(i), n);
    DecimalRoundTrip(i);
    DecimalRoundTrip(k);
  }

  lemma KeyAt(fs: seq<Field>, i: nat)
    requires i < |fs|
    ensures fs[i].key in Keys(Obj(fs))
  {
    assert KeysOf(fs)[i] == fs[i].key;
  }

  lemma KeyFound(fs: seq<Field>, key: Text) returns (i: nat)
    requires key in Keys(Obj(fs))
    ensures i < |fs| && fs[i].key == key
  {
    i :| 0 <= i < |fs| && KeysOf(fs)[i] == key;
  }

  /** A value without members of its own drifts from every full object. */
  lemma {:induction false} BareDrifts(z: Json, o: Json)
    requires Keys(z) == [] && (forall k :: Get(z, k) == None) && o.Obj? && Valid(o) && Full(o)
    ensures !NoDrift(z, o)
    decreases o
  {
    var i :| 0 <= i < |o.fields| && o.fields[i].key != GeneratedAt();
    var f := o.fields[i];
    NoDriftMeans(z, o);
    KeyAt(o.fields, i);
    LookupAt(o.fields, i);
    assert Get(o, f.key) == Some(f.value) && Get(z, f.key) == None;
    hide NoDrift;
    if f.value.Obj? { BareDrifts(Obj([]), f.value); }
  }

  /** The condition that Spells puts on one field. */
  ghost predicate SpelledAt(f: Field, s: Text) {
    var j := IndexOfKey(f.key, |s|);
    if j < |s| then f.value == Str([s[j]]) || Spells(f.value, [s[j]]) else f.key == Length() && f.value == Num(|s|)
  }

  /** The index of every unit of s is a key of an object that looks like s. */
  lemma IndicesPresent(s: Text, o: Json)
    requires |s| > 0 && o.Obj? && NoDrift(Str(s), o)
    ensures forall j :: 0 <= j < |s| ==> Lookup(o.fields, Decimal(j)).Some?
  {
    NoDriftMeans(Str(s), o);
    hide NoDrift, Decimal, Lookup;
    forall j | 0 <= j < |s| ensures Lookup(o.fields, Decimal(j)).Some? {
      DecimalIsNoWord(j);
      IndexOfDecimal(j, |s|);
      assert Indices(|s|)[j] == Decimal(j);
      assert Accepted(Get(Str(s), Decimal(j)), Get(o, Decimal(j)));
    }
  }

  lemma {:induction false} LooksLikeStringSpells(s: Text, o: Json)
    requires |s| > 0 && o.Obj? && Valid(o) && Full(o) && NoDrift(Str(s), o)
    ensures Spells(o, s)
    decreases o, 1
  {
    IndicesPresent(s, o);
    hide NoDrift, Full, Valid, IndexOfKey, Decimal, Lookup;
    forall i | 0 <= i < |o.fields| && o.fields[i].key != GeneratedAt() ensures SpelledAt(o.fields[i], s) {
      SpelledField(s, o, i);
    }
  }

  lemma FieldOf(o: Json, i: nat)
    requires o.Obj? && Valid(o) && Full(o) && i < |o.fields| && o.fields[i].key != GeneratedAt()
    ensures var f := o.fields[i]; f.value < o && Valid(f.value) && Full(f.value) && Get(o, f.key) == Some(f.value) && f.key in Keys(o)
  {
    KeyAt(o.fields, i);
    LookupAt(o.fields, i);
    assert o.fields[i].value < o.fields[i];
  }

  lemma {:induction false} SpelledField(s: Text, o: Json, i: nat)
    requires |s| > 0 && o.Obj? && Valid(o) && Full(o) && NoDrift(Str(s), o)
    requires i < |o.fields| && o.fields[i].key != GeneratedAt()
    ensures SpelledAt(o.fields[i], s)
    decreases o, 0
  {
    var f := o.fields[i];
    NoDriftMeans(Str(s), o);
    FieldOf(o, i);
    hide NoDrift, Spells, IndexOfKey, Full, Valid, Decimal, Lookup, Keys;
    assert Accepted(Get(Str(s), f.key), Some(f.value));
    var j := IndexOfKey(f.key, |s|);
    if j < |s| { DecimalIsNoWord(j); }
    if f.value.Obj? {
      if j < |s| {
        LooksLikeStringSpells([s[j]], f.value);
      } else {
        BareIs();
        BareDrifts(if f.key == Length() then Num(|s|) else Obj([]), f.value);
      }
    }
  }

  lemma BareIs()
    ensures Keys(Obj([])) == [] && forall k :: Get(Obj([]), k) == None
    ensures forall n :: Keys(Num(n)) == [] && forall k :: Get(Num(n), k) == None
  {
  }

  lemma SpelledKey(o: Json, s: Text, k: Text) returns (i: nat)
    requires Valid(o) && Spells(o, s) && (k in Keys(Str(s)) || k in Keys(o))
    ensures i < |o.fields| && o.fields[i].key == k && Get(o, k) == Some(o.fields[i].value)
  {
    if k in Keys(Str(s)) {
      var j :| 0 <= j < |s| && Indices(|s|)[j] == k;
      assert Lookup(o.fields, Decimal(j)).Some?;
      i :| 0 <= i < |o.fields| && o.fields[i] == Field(k, Lookup(o.fields, k).value);
    } else {
      i := KeyFound(o.fields, k);
    }
    LookupAt(o.fields, i);
  }

  lemma GetOfString(s: Text, k: Text)
    ensures IndexOfKey(k, |s|) < |s| ==> Get(Str(s), k) == Some(Str([s[IndexOfKey(k, |s|)]]))
    ensures k == Length() ==> IndexOfKey(k, |s|) == |s| && Get(Str(s), k) == Some(Num(|s|))
  {
    if IndexOfKey(k, |s|) < |s| { DecimalIsNoWord(IndexOfKey(k, |s|)); }
  }

  lemma {:induction false} SpelledKeyAccepted(o: Json, s: Text, k: Text)
    requires Valid(o) && Spells(o, s) && (k in Keys(Str(s)) || k in Keys(o)) && k != GeneratedAt()
    ensures Accepted(Get(Str(s), k), Get(o, k))
    decreases o, 0
  {
    var i := SpelledKey(o, s, k);
    SpelledAtField(o, s, i);
    GetOfString(s, k);
    hide *;
    var j, value := IndexOfKey(k, |s|), o.fields[i].value;
    SpelledAtMeans(o.fields[i], s);
    AcceptedReflexive(Some(value));
    if j < |s| && value != Str([s[j]]) {
      SpellsObject(value, [s[j]]);
      SpellingLooksEqual(value, [s[j]]);
      AcceptedStringObject(s[j], value);
    }
  }

  lemma SpelledAtMeans(f: Field, s: Text)
    requires SpelledAt(f, s)
    ensures var j := IndexOfKey(f.key, |s|);
      if j < |s| then f.value == Str([s[j]]) || Spells(f.value, [s[j]]) else f.key == Length() && f.value == Num(|s|)
  {
  }

  lemma AcceptedStringObject(u: CodeUnit, v: Json)
    requires v.Obj? && NoDrift(Str([u]), v)
    ensures Accepted(Some(Str([u])), Some(v))
  {
    hide NoDrift;
  }

  lemma SpelledAtField(o: Json, s: Text, i: nat)
    requires Valid(o) && Spells(o, s) && i < |o.fields| && o.fields[i].key != GeneratedAt()
    ensures SpelledAt(o.fields[i], s) && Valid(o.fields[i].value) && o.fields[i].value < o
  {
    assert o.fields[i].value < o.fields[i];
  }

  lemma SpellsObject(v: Json, s: Text)
    requires Spells(v, s)
    ensures v.Obj?
  {
  }

  lemma {:induction false} SpellingLooksEqual(o: Json, s: Text)
    requires Valid(o) && Spells(o, s)
    ensures NoDrift(Str(s), o)
    decreases o, 1
  {
    NoDriftMeans(Str(s), o);
    hide *;
    forall k | (k in Keys(Str(s)) || k in Keys(o)) && k != GeneratedAt() ensures Accepted(Get(Str(s), k), Get(o, k)) {
      SpelledKeyAccepted(o, s, k);
    }
  }

  // --------------------------------------------------------- main results

  lemma SameReflexive(v: Json)
    requires Valid(v)
    ensures Same(v, v)
  {
    CanonicalExactlyWhenSame(v, v);
  }

  ghost predicate Good(v: Option<Json>) { v.Some? ==> Valid(v.value) && Clean(v.value) }

  ghost predicate BothSame(x: Option<Json>, y: Option<Json>) {
    (x.None? && y.None?) || (x.Some? && y.Some? && Same(x.value, y.value))
  }

  /** An object against anything but an object or an array. */
  lemma MixedDrifts(x: Option<Json>, o: Json)
    requires !IsArr(x) && !IsObj(x) && o.Obj? && Valid(o) && Clean(o)
    ensures !NoDrift(OrEmpty(x), o) && !NoDrift(o, OrEmpty(x))
  {
    NoDriftSymmetric(OrEmpty(x), o);
    CleanIsFull(o);
    hide NoDrift, Spells, Full, Valid;
    if OrEmpty(x).Str? {
      if NoDrift(OrEmpty(x), o) { LooksLikeStringSpells(x.value.s, o); }
    } else {
      BareDrifts(OrEmpty(x), o);
    }
  }

  lemma {:induction false} AcceptedExactlyWhenSame(x: Option<Json>, y: Option<Json>)
    requires Good(x) && Good(y)
    ensures Accepted(x, y) <==> BothSame(x, y)
    decreases if x.Some? then Size(x.value) + 1 else 0, 2
  {
    if IsArr(x) || IsArr(y) {
      if x == y { SameReflexive(x.value); }
      if BothSame(x, y) { CanonicalExactlyWhenSame(x.value, y.value); }
    } else if IsObj(x) && IsObj(y) {
      DriftExactlyWhenDifferent(x.value.fields, y.value.fields);
    } else if IsObj(x) {
      MixedDrifts(y, x.value);
    } else if IsObj(y) {
      MixedDrifts(x, y.value);
    }
  }

  lemma GoodLookup(fs: seq<Field>, key: Text)
    requires Valid(Obj(fs)) && CleanFields(fs) && key != GeneratedAt()
    ensures Good(Lookup(fs, key))
    ensures Lookup(fs, key).Some? ==> Size(Lookup(fs, key).value) < Size(Obj(fs))
  {
    if Lookup(fs, key).Some? {
      var i :| 0 <= i < |fs| && fs[i] == Field(key, Lookup(fs, key).value);
      FieldSize(fs, i);
    }
  }

  /** On clean trees the walk finds nothing exactly when the trees are the same. */
  lemma {:induction false} DriftExactlyWhenDifferent(fs: seq<Field>, gs: seq<Field>)
    requires Valid(Obj(fs)) && Valid(Obj(gs)) && CleanFields(fs) && CleanFields(gs)
    ensures NoDrift(Obj(fs), Obj(gs)) <==> Same(Obj(fs), Obj(gs))
    decreases Size(Obj(fs)) + 1, 1
  {
    NoDriftMeans(Obj(fs), Obj(gs));
    SameObjects(fs, gs);
    hide NoDrift, Same, Accepted, Clean, Lookup, Size;
    forall key | key != GeneratedAt() ensures Accepted(Lookup(fs, key), Lookup(gs, key)) <==> KeySame(fs, gs, key) {
      GoodLookup(fs, key);
      GoodLookup(gs, key);
      AcceptedExactlyWhenSame(Lookup(fs, key), Lookup(gs, key));
    }
    forall key | key !in Keys(Obj(fs)) && key !in Keys(Obj(gs)) ensures KeySame(fs, gs, key) {
      if Lookup(fs, key).Some? {
        var i :| 0 <= i < |fs| && fs[i] == Field(key, Lookup(fs, key).value);
        KeyAt(fs, i);
      }
      if Lookup(gs, key).Some? {
        var i :| 0 <= i < |gs| && gs[i] == Field(key, Lookup(gs, key).value);
        KeyAt(gs, i);
      }
    }
  }

  /** On clean manifests drift is reported exactly when the checksummed canonical forms differ. */
  lemma DriftExactlyWhenChecksumsDiffer(expected: seq<Field>, actual: seq<Field>)
    requires Valid(Obj(expected)) && Valid(Obj(actual)) && CleanFields(expected) && CleanFields(actual)
    ensures Differences(Obj(expected), Obj(actual), []) == [] <==> Canonical(Obj(expected)) == Canonical(Obj(actual))
  {
    DriftExactlyWhenDifferent(expected, actual);
    CanonicalExactlyWhenSame(Obj(expected), Obj(actual));
  }

  // ------------------------------------------- unclean trees can disagree

  lemma {:induction false} LookupReplaced(fs: seq<Field>, i: nat, w: Json, key: Text)
    requires DistinctKeys(fs) && i < |fs|
    ensures Lookup(fs[i := Field(fs[i].key, w)], key) == if key == fs[i].key then Some(w) else Lookup(fs, key)
  {
    var gs := fs[i := Field(fs[i].key, w)];
    if i > 0 {
      assert gs[1..] == fs[1..][i - 1 := Field(fs[i].key, w)];
      LookupReplaced(fs[1..], i - 1, w, key);
    } else {
      assert gs[1..] == fs[1..];
    }
  }

  lemma ReplacedIsValid(fs: seq<Field>, i: nat, w: Json)
    requires Valid(Obj(fs)) && i < |fs| && Valid(w)
    ensures Valid(Obj(fs[i := Field(fs[i].key, w)])) && DistinctKeys(fs) && Valid(fs[i].value)
  {
    var gs := fs[i := Field(fs[i].key, w)];
    assert forall j :: 0 <= j < |fs| ==> gs[j].key == fs[j].key;
  }

  lemma OtherKeysAgree(fs: seq<Field>, i: nat, w: Json, k: Text)
    requires Valid(Obj(fs)) && i < |fs| && k != fs[i].key
    ensures var gs := fs[i := Field(fs[i].key, w)]; Accepted(Lookup(fs, k), Lookup(gs, k)) && KeySame(fs, gs, k)
  {
    hide NoDrift, Same, Accepted, Lookup;
    LookupReplaced(fs, i, w, k);
    AcceptedReflexive(Lookup(fs, k));
    if Lookup(fs, k).Some? {
      ValidLookup(Obj(fs), k);
      SameReflexive(Lookup(fs, k).value);
    }
  }

  lemma GetOfObj(fs: seq<Field>)
    ensures forall k :: Get(Obj(fs), k) == Lookup(fs, k)
  {
  }

  lemma KeySameMeans(fs: seq<Field>, gs: seq<Field>, key: Text)
    requires key != GeneratedAt() && Lookup(fs, key).Some? && Lookup(gs, key).Some?
    ensures KeySame(fs, gs, key) <==> Same(Lookup(fs, key).value, Lookup(gs, key).value)
  {
  }

  /** Changing one value decides both comparisons of the whole object. */
  lemma ReplacedValueDecides(fs: seq<Field>, i: nat, w: Json)
    requires Valid(Obj(fs)) && i < |fs| && fs[i].key != GeneratedAt() && Valid(w)
    ensures var b := Obj(fs[i := Field(fs[i].key, w)]);
      && Valid(b) && (NoDrift(Obj(fs), b) <==> Accepted(Some(fs[i].value), Some(w)))
      && (Canonical(Obj(fs)) == Canonical(b) <==> Same(fs[i].value, w))
  {
    hide *;
    var key, gs := fs[i].key, fs[i := Field(fs[i].key, w)];
    ReplacedIsValid(fs, i, w);
    LookupAt(fs, i);
    LookupReplaced(fs, i, w, key);
    KeyAt(fs, i);
    GetOfObj(fs);
    GetOfObj(gs);
    NoDriftMeans(Obj(fs), Obj(gs));
    SameObjects(fs, gs);
    CanonicalExactlyWhenSame(Obj(fs), Obj(gs));
    KeySameMeans(fs, gs, key);
    forall k | k != key ensures Accepted(Lookup(fs, k), Lookup(gs, k)) && KeySame(fs, gs, k) {
      OtherKeysAgree(fs, i, w, k);
    }
  }

  /** A clean value has no rival; an unclean one has a value on which the walk and sameness disagree. */
  lemma {:induction false} UncleanHasRival(x: Json) returns (w: Json)
    requires Valid(x) && !Clean(x)
    ensures Valid(w) && (Accepted(Some(x), Some(w)) <==> !Same(x, w))
    decreases Size(x), 1
  {
    w := Null;
    if x.Arr? {
      w := Canonical(x);
      CanonicalIsValid(x);
      CanonicalIsIdempotent(x);
      CanonicalExactlyWhenSame(x, w);
    } else if !HasContent(x.fields) {
      NothingToWalk(x);
    } else if exists s :: Spells(x, s) {
      var s :| Spells(x, s);
      w := Str(s);
      StringRival(x, s);
    } else {
      hide NoDrift, Same, Canonical, Size, Spells;
      w := UncleanHasPartner(x.fields);
      CanonicalExactlyWhenSame(x, w);
    }
  }

  lemma StringRival(x: Json, s: Text)
    requires Valid(x) && Spells(x, s)
    ensures Accepted(Some(x), Some(Str(s))) && !Same(x, Str(s))
  {
    SpellingLooksEqual(x, s);
    NoDriftSymmetric(Str(s), x);
  }

  /** Every tree that is not clean has a partner on which the walk and the checksums disagree. */
  lemma {:induction false} UncleanHasPartner(fs: seq<Field>) returns (b: Json)
    requires Valid(Obj(fs)) && !CleanFields(fs)
    ensures b.Obj? && Valid(b) && (NoDrift(Obj(fs), b) <==> Canonical(Obj(fs)) != Canonical(b))
    decreases Size(Obj(fs)), 0
  {
    var i :| 0 <= i < |fs| && fs[i].key != GeneratedAt() && !Clean(fs[i].value);
    FieldSize(fs, i);
    hide NoDrift, Same, Canonical, Clean, Accepted;
    var w := UncleanHasRival(fs[i].value);
    ReplacedValueDecides(fs, i, w);
    b := Obj(fs[i := Field(fs[i].key, w)]);
  }

  lemma NothingToWalk(x: Json)
    requires x.Obj? && !HasContent(x.fields)
    ensures NoDrift(x, Obj([]))
  {
    NoDriftMeans(x, Obj([]));
    forall k | k in Keys(x) ensures k == GeneratedAt() { var i := KeyFound(x.fields, k); }
  }

  lemma {:induction false} CanonicalIsValid(v: Json)
    requires Valid(v)
    ensures Valid(Canonical(v))
    decreases v, 1
  {
    if v.Arr? {
      ItemsValid(v.items);
    } else if v.Obj? {
      hide Canonical, CanonicalFields, Lookup;
      CanonicalSorted(v.fields);
      var r := CanonicalFields(v.fields);
      forall i | 0 <= i < |r| ensures Valid(r[i].value) {
        LookupAt(r, i);
        CanonicalLookup(v.fields, r[i].key);
        ValidLookup(v, r[i].key);
        CanonicalIsValid(Lookup(v.fields, r[i].key).value);
      }
      assert Valid(Obj(r));
      assert Canonical(v) == Obj(r) by { CanonicalOfObj(v); }
    }
  }

  lemma CanonicalOfObj(v: Json)
    requires v.Obj?
    ensures Canonical(v) == Obj(CanonicalFields(v.fields))
  {
  }

  lemma {:induction false} ItemsValid(items: seq<Json>)
    requires forall i :: 0 <= i < |items| ==> Valid(items[i])
    ensures forall i :: 0 <= i < |items| ==> Valid(CanonicalItems(items)[i])
    decreases items, 2
  {
    if |items| > 0 {
      CanonicalIsValid(items[0]);
      ItemsValid(items[1..]);
      assert forall i :: 0 < i < |items| ==> CanonicalItems(items)[i] == CanonicalItems(items[1..])[i - 1];
    }
  }
}
